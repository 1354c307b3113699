/** Longest-processing-time scheduling, stated without any data structure.

  A schedule of the first |p| jobs is the sequence `p` of the buckets they went to;
  `w[i]` is the weight of job `i`.  The heap loop of the coverage scheduler is proved
  (module HeapScheduler) to produce runs in the sense of `IsRun`; what such runs
  guarantee is proved here.
 */
module Scheduling {

  /** Weight that schedule `p` puts into bucket `b`. */
  function Load(w: seq<real>, p: seq<nat>, b: nat): real
    requires |p| <= |w|
  {
    if p == [] then 0.0
    else
      var k := |p| - 1;
      Load(w, p[..k], b) + if p[k] == b then w[k] else 0.0
  }

  /** Number of jobs that schedule `p` puts into bucket `b`. */
  function Count(p: seq<nat>, b: nat): nat {
    if p == [] then 0
    else
      var k := |p| - 1;
      Count(p[..k], b) + if p[k] == b then 1 else 0
  }

  function Total(w: seq<real>): real {
    if w == [] then 0.0 else Total(w[..|w| - 1]) + w[|w| - 1]
  }

  function SumOfLoads(w: seq<real>, p: seq<nat>, m: nat): real
    requires |p| <= |w|
  {
    if m == 0 then 0.0 else SumOfLoads(w, p, m - 1) + Load(w, p, m - 1)
  }

  /** Lexicographic order on (weight, number of jobs). */
  predicate Lighter(w: seq<real>, p: seq<nat>, b: nat, c: nat)
    requires |p| <= |w|
  {
    Load(w, p, b) < Load(w, p, c) || (Load(w, p, b) == Load(w, p, c) && Count(p, b) < Count(p, c))
  }

  /** What a full scan over all buckets would accept as the place for the next job. */
  ghost predicate IsLightest(w: seq<real>, p: seq<nat>, m: nat, c: nat)
    requires |p| <= |w|
  {
    c < m && forall b: nat | b < m :: !Lighter(w, p, b, c)
  }

  ghost predicate IsSchedule(p: seq<nat>, m: nat) {
    forall k | 0 <= k < |p| :: p[k] < m
  }

  /** Every job went to a lightest bucket of its moment. */
  ghost predicate IsRun(w: seq<real>, p: seq<nat>, m: nat) {
    |p| <= |w| && forall k | 0 <= k < |p| :: IsLightest(w, p[..k], m, p[k])
  }

  ghost predicate NonNegative(w: seq<real>) {
    forall i | 0 <= i < |w| :: w[i] >= 0.0
  }

  ghost predicate Descending(w: seq<real>) {
    forall i, j | 0 <= i < j < |w| :: w[i] >= w[j]
  }

  // ----- sums over buckets and over jobs

  /** Nothing is lost: the buckets together weigh what the scheduled jobs weigh. */
  lemma {:induction false} LoadsSumToTotal(w: seq<real>, p: seq<nat>, m: nat)
    requires |p| <= |w| && IsSchedule(p, m)
    ensures SumOfLoads(w, p, m) == Total(w[..|p|])
  {
    if p == [] {
      EmptyLoads(w, m);
    } else {
      var k := |p| - 1;
      LoadsSumToTotal(w, p[..k], m);
      SumAfterPlacement(w, p, m);
      assert w[..|p|][..k] == w[..k];
    }
  }

  lemma TotalSnoc(w: seq<real>, k: nat)
    requires k < |w|
    ensures Total(w[..k + 1]) == Total(w[..k]) + w[k]
  {
    assert w[..k + 1][..k] == w[..k];
  }

  lemma {:induction false} EmptyLoads(w: seq<real>, m: nat)
    ensures SumOfLoads(w, [], m) == 0.0
  {
    if m > 0 { EmptyLoads(w, m - 1); }
  }

  lemma {:induction false} SumAfterPlacement(w: seq<real>, p: seq<nat>, m: nat)
    requires 0 < |p| <= |w|
    ensures SumOfLoads(w, p, m) == SumOfLoads(w, p[..|p| - 1], m) + if p[|p| - 1] < m then w[|p| - 1] else 0.0
  {
    if m > 0 { SumAfterPlacement(w, p, m - 1); }
  }

  lemma {:induction false} SumAtLeast(w: seq<real>, p: seq<nat>, m: nat, c: real)
    requires |p| <= |w|
    requires forall b: nat | b < m :: Load(w, p, b) >= c
    ensures SumOfLoads(w, p, m) >= m as real * c
  {
    if m > 0 {
      SumAtLeast(w, p, m - 1, c);
      assert m as real * c == (m - 1) as real * c + c;
    }
  }

  lemma {:induction false} SumAtMost(w: seq<real>, p: seq<nat>, m: nat, c: real)
    requires |p| <= |w|
    requires forall b: nat | b < m :: Load(w, p, b) <= c
    ensures SumOfLoads(w, p, m) <= m as real * c
  {
    if m > 0 {
      SumAtMost(w, p, m - 1, c);
      assert m as real * c == (m - 1) as real * c + c;
    }
  }

  /** All buckets but one weigh at least `c`. */
  lemma {:induction false} SumAtLeastBut(w: seq<real>, p: seq<nat>, m: nat, c: real, x: nat)
    requires |p| <= |w| && x < m
    requires forall b: nat | b < m && b != x :: Load(w, p, b) >= c
    ensures SumOfLoads(w, p, m) >= (m - 1) as real * c + Load(w, p, x)
  {
    if x == m - 1 {
      SumAtLeast(w, p, m - 1, c);
    } else {
      SumAtLeastBut(w, p, m - 1, c, x);
      assert (m - 1) as real * c == (m - 2) as real * c + c;
    }
  }

  /** Unscheduling jobs never makes a bucket heavier. */
  lemma {:induction false} PrefixIsLighter(w: seq<real>, p: seq<nat>, k: nat, b: nat)
    requires NonNegative(w) && k <= |p| <= |w|
    ensures Load(w, p[..k], b) <= Load(w, p, b)
  {
    if k < |p| {
      var j := |p| - 1;
      assert p[..j][..k] == p[..k];
      PrefixIsLighter(w, p[..j], k, b);
    } else {
      assert p[..k] == p;
    }
  }

  lemma {:induction false} LoadNonNegative(w: seq<real>, p: seq<nat>, b: nat)
    requires NonNegative(w) && |p| <= |w|
    ensures Load(w, p, b) >= 0.0
    ensures Count(p, b) == 0 ==> Load(w, p, b) == 0.0
  {
    if p != [] { LoadNonNegative(w, p[..|p| - 1], b); }
  }

  lemma {:induction false} LoadReadsPrefix(w: seq<real>, v: seq<real>, p: seq<nat>, b: nat)
    requires |p| <= |w| && |p| <= |v| && w[..|p|] == v[..|p|]
    ensures Load(w, p, b) == Load(v, p, b)
  {
    if p != [] {
      var k := |p| - 1;
      assert w[..k] == w[..|p|][..k] == v[..|p|][..k] == v[..k];
      assert w[k] == w[..|p|][k] == v[..|p|][k] == v[k];
      LoadReadsPrefix(w, v, p[..k], b);
    }
  }

  // ----- balance

  /** No bucket would stay heavier than another one after giving up any one of its files
      (so in particular its lightest one). */
  lemma {:induction false} Balanced(w: seq<real>, p: seq<nat>, m: nat, i: nat, b: nat)
    requires NonNegative(w) && Descending(w) && IsRun(w, p, m)
    requires i < |p| && b < m
    ensures Load(w, p, p[i]) - w[i] <= Load(w, p, b)
  {
    var k := |p| - 1;
    var q := p[..k];
    PrefixRun(w, p, m);
    assert !Lighter(w, q, b, p[k]);
    if i < k {
      Balanced(w, q, m, i, b);
    }
    if p[i] == b { LoadSplits(w, p, i); }
  }

  /** A bucket weighs at least what any one of its jobs weighs. */
  lemma {:induction false} LoadSplits(w: seq<real>, p: seq<nat>, i: nat)
    requires NonNegative(w) && i < |p| <= |w|
    ensures w[i] <= Load(w, p, p[i])
  {
    PrefixIsLighter(w, p, i + 1, p[i]);
    assert p[..i + 1][..i] == p[..i];
    LoadNonNegative(w, p[..i], p[i]);
  }

  /** List-scheduling bound: m times the weight of any bucket is at most the total
      plus m - 1 times the largest single weight. */
  lemma ListSchedulingBound(w: seq<real>, p: seq<nat>, m: nat, b: nat, largest: real)
    requires NonNegative(w) && Descending(w) && IsRun(w, p, m) && |p| == |w|
    requires b < m
    requires forall i | 0 <= i < |w| :: w[i] <= largest
    requires w == [] ==> largest >= 0.0
    ensures m as real * Load(w, p, b) <= Total(w) + (m - 1) as real * largest
  {
    hide Load, Count, SumOfLoads, Total, Descending;
    RunIsSchedule(w, p, m);
    LoadsSumToTotal(w, p, m);
    assert w[..|p|] == w;
    assert w != [] ==> 0.0 <= w[0] <= largest;
    var floor := Load(w, p, b) - largest;
    if Count(p, b) == 0 {
      forall c: nat | c < m && c != b ensures Load(w, p, c) >= floor {
        LoadNonNegative(w, p, b);
        LoadNonNegative(w, p, c);
      }
    } else {
      var i := JobIn(p, b);
      forall c: nat | c < m && c != b ensures Load(w, p, c) >= floor {
        Balanced(w, p, m, i, c);
      }
    }
    SumAtLeastBut(w, p, m, floor, b);
    SpreadFloor((m - 1) as real, Load(w, p, b), largest);
  }

  lemma SpreadFloor(r: real, load: real, largest: real)
    ensures (r + 1.0) * load == r * (load - largest) + load + r * largest
  {
  }

  lemma RunIsSchedule(w: seq<real>, p: seq<nat>, m: nat)
    requires IsRun(w, p, m)
    ensures IsSchedule(p, m)
  {
    forall k | 0 <= k < |p| ensures p[k] < m {
      assert IsLightest(w, p[..k], m, p[k]);
    }
  }

  lemma {:induction false} JobIn(p: seq<nat>, b: nat) returns (i: nat)
    requires Count(p, b) > 0
    ensures i < |p| && p[i] == b
  {
    i := |p| - 1;
    if p[i] != b { i := JobIn(p[..i], b); }
  }

  // ----- Graham's bound

  /** Counting units for a limit `t` that the jobs up to `j` must meet: a job that cannot
      share a bucket of capacity `t` with job `j` takes two units, every other job one. */
  function Units(w: seq<real>, j: nat, t: real): (u: seq<real>)
    requires j < |w|
    ensures |u| == j + 1
    ensures forall i | 0 <= i <= j :: u[i] == if w[i] + w[j] > t then 2.0 else 1.0
  {
    seq(j + 1, i requires 0 <= i <= j => if w[i] + w[j] > t then 2.0 else 1.0)
  }

  /** A bucket that cannot take job `j` any more holds at least two units. */
  lemma {:induction false} FullBucketHasTwoUnits(w: seq<real>, p: seq<nat>, j: nat, t: real, b: nat)
    requires |p| <= j < |w| && NonNegative(w) && w[j] <= t
    ensures Load(Units(w, j, t), p, b) >= 0.0
    ensures Load(w, p, b) > 0.0 ==> Load(Units(w, j, t), p, b) >= 1.0
    ensures Load(w, p, b) + w[j] > t ==> Load(Units(w, j, t), p, b) >= 2.0
  {
    if p != [] {
      var k := |p| - 1;
      FullBucketHasTwoUnits(w, p[..k], j, t, b);
      LoadNonNegative(w, p[..k], b);
    }
  }

  /** A bucket of weight at most `t`, all of whose jobs weigh more than a third of `t`,
      holds at most two units: one job that fits with nobody, or up to two others. */
  lemma {:induction false} FittingBucketHasTwoUnits(w: seq<real>, a: seq<nat>, j: nat, t: real, b: nat)
    requires |a| == j + 1 <= |w| && Descending(w)
    requires t >= 0.0 && 3.0 * w[j] > t
    requires Load(w, a, b) <= t
    ensures Load(Units(w, j, t), a, b) <= 2.0
  {
    var c, i := FewUnits(w, a, j, t, b);
  }

  /** The shapes a bucket can have: empty, one job `i`, two single-unit jobs, or too heavy. */
  lemma {:induction false} FewUnits(w: seq<real>, a: seq<nat>, j: nat, t: real, b: nat) returns (c: nat, i: nat)
    requires |a| <= j + 1 <= |w| && Descending(w)
    requires t >= 0.0 && 3.0 * w[j] > t
    ensures c <= 3
    ensures c == 0 ==> Load(w, a, b) == 0.0 && Load(Units(w, j, t), a, b) == 0.0
    ensures c == 1 ==> i < |a| && Load(w, a, b) == w[i] && Load(Units(w, j, t), a, b) == Units(w, j, t)[i]
    ensures c == 2 ==> 3.0 * Load(w, a, b) > 2.0 * t && Load(Units(w, j, t), a, b) == 2.0
    ensures c == 3 ==> Load(w, a, b) > t
  {
    c, i := 0, 0;
    if a != [] {
      var k := |a| - 1;
      c, i := FewUnits(w, a[..k], j, t, b);
      if a[k] == b {
        assert w[k] >= w[j];
        if c == 0 {
          c, i := 1, k;
        } else if c == 1 {
          assert w[i] >= w[k];
          c := if w[i] + w[j] > t || w[k] + w[j] > t then 3 else 2;
        } else {
          c := 3;
        }
      }
    }
  }

  /** The heart of the bound: when the next job weighs more than a third of what some
      assignment needs, the lightest bucket still has room for it within that amount. */
  lemma BigJobFits(w: seq<real>, p: seq<nat>, m: nat, c: nat, a: seq<nat>, t: real)
    requires NonNegative(w) && Descending(w) && |p| < |w|
    requires IsSchedule(p, m) && IsLightest(w, p, m, c)
    requires |a| == |p| + 1 && IsSchedule(a, m)
    requires forall b: nat | b < m :: Load(w, a, b) <= t
    requires 3.0 * w[|p|] > t
    ensures Load(w, p, c) + w[|p|] <= t
  {
    hide Load, Descending, SumOfLoads, Total;
    var j := |p|;
    LoadSplits(w, a, j);
    if Load(w, p, c) + w[j] > t {
      var u := Units(w, j, t);
      forall b: nat | b < m ensures Load(u, p, b) >= 2.0 && Load(u, a, b) <= 2.0 {
        assert !Lighter(w, p, b, c);
        FullBucketHasTwoUnits(w, p, j, t, b);
        FittingBucketHasTwoUnits(w, a, j, t, b);
      }
      TotalSnoc(u, j);
      LoadsSumToTotal(u, p, m);
      LoadsSumToTotal(u, a, m);
      SumAtLeast(u, p, m, 2.0);
      SumAtMost(u, a, m, 2.0);
    }
  }

  /** The lightest bucket weighs at most the average that assignment `a` leaves it. */
  lemma LightestBelowAverage(w: seq<real>, p: seq<nat>, m: nat, c: nat, a: seq<nat>, t: real)
    requires |p| < |w| && IsSchedule(p, m) && IsLightest(w, p, m, c)
    requires |a| == |p| + 1 && IsSchedule(a, m)
    requires forall b: nat | b < m :: Load(w, a, b) <= t
    ensures m as real * Load(w, p, c) + w[|p|] <= m as real * t
  {
    LightestSum(w, p, m, c);
    SumAtMost(w, a, m, t);
    LoadsSumToTotal(w, p, m);
    LoadsSumToTotal(w, a, m);
    TotalSnoc(w, |p|);
  }

  lemma LightestSum(w: seq<real>, p: seq<nat>, m: nat, c: nat)
    requires |p| <= |w| && IsLightest(w, p, m, c)
    ensures SumOfLoads(w, p, m) >= m as real * Load(w, p, c)
  {
    hide Load, Count, SumOfLoads;
    var x := Load(w, p, c);
    forall b: nat | b < m ensures Load(w, p, b) >= x {
      assert !Lighter(w, p, b, c);
    }
    SumAtLeast(w, p, m, x);
  }

  /** `load` is at most (4m - 1) / 3m times `t`. */
  ghost predicate WithinGraham(m: nat, load: real, t: real) {
    3.0 * m as real * load <= (4.0 * m as real - 1.0) * t
  }

  /** One placement keeps Graham's bound, whatever assignment `a` it is compared with. */
  lemma GrahamStep(w: seq<real>, p: seq<nat>, m: nat, c: nat, a: seq<nat>, t: real)
    requires NonNegative(w) && Descending(w) && |p| < |w|
    requires IsSchedule(p, m) && IsLightest(w, p, m, c)
    requires |a| == |p| + 1 && IsSchedule(a, m)
    requires forall b: nat | b < m :: Load(w, a, b) <= t
    ensures WithinGraham(m, Load(w, p, c) + w[|p|], t)
  {
    hide Load, Lighter, IsLightest, Descending, WithinGraham;
    var j := |p|;
    LoadSplits(w, a, j);
    assert 0.0 <= w[j] <= t;
    if 3.0 * w[j] > t {
      BigJobFits(w, p, m, c, a, t);
      WithinLimit(m, Load(w, p, c) + w[j], t);
    } else {
      LightestBelowAverage(w, p, m, c, a, t);
      SmallJob(m, Load(w, p, c), w[j], t);
    }
  }

  lemma WithinLimit(m: nat, load: real, t: real)
    requires m >= 1 && load <= t && t >= 0.0
    ensures WithinGraham(m, load, t)
  {
    var r := m as real;
    assert (4.0 * r - 1.0) * t == 3.0 * r * t + (r - 1.0) * t;
    assert r * (t - load) >= 0.0;
  }

  lemma SmallJob(m: nat, x: real, v: real, t: real)
    requires m >= 1 && m as real * x + v <= m as real * t && 3.0 * v <= t
    ensures WithinGraham(m, x + v, t)
  {
    var r := m as real;
    assert (r - 1.0) * (t - 3.0 * v) >= 0.0;
    assert (r - 1.0) * (t - 3.0 * v) == r * t - t - 3.0 * (r * v) + 3.0 * v;
  }

  /** Graham's 1969 bound: no bucket of a run weighs more than (4m - 1) / 3m times
      the heaviest bucket `t` of any assignment of the same jobs to m buckets. */
  lemma {:induction false} GrahamBound(w: seq<real>, p: seq<nat>, m: nat, a: seq<nat>, t: real, b: nat)
    requires NonNegative(w) && Descending(w) && IsRun(w, p, m) && b < m
    requires |p| <= |a| <= |w| && IsSchedule(a, m)
    requires forall c: nat | c < m :: Load(w, a, c) <= t
    ensures WithinGraham(m, Load(w, p, b), t)
  {
    if p == [] {
      LoadNonNegative(w, a, b);
      assert Load(w, a, b) <= t;
      WithinLimit(m, 0.0, t);
    } else {
      var k := |p| - 1;
      var q := p[..k];
      PrefixRun(w, p, m);
      if p[k] == b {
        RunIsSchedule(w, q, m);
        var a' := a[..k + 1];
        forall c: nat | c < m ensures Load(w, a', c) <= t {
          PrefixIsLighter(w, a, k + 1, c);
        }
        GrahamStep(w, q, m, b, a', t);
      } else {
        GrahamBound(w, q, m, a, t, b);
      }
    }
  }

  // ----- filling every bucket

  /** An unused bucket is lighter than every used one, so no bucket gets a second job
      while another one has none. */
  lemma {:induction false} UnusedFirst(w: seq<real>, p: seq<nat>, m: nat, b: nat, c: nat)
    requires NonNegative(w) && IsRun(w, p, m) && b < m && c < m
    requires Count(p, b) == 0
    ensures Count(p, c) <= 1
  {
    if p != [] {
      var k := |p| - 1;
      var q := p[..k];
      PrefixRun(w, p, m);
      UnusedFirst(w, q, m, b, c);
      if p[k] == c {
        assert !Lighter(w, q, b, c);
        LoadNonNegative(w, q, b);
        LoadNonNegative(w, q, c);
      }
    }
  }

  ghost predicate AllUsed(p: seq<nat>, m: nat) {
    forall b: nat | b < m :: Count(p, b) > 0
  }

  function SumOfCounts(p: seq<nat>, m: nat): nat {
    if m == 0 then 0 else SumOfCounts(p, m - 1) + Count(p, m - 1)
  }

  lemma {:induction false} CountsSumToJobs(p: seq<nat>, m: nat)
    requires IsSchedule(p, m)
    ensures SumOfCounts(p, m) == |p|
  {
    if p == [] {
      NoJobsNoCounts(m);
    } else {
      CountsSumToJobs(p[..|p| - 1], m);
      CountsAfterPlacement(p, m);
    }
  }

  lemma {:induction false} NoJobsNoCounts(m: nat)
    ensures SumOfCounts([], m) == 0
  {
    if m > 0 { NoJobsNoCounts(m - 1); }
  }

  lemma {:induction false} CountsAfterPlacement(p: seq<nat>, m: nat)
    requires p != []
    ensures SumOfCounts(p, m) == SumOfCounts(p[..|p| - 1], m) + if p[|p| - 1] < m then 1 else 0
  {
    if m > 0 { CountsAfterPlacement(p, m - 1); }
  }

  lemma {:induction false} AtLeastOneEach(p: seq<nat>, m: nat)
    requires AllUsed(p, m)
    ensures SumOfCounts(p, m) >= m
  {
    if m > 0 { AtLeastOneEach(p, m - 1); }
  }

  lemma {:induction false} AtMostOneEach(p: seq<nat>, m: nat, x: nat)
    requires forall b: nat | b < m :: Count(p, b) <= 1
    ensures SumOfCounts(p, m) <= m
    ensures x < m && Count(p, x) == 0 ==> SumOfCounts(p, m) < m
  {
    if m > 0 { AtMostOneEach(p, m - 1, x); }
  }

  /** Every bucket is used exactly when there are at least as many jobs as buckets. */
  lemma AllUsedIffEnoughJobs(w: seq<real>, p: seq<nat>, m: nat)
    requires NonNegative(w) && IsRun(w, p, m)
    ensures AllUsed(p, m) <==> |p| >= m
  {
    RunIsSchedule(w, p, m);
    CountsSumToJobs(p, m);
    if |p| >= m {
      forall x: nat | x < m ensures Count(p, x) > 0 {
        if Count(p, x) == 0 {
          forall c: nat | c < m ensures Count(p, c) <= 1 {
            UnusedFirst(w, p, m, x, c);
          }
          AtMostOneEach(p, m, x);
        }
      }
    } else if AllUsed(p, m) {
      AtLeastOneEach(p, m);
    }
  }

  // ----- tie-breaking does not matter

  /** The (weight, number of jobs) pairs of all buckets, as a multiset. */
  ghost function Profile(w: seq<real>, p: seq<nat>, m: nat): multiset<(real, nat)>
    requires |p| <= |w|
  {
    if m == 0 then multiset{} else Profile(w, p, m - 1) + multiset{Pair(w, p, m - 1)}
  }

  lemma {:induction false} ProfileHas(w: seq<real>, p: seq<nat>, m: nat, b: nat)
    requires |p| <= |w| && b < m
    ensures Pair(w, p, b) in Profile(w, p, m)
  {
    if b < m - 1 { ProfileHas(w, p, m - 1, b); }
  }

  lemma {:induction false} ProfileOnly(w: seq<real>, p: seq<nat>, m: nat, x: (real, nat)) returns (b: nat)
    requires |p| <= |w| && x in Profile(w, p, m)
    ensures b < m && x == Pair(w, p, b)
  {
    b := m - 1;
    if x != Pair(w, p, b) { b := ProfileOnly(w, p, m - 1, x); }
  }

  ghost function Pair(w: seq<real>, p: seq<nat>, b: nat): (real, nat)
    requires |p| <= |w|
  {
    (Load(w, p, b), Count(p, b))
  }

  /** Buckets other than the one chosen keep their pairs. */
  lemma {:induction false} ProfileElsewhere(w: seq<real>, p: seq<nat>, m: nat)
    requires 0 < |p| <= |w| && p[|p| - 1] >= m
    ensures Profile(w, p, m) == Profile(w, p[..|p| - 1], m)
  {
    if m > 0 { ProfileElsewhere(w, p, m - 1); }
  }

  /** One placement trades the chosen bucket's pair for the grown one. */
  lemma {:induction false} ProfileAfterPlacement(w: seq<real>, p: seq<nat>, m: nat)
    requires 0 < |p| <= |w| && p[|p| - 1] < m
    ensures var q, c := p[..|p| - 1], p[|p| - 1];
            Profile(w, p, m) + multiset{Pair(w, q, c)} == Profile(w, q, m) + multiset{Pair(w, p, c)}
  {
    var q, c := p[..|p| - 1], p[|p| - 1];
    if c == m - 1 {
      ProfileElsewhere(w, p, m - 1);
    } else {
      ProfileAfterPlacement(w, p, m - 1);
      assert Pair(w, p, m - 1) == Pair(w, q, m - 1);
      Regroup(Profile(w, p, m - 1), Profile(w, q, m - 1), Pair(w, q, m - 1), Pair(w, q, c), Pair(w, p, c));
    }
  }

  lemma Regroup<T>(a: multiset<T>, b: multiset<T>, z: T, x: T, y: T)
    requires a + multiset{x} == b + multiset{y}
    ensures a + multiset{z} + multiset{x} == b + multiset{z} + multiset{y}
  {
    assert a + multiset{z} + multiset{x} == (a + multiset{x}) + multiset{z};
    assert b + multiset{z} + multiset{y} == (b + multiset{y}) + multiset{z};
  }

  lemma Cancel<T>(a: multiset<T>, b: multiset<T>, x: T)
    requires a + multiset{x} == b + multiset{x}
    ensures a == b
  {
    assert a == (a + multiset{x}) - multiset{x};
    assert b == (b + multiset{x}) - multiset{x};
  }

  lemma PrefixRun(w: seq<real>, p: seq<nat>, m: nat)
    requires IsRun(w, p, m) && p != []
    ensures IsRun(w, p[..|p| - 1], m) && IsLightest(w, p[..|p| - 1], m, p[|p| - 1])
  {
    var q := p[..|p| - 1];
    forall j | 0 <= j < |q| ensures IsLightest(w, q[..j], m, q[j]) {
      assert q[..j] == p[..j];
    }
  }

  /** Lightest buckets of two schedules with equal profiles weigh and hold the same. */
  lemma LightestAgree(w: seq<real>, p: seq<nat>, q: seq<nat>, m: nat, b: nat, c: nat)
    requires |p| <= |w| && |q| <= |w| && Profile(w, p, m) == Profile(w, q, m)
    requires IsLightest(w, p, m, b) && IsLightest(w, q, m, c)
    ensures Load(w, p, b) == Load(w, q, c) && Count(p, b) == Count(q, c)
  {
    ProfileHas(w, p, m, b);
    ProfileHas(w, q, m, c);
    var b' := ProfileOnly(w, q, m, Pair(w, p, b));
    var c' := ProfileOnly(w, p, m, Pair(w, q, c));
    assert !Lighter(w, q, b', c) && !Lighter(w, p, c', b);
  }

  /** Any two runs over the same jobs end with the same bucket weights and sizes, so the
      order in which equally light buckets are picked (heap layout against plain scan)
      cannot be seen in the result. */
  lemma {:induction false} RunsAgree(w: seq<real>, p: seq<nat>, q: seq<nat>, m: nat)
    requires IsRun(w, p, m) && IsRun(w, q, m) && |p| == |q|
    ensures Profile(w, p, m) == Profile(w, q, m)
  {
    if p == [] {
      assert q == [];
    } else {
      var k := |p| - 1;
      PrefixRun(w, p, m);
      PrefixRun(w, q, m);
      RunsAgree(w, p[..k], q[..k], m);
      LightestAgree(w, p[..k], q[..k], m, p[k], q[k]);
      ProfileAfterPlacement(w, p, m);
      ProfileAfterPlacement(w, q, m);
      Cancel(Profile(w, p, m), Profile(w, q, m), Pair(w, p[..k], p[k]));
    }
  }

  // ----- the plain scan

  /** The first lightest bucket, found by looking at all of them. */
  function Scan(w: seq<real>, p: seq<nat>, m: nat): nat
    requires |p| <= |w| && m > 0
  {
    if m == 1 then 0
    else
      var c := Scan(w, p, m - 1);
      if Lighter(w, p, m - 1, c) then m - 1 else c
  }

  lemma {:induction false} ScanFindsLightest(w: seq<real>, p: seq<nat>, m: nat)
    requires |p| <= |w| && m > 0
    ensures IsLightest(w, p, m, Scan(w, p, m))
  {
    hide Load, Count;
    if m > 1 {
      ScanFindsLightest(w, p, m - 1);
      var c := Scan(w, p, m - 1);
      forall b: nat | b < m ensures !Lighter(w, p, b, Scan(w, p, m)) {
        assert b < m - 1 ==> !Lighter(w, p, b, c);
      }
    }
  }

  /** Longest-processing-time scheduling of the first k jobs, without a heap. */
  function ScanRun(w: seq<real>, k: nat, m: nat): (p: seq<nat>)
    requires k <= |w| && m > 0
    ensures |p| == k
  {
    if k == 0 then []
    else
      var p := ScanRun(w, k - 1, m);
      p + [Scan(w, p, m)]
  }

  lemma {:induction false} ScanRunIsRun(w: seq<real>, k: nat, m: nat)
    requires k <= |w| && m > 0
    ensures IsRun(w, ScanRun(w, k, m), m)
  {
    hide Lighter, IsLightest;
    if k > 0 {
      var p := ScanRun(w, k - 1, m);
      ScanRunIsRun(w, k - 1, m);
      ScanFindsLightest(w, p, m);
      RunGrows(w, p, m, Scan(w, p, m));
    }
  }

  lemma RunGrows(w: seq<real>, p: seq<nat>, m: nat, c: nat)
    requires IsRun(w, p, m) && |p| < |w| && IsLightest(w, p, m, c)
    ensures IsRun(w, p + [c], m)
  {
    hide IsLightest;
    var q := p + [c];
    forall k | 0 <= k < |q| ensures IsLightest(w, q[..k], m, q[k]) {
      assert q[..k] == p[..k];
      assert p[..|p|] == p;
    }
  }

  /** Whatever data structure finds the lightest buckets, the bucket weights and sizes are those of the plain scan. */
  lemma AgreesWithScan(w: seq<real>, p: seq<nat>, m: nat)
    requires IsRun(w, p, m) && |p| == |w| && m > 0
    ensures Profile(w, p, m) == Profile(w, ScanRun(w, |w|, m), m)
  {
    ScanRunIsRun(w, |w|, m);
    RunsAgree(w, p, ScanRun(w, |w|, m), m);
  }
}
