/** The constant of Graham's bound cannot be improved: for every number of buckets his 1969 instance attains it. */
module GrahamTight {
  import opened Scheduling

  // ----- the instance: two jobs each of weight 2m - 1, ..., m + 1 and three of weight m

  function Weight(m: nat, i: nat): int {
    if i < 2 * m then 2 * m - 1 - i / 2 else m
  }

  function Weights(m: nat): (w: seq<real>)
    ensures |w| == 2 * m + 1 && forall i | 0 <= i < |w| :: w[i] == Weight(m, i) as real
  {
    seq(2 * m + 1, i requires 0 <= i => Weight(m, i) as real)
  }

  /** Where the run puts job `k`: one to each bucket, then one to each in reverse, then the last. */
  function Place(m: nat, k: nat): nat {
    if k < m then k else if k < 2 * m then 2 * m - 1 - k else 0
  }

  function Placed(m: nat, k: nat): (p: seq<nat>)
    ensures |p| == k && forall i | 0 <= i < k :: p[i] == Place(m, i)
  {
    seq(k, i requires 0 <= i => Place(m, i))
  }

  /** Where an optimal assignment puts it: the heavy ones in pairs, the three light ones together. */
  function Best(m: nat, k: nat): nat
    requires m > 0
  {
    if k < m - 1 then k else if k < 2 * m - 2 then 2 * m - 3 - k else m - 1
  }

  function BestPlaced(m: nat, k: nat): (p: seq<nat>)
    requires m > 0
    ensures |p| == k && forall i | 0 <= i < k :: p[i] == Best(m, i)
  {
    seq(k, i requires 0 <= i => Best(m, i))
  }

  // ----- what the run makes of it

  function If(condition: bool, x: int): int {
    if condition then x else 0
  }

  /** Weight and number of jobs in bucket `b` after `k` placements. */
  function LoadAt(m: nat, k: nat, b: nat): int
    requires b < m
  {
    If(b < k, Weight(m, b)) + If(2 * m - 1 - b < k, Weight(m, 2 * m - 1 - b)) + If(2 * m < k && b == 0, m)
  }

  function CountAt(m: nat, k: nat, b: nat): int {
    If(b < k, 1) + If(2 * m - 1 - b < k, 1) + If(2 * m < k && b == 0, 1)
  }

  lemma {:induction false} RunLoads(m: nat, k: nat, b: nat)
    requires b < m && k <= 2 * m + 1
    ensures Load(Weights(m), Placed(m, k), b) == LoadAt(m, k, b) as real
    ensures Count(Placed(m, k), b) == CountAt(m, k, b)
  {
    if k > 0 {
      RunLoads(m, k - 1, b);
      assert Placed(m, k)[..k - 1] == Placed(m, k - 1);
      LoadAtNext(m, k - 1, b);
    }
  }

  lemma LoadAtNext(m: nat, k: nat, b: nat)
    requires b < m && k <= 2 * m
    ensures LoadAt(m, k + 1, b) == LoadAt(m, k, b) + If(Place(m, k) == b, Weight(m, k))
    ensures CountAt(m, k + 1, b) == CountAt(m, k, b) + If(Place(m, k) == b, 1)
  {
  }

  /** The two jobs of a bucket complement each other. */
  lemma Complements(m: nat, b: nat)
    requires b < m
    ensures Weight(m, b) + Weight(m, 2 * m - 1 - b) == 3 * m - 1
  {
    var c := 2 * m - 1 - b;
    assert b == 2 * (b / 2) + b % 2 && c == 2 * (c / 2) + c % 2 && b % 2 + c % 2 == 1;
  }

  lemma PlacedLightest(m: nat, k: nat)
    requires 0 < m && k <= 2 * m
    ensures IsLightest(Weights(m), Placed(m, k), m, Place(m, k))
  {
    hide Load, Count;
    var c := Place(m, k);
    RunLoads(m, k, c);
    forall b: nat | b < m ensures !Lighter(Weights(m), Placed(m, k), b, c) {
      RunLoads(m, k, b);
      Complements(m, b);
      Complements(m, c);
    }
  }

  lemma InstanceIsRun(m: nat)
    requires m > 0
    ensures IsRun(Weights(m), Placed(m, 2 * m + 1), m)
  {
    var p := Placed(m, 2 * m + 1);
    forall k | 0 <= k < |p| ensures IsLightest(Weights(m), p[..k], m, p[k]) {
      assert p[..k] == Placed(m, k);
      PlacedLightest(m, k);
    }
  }

  // ----- what can be made of it

  function BestAt(m: nat, k: nat, b: nat): int
    requires b < m
  {
    if b < m - 1 then If(b < k, Weight(m, b)) + If(2 * m - 3 - b < k, Weight(m, 2 * m - 3 - b))
    else If(2 * m - 2 < k, m) + If(2 * m - 1 < k, m) + If(2 * m < k, m)
  }

  lemma {:induction false} BestLoads(m: nat, k: nat, b: nat)
    requires b < m && k <= 2 * m + 1
    ensures Load(Weights(m), BestPlaced(m, k), b) == BestAt(m, k, b) as real
  {
    if k > 0 {
      BestLoads(m, k - 1, b);
      assert BestPlaced(m, k)[..k - 1] == BestPlaced(m, k - 1);
      BestAtNext(m, k - 1, b);
    }
  }

  lemma BestAtNext(m: nat, k: nat, b: nat)
    requires b < m && k <= 2 * m
    ensures BestAt(m, k + 1, b) == BestAt(m, k, b) + If(Best(m, k) == b, Weight(m, k))
  {
  }

  lemma BestIsEven(m: nat, b: nat)
    requires b < m
    ensures BestAt(m, 2 * m + 1, b) == 3 * m
  {
    if b < m - 1 {
      var c := 2 * m - 3 - b;
      assert b == 2 * (b / 2) + b % 2 && c == 2 * (c / 2) + c % 2 && b % 2 + c % 2 == 1;
    }
  }

  lemma AverageReached(m: real, sum: real, x: real, t: real)
    requires m > 0.0 && m * x <= sum <= m * t
    ensures t >= x
  {
    assert t < x ==> m * (x - t) > 0.0;
  }

  /** The assignment `a` of the jobs keeps every bucket within `t`. */
  ghost predicate Fits(w: seq<real>, a: seq<nat>, m: nat, t: real) {
    |a| == |w| && IsSchedule(a, m) && forall c: nat | c < m :: Load(w, a, c) <= t
  }

  lemma BestReaches(m: nat)
    requires m > 0
    ensures var best := BestPlaced(m, 2 * m + 1);
            IsSchedule(best, m) && forall c: nat | c < m :: Load(Weights(m), best, c) == (3 * m) as real
  {
    var w, best := Weights(m), BestPlaced(m, 2 * m + 1);
    forall c: nat | c < m ensures Load(w, best, c) == (3 * m) as real {
      BestLoads(m, 2 * m + 1, c);
      BestIsEven(m, c);
    }
  }

  /** Every assignment of the instance has a bucket of at least 3m. */
  lemma NothingBelow(m: nat, a: seq<nat>, t: real)
    requires m > 0 && Fits(Weights(m), a, m, t)
    ensures t >= (3 * m) as real
  {
    hide Load, SumOfLoads, Total;
    var w, best := Weights(m), BestPlaced(m, 2 * m + 1);
    BestReaches(m);
    LoadsSumToTotal(w, best, m);
    LoadsSumToTotal(w, a, m);
    SumAtLeast(w, best, m, (3 * m) as real);
    SumAtMost(w, a, m, t);
    AverageReached(m as real, SumOfLoads(w, a, m), (3 * m) as real, t);
  }

  /** For every number of buckets there is an instance and a run on which bucket 0 gets exactly (4m - 1) / 3m times what the
      best assignment needs. */
  lemma BoundIsTight(m: nat) returns (w: seq<real>, p: seq<nat>, a: seq<nat>)
    requires m > 0
    ensures NonNegative(w) && Descending(w) && |p| == |w| && IsRun(w, p, m)
    ensures Fits(w, a, m, (3 * m) as real)
    ensures forall other, t | Fits(w, other, m, t) :: t >= (3 * m) as real
    ensures Load(w, p, 0) == (4 * m - 1) as real
  {
    hide Load, Fits, IsRun;
    w, p, a := Weights(m), Placed(m, 2 * m + 1), BestPlaced(m, 2 * m + 1);
    InstanceIsRun(m);
    RunLoads(m, 2 * m + 1, 0);
    Complements(m, 0);
    BestFits(m);
    forall other, t | Fits(w, other, m, t) ensures t >= (3 * m) as real {
      NothingBelow(m, other, t);
    }
  }

  lemma BestFits(m: nat)
    requires m > 0
    ensures Fits(Weights(m), BestPlaced(m, 2 * m + 1), m, (3 * m) as real)
  {
    BestReaches(m);
  }
}
