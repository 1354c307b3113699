/** Bounded concurrent map: min(jobs, |values|) workers share one cursor.

  A worker that meets an undefined value returns, so it is lost to the pool.  A worker whose operation rejects
  is lost too, and rejects the pool's result, while the other workers go on.  `operation(i, v)` is what the call made
  for value `v` at index `i` ends with, so calls on equal values may differ.
 */
module WorkerPool {
  import opened Collections
  import opened Optional

  datatype Worker = Ready | Busy(index: nat) | Finished | Thrown

  /** `started` records the index of every operation call, `rejected` the call that rejected first. */
  datatype State<R> = State(next: nat, workers: seq<Worker>, results: map<nat, R>, started: seq<nat>, rejected: Option<nat>)

  function Workers<T>(values: seq<Option<T>>, jobs: nat): nat {
    if jobs < |values| then jobs else |values|
  }

  ghost predicate Init<T, R>(values: seq<Option<T>>, jobs: nat, s: State<R>) {
    && s.next == 0 && s.results == map[] && s.started == [] && s.rejected == None
    && |s.workers| == Workers(values, jobs) && forall w | 0 <= w < |s.workers| :: s.workers[w] == Ready
  }

  /** Worker `w` runs up to its next await (or return), or its awaited operation resolves or rejects (None). */
  ghost predicate Next<T, R>(values: seq<Option<T>>, operation: (nat, T) -> Option<R>, s: State<R>, t: State<R>, w: nat) {
    w < |s.workers| &&
    match s.workers[w]
    case Finished => false
    case Thrown => false
    case Ready =>
      if s.next >= |values| then t == s.(workers := s.workers[w := Finished])
      else if values[s.next].None? then t == s.(next := s.next + 1, workers := s.workers[w := Finished])
      else t == s.(next := s.next + 1, workers := s.workers[w := Busy(s.next)], started := s.started + [s.next])
    case Busy(i) =>
      i < |values| && values[i].Some?
      && match operation(i, values[i].value)
         case Some(result) => t == s.(workers := s.workers[w := Ready], results := s.results[i := result])
         case None => t == s.(workers := s.workers[w := Thrown], rejected := if s.rejected.Some? then s.rejected else Some(i))
  }

  ghost predicate IsRun<T, R>(values: seq<Option<T>>, jobs: nat, operation: (nat, T) -> Option<R>, run: seq<State<R>>, who: seq<nat>) {
    && |run| == |who| + 1 && Init(values, jobs, run[0])
    && forall i | 0 <= i < |who| :: Next(values, operation, run[i], run[i + 1], who[i])
  }

  /** Every worker has returned, so the pool's result is there; it is rejected once `s.rejected` is set. */
  ghost predicate Returned<R>(s: State<R>) {
    forall w | 0 <= w < |s.workers| :: s.workers[w] == Finished
  }

  ghost predicate Settled<R>(s: State<R>) {
    forall w | 0 <= w < |s.workers| :: s.workers[w] == Finished || s.workers[w] == Thrown
  }

  // ----- counting

  function Undefined<T>(values: seq<Option<T>>, k: nat): nat
    requires k <= |values|
  {
    if k == 0 then 0 else Undefined(values, k - 1) + if values[k - 1].None? then 1 else 0
  }

  lemma {:induction false} UndefinedGrows<T>(values: seq<Option<T>>, j: nat, k: nat)
    requires j <= k <= |values|
    ensures Undefined(values, j) <= Undefined(values, k)
  {
    if j < k { UndefinedGrows(values, j, k - 1); }
  }

  function Lost(workers: seq<Worker>): nat {
    if workers == [] then 0 else Lost(workers[..|workers| - 1]) + if workers[|workers| - 1] == Finished then 1 else 0
  }

  lemma {:induction false} LostUpdate(workers: seq<Worker>, w: nat, x: Worker)
    requires w < |workers| && workers[w] != Finished
    ensures Lost(workers[w := x]) == Lost(workers) + if x == Finished then 1 else 0
  {
    var k := |workers| - 1;
    if w == k {
      assert workers[w := x][..k] == workers[..k];
    } else {
      assert workers[w := x][..k] == workers[..k][w := x];
      LostUpdate(workers[..k], w, x);
    }
  }

  lemma {:induction false} LostBounds(workers: seq<Worker>, w: nat)
    ensures Lost(workers) <= |workers|
    ensures w < |workers| && workers[w] != Finished ==> Lost(workers) < |workers|
    ensures (forall i | 0 <= i < |workers| :: workers[i] == Finished) ==> Lost(workers) == |workers|
    ensures (forall i | 0 <= i < |workers| :: workers[i] == Ready) ==> Lost(workers) == 0
  {
    if workers != [] { LostBounds(workers[..|workers| - 1], w); }
  }

  // ----- what every step keeps

  ghost predicate InFlight<R>(s: State<R>, i: nat) {
    exists w :: 0 <= w < |s.workers| && s.workers[w] == Busy(i)
  }

  /** Operations were called on every defined value below the cursor, once each. */
  ghost predicate Called<T, R>(values: seq<Option<T>>, s: State<R>) {
    && s.next <= |values|
    && (forall i :: i in s.started <==> 0 <= i < s.next && values[i].Some?)
    && (forall a, b | 0 <= a < b < |s.started| :: s.started[a] < s.started[b])
  }

  /** Some worker's operation rejected. */
  ghost predicate SomeThrown<R>(s: State<R>) {
    exists w :: 0 <= w < |s.workers| && s.workers[w] == Thrown
  }

  /** The pool is rejected exactly when an operation rejected, and for a call that did. */
  ghost predicate Rejection<T, R>(values: seq<Option<T>>, operation: (nat, T) -> Option<R>, s: State<R>) {
    && (s.rejected.Some? <==> SomeThrown(s))
    && (s.rejected.Some? ==> var i := s.rejected.value;
                             i in s.started && i < |values| && values[i].Some? && operation(i, values[i].value).None?)
  }

  /** A call without a result is in flight, or has rejected. */
  ghost predicate Awaited<T, R>(values: seq<Option<T>>, operation: (nat, T) -> Option<R>, s: State<R>)
    requires Called(values, s)
  {
    forall i | i in s.started && i !in s.results :: InFlight(s, i) || (operation(i, values[i].value).None? && s.rejected.Some?)
  }

  /** Each call is in flight in exactly one worker, or has its result in place, or has rejected the pool. */
  ghost predicate Placed<T, R>(values: seq<Option<T>>, operation: (nat, T) -> Option<R>, s: State<R>)
    requires Called(values, s)
  {
    && (forall w | 0 <= w < |s.workers| && s.workers[w].Busy? :: s.workers[w].index in s.started && s.workers[w].index !in s.results)
    && (forall v, w | 0 <= v < w < |s.workers| && s.workers[v].Busy? && s.workers[w].Busy? :: s.workers[v].index != s.workers[w].index)
    && (forall i | i in s.results :: i in s.started && operation(i, values[i].value) == Some(s.results[i]))
    && Awaited(values, operation, s)
  }

  /** Undefined values cost workers. */
  ghost predicate Charged<T, R>(values: seq<Option<T>>, jobs: nat, s: State<R>) {
    && s.next <= |values| && |s.workers| == Workers(values, jobs)
    && (s.next < |values| ==> Lost(s.workers) == Undefined(values, s.next))
    && (s.next > 0 ==> Undefined(values, s.next - 1) < |s.workers|)
  }

  ghost predicate Inv<T, R>(values: seq<Option<T>>, jobs: nat, operation: (nat, T) -> Option<R>, s: State<R>) {
    Called(values, s) && Placed(values, operation, s) && Charged(values, jobs, s) && Rejection(values, operation, s)
  }

  lemma InvInit<T, R>(values: seq<Option<T>>, jobs: nat, operation: (nat, T) -> Option<R>, s: State<R>)
    requires Init(values, jobs, s)
    ensures Inv(values, jobs, operation, s)
  {
    LostBounds(s.workers, 0);
  }

  lemma CalledStep<T, R>(values: seq<Option<T>>, operation: (nat, T) -> Option<R>, s: State<R>, t: State<R>, w: nat)
    requires Called(values, s) && Next(values, operation, s, t, w)
    ensures Called(values, t)
  {
    forall a | 0 <= a < |s.started| ensures s.started[a] < s.next {
      assert s.started[a] in s.started;
    }
  }

  lemma PlacedStep<T, R>(values: seq<Option<T>>, operation: (nat, T) -> Option<R>, s: State<R>, t: State<R>, w: nat)
    requires Called(values, s) && Called(values, t) && Placed(values, operation, s) && Next(values, operation, s, t, w)
    ensures Placed(values, operation, t)
  {
    hide InFlight;
    AwaitedStep(values, operation, s, t, w);
  }

  lemma AwaitedStep<T, R>(values: seq<Option<T>>, operation: (nat, T) -> Option<R>, s: State<R>, t: State<R>, w: nat)
    requires Called(values, s) && Called(values, t) && Awaited(values, operation, s) && Next(values, operation, s, t, w)
    ensures Awaited(values, operation, t)
  {
    forall i | i in t.started && i !in t.results
      ensures InFlight(t, i) || (operation(i, values[i].value).None? && t.rejected.Some?)
    {
      if i in s.started {
        if InFlight(s, i) {
          var v :| 0 <= v < |s.workers| && s.workers[v] == Busy(i);
          assert v != w ==> t.workers[v] == Busy(i);
        }
      } else {
        assert t.workers[w] == Busy(i);
      }
    }
  }

  lemma ChargedStep<T, R>(values: seq<Option<T>>, jobs: nat, operation: (nat, T) -> Option<R>, s: State<R>, t: State<R>, w: nat)
    requires Charged(values, jobs, s) && Next(values, operation, s, t, w)
    ensures Charged(values, jobs, t)
  {
    LostBounds(s.workers, w);
    LostUpdate(s.workers, w, t.workers[w]);
  }

  lemma RejectionStep<T, R>(values: seq<Option<T>>, operation: (nat, T) -> Option<R>, s: State<R>, t: State<R>, w: nat)
    requires Called(values, s) && Placed(values, operation, s) && Rejection(values, operation, s) && Next(values, operation, s, t, w)
    ensures Rejection(values, operation, t)
  {
    if SomeThrown(s) {
      var v :| 0 <= v < |s.workers| && s.workers[v] == Thrown;
      assert t.workers[v] == Thrown;
    }
    if SomeThrown(t) {
      var v :| 0 <= v < |t.workers| && t.workers[v] == Thrown;
      assert v != w ==> s.workers[v] == Thrown;
    }
    assert t.workers[w] == Thrown ==> SomeThrown(t);
  }

  lemma InvStep<T, R>(values: seq<Option<T>>, jobs: nat, operation: (nat, T) -> Option<R>, s: State<R>, t: State<R>, w: nat)
    requires Inv(values, jobs, operation, s) && Next(values, operation, s, t, w)
    ensures Inv(values, jobs, operation, t)
  {
    CalledStep(values, operation, s, t, w);
    PlacedStep(values, operation, s, t, w);
    ChargedStep(values, jobs, operation, s, t, w);
    RejectionStep(values, operation, s, t, w);
  }

  lemma {:induction false} InvHolds<T, R>(values: seq<Option<T>>, jobs: nat, operation: (nat, T) -> Option<R>, run: seq<State<R>>, who: seq<nat>, k: nat)
    requires IsRun(values, jobs, operation, run, who) && k < |run|
    ensures Inv(values, jobs, operation, run[k])
  {
    if k == 0 {
      InvInit(values, jobs, operation, run[0]);
    } else {
      InvHolds(values, jobs, operation, run, who, k - 1);
      assert Next(values, operation, run[k - 1], run[k], who[k - 1]);
      InvStep(values, jobs, operation, run[k - 1], run[k], who[k - 1]);
    }
  }

  // ----- the guarantees, over every interleaving

  /** Which indices a pool of this size reaches: those with fewer undefined values before them than jobs. */
  ghost predicate Reached<T>(values: seq<Option<T>>, jobs: nat, i: nat) {
    i < |values| && values[i].Some? && Undefined(values, i) < jobs
  }

  lemma {:induction false} UndefinedAtMost<T>(values: seq<Option<T>>, k: nat)
    requires k <= |values|
    ensures Undefined(values, k) <= k
  {
    if k > 0 { UndefinedAtMost(values, k - 1); }
  }

  /** When the pool returns, exactly the reached indices were processed, once each, none of their operations
      rejected, and result i is that of value i. */
  lemma PoolResult<T, R>(values: seq<Option<T>>, jobs: nat, operation: (nat, T) -> Option<R>, run: seq<State<R>>, who: seq<nat>, k: nat)
    requires IsRun(values, jobs, operation, run, who) && k < |run| && Returned(run[k])
    ensures forall i: nat :: i in run[k].results <==> Reached(values, jobs, i)
    ensures forall i: nat | Reached(values, jobs, i) :: operation(i, values[i].value) == Some(run[k].results[i])
    ensures run[k].rejected == None
    ensures forall i :: i in run[k].started <==> i in run[k].results
    ensures forall a, b | 0 <= a < b < |run[k].started| :: run[k].started[a] != run[k].started[b]
  {
    InvHolds(values, jobs, operation, run, who, k);
    var s := run[k];
    LostBounds(s.workers, 0);
    forall i: nat | i < |values| ensures i < s.next <==> Undefined(values, i) < jobs {
      UndefinedAtMost(values, i);
      if i < s.next {
        UndefinedGrows(values, i, s.next - 1);
      } else {
        UndefinedGrows(values, s.next, i);
      }
    }
    assert !SomeThrown(s);
  }

  /** Over defined values and with at least one job, that is every index. */
  lemma EveryValueProcessed<T, R>(values: seq<Option<T>>, jobs: nat, operation: (nat, T) -> Option<R>, run: seq<State<R>>, who: seq<nat>, k: nat)
    requires IsRun(values, jobs, operation, run, who) && k < |run| && Returned(run[k])
    requires jobs > 0 && forall i | 0 <= i < |values| :: values[i].Some?
    ensures forall i :: i in run[k].results <==> 0 <= i < |values|
    ensures forall i | 0 <= i < |values| :: operation(i, values[i].value) == Some(run[k].results[i])
  {
    PoolResult(values, jobs, operation, run, who, k);
    forall i: nat | i < |values| ensures Reached(values, jobs, i) {
      AllDefined(values, i);
    }
  }

  lemma {:induction false} AllDefined<T>(values: seq<Option<T>>, k: nat)
    requires k <= |values| && forall i | 0 <= i < |values| :: values[i].Some?
    ensures Undefined(values, k) == 0
  {
    if k > 0 { AllDefined(values, k - 1); }
  }

  ghost function BusyIndices(workers: seq<Worker>): set<nat> {
    if workers == [] then {}
    else
      var last := workers[|workers| - 1];
      BusyIndices(workers[..|workers| - 1]) + if last.Busy? then {last.index} else {}
  }

  lemma {:induction false} BusyIndicesBound(workers: seq<Worker>)
    ensures |BusyIndices(workers)| <= |workers|
    ensures forall w | 0 <= w < |workers| && workers[w].Busy? :: workers[w].index in BusyIndices(workers)
  {
    if workers != [] { BusyIndicesBound(workers[..|workers| - 1]); }
  }

  ghost function Pending<R>(s: State<R>): set<nat> {
    set i | i in s.started && InFlight(s, i)
  }

  /** At any moment at most `jobs` operations have been called and have neither resolved nor rejected. */
  lemma AtMostJobsInFlight<T, R>(values: seq<Option<T>>, jobs: nat, operation: (nat, T) -> Option<R>, run: seq<State<R>>, who: seq<nat>, k: nat)
    requires IsRun(values, jobs, operation, run, who) && k < |run|
    ensures |Pending(run[k])| <= jobs
    ensures |run[k].workers| == if jobs < |values| then jobs else |values|
  {
    InvHolds(values, jobs, operation, run, who, k);
    var s := run[k];
    var pending := Pending(s);
    BusyIndicesBound(s.workers);
    forall i | i in pending ensures i in BusyIndices(s.workers) {
      assert InFlight(s, i);
    }
    SubsetSize(pending, BusyIndices(s.workers));
  }

  function Weight(workers: seq<Worker>): nat {
    if workers == [] then 0
    else Weight(workers[..|workers| - 1]) + match workers[|workers| - 1]
                                            case Ready => 1
                                            case Busy(_) => 2
                                            case _ => 0
  }

  lemma {:induction false} WeightUpdate(workers: seq<Worker>, w: nat, x: Worker)
    requires w < |workers|
    ensures Weight(workers[w := x]) + Weight([workers[w]]) == Weight(workers) + Weight([x])
  {
    var k := |workers| - 1;
    assert [workers[w]][..0] == [] && [x][..0] == [];
    if w == k {
      assert workers[w := x][..k] == workers[..k];
    } else {
      assert workers[w := x][..k] == workers[..k][w := x];
      WeightUpdate(workers[..k], w, x);
    }
  }

  /** Every step uses up work, so no interleaving goes on forever. */
  lemma EveryStepProgresses<T, R>(values: seq<Option<T>>, operation: (nat, T) -> Option<R>, s: State<R>, t: State<R>, w: nat)
    requires s.next <= |values| && Next(values, operation, s, t, w)
    ensures 2 * (|values| - t.next) + Weight(t.workers) < 2 * (|values| - s.next) + Weight(s.workers)
    ensures t.next <= |values|
  {
    WeightUpdate(s.workers, w, t.workers[w]);
    assert [s.workers[w]][..0] == [] && [t.workers[w]][..0] == [];
  }

  /** As long as some worker has neither returned nor thrown, one of them can step. */
  lemma NeverStuck<T, R>(values: seq<Option<T>>, jobs: nat, operation: (nat, T) -> Option<R>, s: State<R>)
    requires Inv(values, jobs, operation, s)
    ensures Settled(s) <==> !exists t, w: nat :: Next(values, operation, s, t, w)
  {
    if !Settled(s) {
      var w: nat :| w < |s.workers| && s.workers[w] != Finished && s.workers[w] != Thrown;
      var t := StepOf(values, operation, s, w);
      assert Next(values, operation, s, t, w);
    }
  }

  /** What worker `w` does next. */
  ghost function StepOf<T, R>(values: seq<Option<T>>, operation: (nat, T) -> Option<R>, s: State<R>, w: nat): (t: State<R>)
    requires Called(values, s) && Placed(values, operation, s)
    requires w < |s.workers| && s.workers[w] != Finished && s.workers[w] != Thrown
    ensures Next(values, operation, s, t, w)
  {
    match s.workers[w]
    case Ready =>
      if s.next >= |values| then s.(workers := s.workers[w := Finished])
      else if values[s.next].None? then s.(next := s.next + 1, workers := s.workers[w := Finished])
      else s.(next := s.next + 1, workers := s.workers[w := Busy(s.next)], started := s.started + [s.next])
    case Busy(i) =>
      assert i in s.started;
      match operation(i, values[i].value)
      case Some(result) => s.(workers := s.workers[w := Ready], results := s.results[i := result])
      case None => s.(workers := s.workers[w := Thrown], rejected := if s.rejected.Some? then s.rejected else Some(i))
  }

  ghost function Measure<T, R>(values: seq<Option<T>>, s: State<R>): nat {
    if s.next <= |values| then 2 * (|values| - s.next) + Weight(s.workers) else 0
  }

  /** So every run can be completed to one that settles. */
  lemma {:induction false} RunCompletes<T, R>(values: seq<Option<T>>, jobs: nat, operation: (nat, T) -> Option<R>, run: seq<State<R>>, who: seq<nat>)
      returns (whole: seq<State<R>>, all: seq<nat>)
    requires IsRun(values, jobs, operation, run, who)
    ensures IsRun(values, jobs, operation, whole, all) && run <= whole && who <= all && Settled(whole[|whole| - 1])
    decreases Measure(values, run[|who|])
  {
    hide IsRun, Next, Placed, Charged, Rejection, Weight;
    assert |run| == |who| + 1 by { RunLength(values, jobs, operation, run, who); }
    InvHolds(values, jobs, operation, run, who, |who|);
    var s := run[|who|];
    if Settled(s) {
      whole, all := run, who;
    } else {
      var w: nat :| w < |s.workers| && s.workers[w] != Finished && s.workers[w] != Thrown;
      var t := StepOf(values, operation, s, w);
      EveryStepProgresses(values, operation, s, t, w);
      RunExtends(values, jobs, operation, run, who, t, w);
      whole, all := RunCompletes(values, jobs, operation, run + [t], who + [w]);
    }
  }

  lemma RunLength<T, R>(values: seq<Option<T>>, jobs: nat, operation: (nat, T) -> Option<R>, run: seq<State<R>>, who: seq<nat>)
    requires IsRun(values, jobs, operation, run, who)
    ensures |run| == |who| + 1
  {
  }

  lemma RunExtends<T, R>(values: seq<Option<T>>, jobs: nat, operation: (nat, T) -> Option<R>, run: seq<State<R>>, who: seq<nat>, t: State<R>, w: nat)
    requires IsRun(values, jobs, operation, run, who) && Next(values, operation, run[|who|], t, w)
    ensures IsRun(values, jobs, operation, run + [t], who + [w])
  {
    hide Next, Init;
    var longer, chosen := run + [t], who + [w];
    forall i | 0 <= i < |chosen| ensures Next(values, operation, longer[i], longer[i + 1], chosen[i]) {
      if i < |who| {
        assert Next(values, operation, run[i], run[i + 1], who[i]);
        assert longer[i] == run[i] && longer[i + 1] == run[i + 1] && chosen[i] == who[i];
      }
    }
  }

  /** A settled pool is rejected exactly when one of the operations it called rejects; otherwise it has returned. */
  lemma SettledOutcome<T, R>(values: seq<Option<T>>, jobs: nat, operation: (nat, T) -> Option<R>, run: seq<State<R>>, who: seq<nat>, k: nat)
    requires IsRun(values, jobs, operation, run, who) && k < |run| && Settled(run[k])
    ensures Returned(run[k]) <==> run[k].rejected.None?
    ensures forall i | i in run[k].started :: 0 <= i < |values| && values[i].Some?
    ensures run[k].rejected.None? <==> forall i | i in run[k].started :: operation(i, values[i].value).Some?
  {
    InvHolds(values, jobs, operation, run, who, k);
    var s := run[k];
    assert forall i :: !InFlight(s, i);
  }

  /** The first rejection decides, whatever happens later. */
  lemma {:induction false} RejectionIsFinal<T, R>(values: seq<Option<T>>, jobs: nat, operation: (nat, T) -> Option<R>, run: seq<State<R>>, who: seq<nat>,
                                                  j: nat, k: nat)
    requires IsRun(values, jobs, operation, run, who) && j <= k < |run| && run[j].rejected.Some?
    ensures run[k].rejected == run[j].rejected && !Returned(run[k])
  {
    InvHolds(values, jobs, operation, run, who, k);
    if j < k {
      RejectionIsFinal(values, jobs, operation, run, who, j, k - 1);
      assert Next(values, operation, run[k - 1], run[k], who[k - 1]);
    }
    assert SomeThrown(run[k]);
  }

  /** One undefined value before a defined one and a single job: the pool returns without having processed the latter. */
  lemma LostValueExample(operation: (nat, int) -> Option<int>) returns (run: seq<State<int>>, who: seq<nat>)
    ensures IsRun([None, Some(7)], 1, operation, run, who)
    ensures Returned(run[|run| - 1]) && 1 !in run[|run| - 1].results
  {
    var start := State(0, [Ready], map[], [], None);
    run, who := [start, start.(next := 1, workers := [Finished])], [0];
    assert start.workers[0 := Finished] == [Finished];
    assert Next([None, Some(7)], operation, run[0], run[1], 0);
  }
}
