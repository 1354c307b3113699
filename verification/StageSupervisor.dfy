/** Supervision and shutdown of the long-lived development stages.

  `stop` is a coroutine; stage exits, their callbacks, shutdown requests and the clock interleave with
  it freely.  A stage's exit callback was registered before anything that `stop` waits for on the same
  promise, so a wait for exits ends only after the callbacks of the awaited stages have run.  The entry point adds
  stages only before it stops them, but nothing keeps a stage from joining later: those are called late.
 */
module StageSupervisor {
  import opened Optional

  type Stage = nat

  datatype Signal = SigInt | SigTerm | SigHup | SigKill

  datatype Request = Request(code: int, signal: Option<Signal>)

  /** One signal sent to every live stage at once. */
  datatype Volley = Volley(signal: Signal, to: set<Stage>, at: nat)

  datatype Phase =
    | Serving
    | Escalating(index: nat)      // about to take this step of the escalation
    | Settling(index: nat, awaited: set<Stage>, deadline: nat)
    | AwaitingAll(awaited: set<Stage>)
    | Stopped

  datatype State = State(
    phase: Phase,
    now: nat,
    tracked: set<Stage>,          // every stage ever added
    live: set<Stage>,             // the supervisor's set
    exited: set<Stage>,           // stages whose process has ended
    late: set<Stage>,             // stages added after the stop began
    seen: set<Stage>,             // stages added before the stop last looked at the live set
    stopping: bool,
    requested: Option<Request>,   // the first shutdown request
    stale: seq<Stage>,            // reported exits
    volleys: seq<Volley>,
    stopAt: nat)

  datatype Step =
    | Tick
    | AddStage(stage: Stage) | StageExits(stage: Stage) | ExitCallback(stage: Stage)
    | Ask(request: Request) | BeginStop
    | Escalate | AllExited | GraceOver | KillSurvivors | Finish

  ghost predicate Init(s: State) {
    && s.phase == Serving && s.tracked == {} && s.live == {} && s.exited == {} && s.late == {} && s.seen == {} && !s.stopping
    && s.requested == None && s.stale == [] && s.volleys == []
  }

  /** The first request wins. */
  function RequestShutdown(requested: Option<Request>, request: Request): Option<Request> {
    if requested.Some? then requested else Some(request)
  }

  function Escalation(signal: Option<Signal>): seq<Option<Signal>> {
    if signal != Some(SigTerm) then [signal, Some(SigTerm)] else [signal]
  }

  function Fire(s: State, signal: Signal): seq<Volley> {
    s.volleys + [Volley(signal, s.live, s.now)]
  }

  /** The signal of step `index` of the escalation list, once shutdown was requested. */
  function StepSignal(s: State, index: nat): Option<Signal> {
    if s.requested.Some? && index < |Escalation(s.requested.value.signal)|
    then Escalation(s.requested.value.signal)[index] else None
  }

  function Steps(s: State): nat {
    if s.requested.Some? then |Escalation(s.requested.value.signal)| else 0
  }

  ghost predicate Next(graceMs: nat, s: State, t: State, step: Step) {
    match step
    case Tick => t == s.(now := t.now) && t.now > s.now
    case AddStage(stage) =>
      && stage !in s.tracked
      && t == s.(tracked := s.tracked + {stage}, live := s.live + {stage}, late := if s.stopping then s.late + {stage} else s.late)
    case StageExits(stage) => stage in s.tracked && t == s.(exited := s.exited + {stage})
    case ExitCallback(stage) =>
      && stage in s.live && stage in s.exited
      && t == s.(live := s.live - {stage},
                 stale := if s.stopping then s.stale else s.stale + [stage],
                 requested := if s.stopping then s.requested else RequestShutdown(s.requested, Request(1, Some(SigTerm))))
    case Ask(request) => t == s.(requested := RequestShutdown(s.requested, request))
    case BeginStop =>
      && s.phase.Serving? && s.requested.Some?
      && t == s.(stopping := true, stopAt := s.now, phase := Escalating(0))
    case Escalate =>
      && s.phase.Escalating? && s.phase.index < Steps(s)
      && var signal := StepSignal(s, s.phase.index);
         if s.live == {} then t == s.(phase := Stopped, seen := s.tracked)
         else t == s.(volleys := if signal.Some? then Fire(s, signal.value) else s.volleys, seen := s.tracked,
                      phase := Settling(s.phase.index, s.live, s.now + graceMs))
    case AllExited => s.phase.Settling? && s.phase.awaited !! s.live && t == s.(phase := Escalating(s.phase.index + 1))
    case GraceOver => s.phase.Settling? && s.now >= s.phase.deadline && t == s.(phase := Escalating(s.phase.index + 1))
    case KillSurvivors =>
      && s.phase.Escalating? && s.phase.index == Steps(s)
      && t == s.(volleys := if s.live == {} then s.volleys else Fire(s, SigKill), phase := AwaitingAll(s.live), seen := s.tracked)
    case Finish => s.phase.AwaitingAll? && s.phase.awaited !! s.live && t == s.(phase := Stopped)
  }

  ghost predicate IsRun(graceMs: nat, run: seq<State>, steps: seq<Step>) {
    && |run| == |steps| + 1 && Init(run[0])
    && forall i | 0 <= i < |steps| :: Next(graceMs, run[i], run[i + 1], steps[i])
  }

  // ----- what every step keeps

  /** The requested signal if any, then SIGTERM unless that was it, then SIGKILL. */
  function Expected(signal: Option<Signal>): seq<Signal> {
    match signal
    case None => [SigTerm, SigKill]
    case Some(first) => if first == SigTerm then [SigTerm, SigKill] else [first, SigTerm, SigKill]
  }

  /** How many signals the first `index` steps send. */
  function Fired(signal: Option<Signal>, index: nat): nat {
    if signal.None? && index > 0 then index - 1 else index
  }

  /** A stage that is not late gets a volley only after all the earlier ones, a grace period later; the first waits a
      grace period too when the terminal has already interrupted the stages. */
  ghost predicate Spaced(graceMs: nat, s: State) {
    && (forall i, j | 0 <= i < j < |s.volleys| :: s.volleys[j].to - s.late <= s.volleys[i].to)
    && (forall i, j | 0 <= i < j < |s.volleys| && s.volleys[j].to - s.late != {} :: s.volleys[j].at >= s.volleys[i].at + graceMs)
    && (forall v | v in s.volleys :: v.at <= s.now && v.to <= s.tracked)
    && (s.requested.Some? && s.requested.value.signal.None? ==>
          forall v | v in s.volleys && v.to - s.late != {} :: v.at >= s.stopAt + graceMs)
  }

  /** Survivors that are not late were addressed by every volley so far. */
  ghost predicate Addressed(s: State) {
    forall v | v in s.volleys :: s.live - s.late <= v.to
  }

  /** From `at` on the next volley may be sent. */
  ghost predicate Due(graceMs: nat, s: State, at: nat, index: nat) {
    && (forall v | v in s.volleys :: at >= v.at + graceMs)
    && (index > 0 ==> at >= s.stopAt + graceMs)
  }

  /** Which stages are where. */
  ghost predicate Tracking(s: State) {
    && s.live <= s.tracked && s.exited <= s.tracked && s.tracked - s.live <= s.exited
    && (s.stopping <==> !s.phase.Serving?)
    && (s.stopping ==> s.requested.Some?)
    && s.late <= s.tracked && s.seen <= s.tracked && (!s.stopping ==> s.late == {} && s.seen == {})
    && match s.phase
       case Settling(_, awaited, _) => s.live * s.seen <= awaited && s.tracked - s.late <= s.seen
       case AwaitingAll(awaited) => s.live * s.seen <= awaited && s.tracked - s.late <= s.seen
       case Stopped => s.live * s.seen == {} && s.tracked - s.late <= s.seen
       case _ => true
  }

  /** Which signals were sent, and how many of the expected ones. */
  ghost predicate InOrder(s: State) {
    && (s.volleys != [] ==> s.requested.Some?)
    && (s.requested.Some? ==>
          && |s.volleys| <= |Expected(s.requested.value.signal)|
          && forall i | 0 <= i < |s.volleys| :: s.volleys[i].signal == Expected(s.requested.value.signal)[i])
    && match s.phase
       case Serving => s.volleys == []
       case Escalating(index) => s.requested.Some? && index <= Steps(s) && |s.volleys| == Fired(s.requested.value.signal, index)
       case Settling(index, _, _) => s.requested.Some? && index < Steps(s) && |s.volleys| == Fired(s.requested.value.signal, index + 1)
       case AwaitingAll(awaited) =>
         awaited == {} || (s.volleys != [] && s.volleys[|s.volleys| - 1].signal == SigKill && s.volleys[|s.volleys| - 1].to == awaited)
       case _ => true
  }

  /** When signals were sent, and when the next may be. */
  ghost predicate Timed(graceMs: nat, s: State) {
    && Spaced(graceMs, s) && Addressed(s)
    && (s.stopping ==> s.stopAt <= s.now)
    && match s.phase
       case Serving => s.volleys == []
       case Escalating(index) => s.live <= s.late || Due(graceMs, s, s.now, index)
       case Settling(index, _, deadline) => Due(graceMs, s, deadline, index + 1)
       case _ => true
  }

  ghost predicate Inv(graceMs: nat, s: State) {
    Tracking(s) && InOrder(s) && Timed(graceMs, s)
  }

  lemma TrackingStep(graceMs: nat, s: State, t: State, step: Step)
    requires Tracking(s) && Next(graceMs, s, t, step)
    ensures Tracking(t)
  {
  }

  lemma OrderStep(graceMs: nat, s: State, t: State, step: Step)
    requires Tracking(s) && InOrder(s) && Next(graceMs, s, t, step)
    ensures InOrder(t)
  {
  }

  lemma TimedStep(graceMs: nat, s: State, t: State, step: Step)
    requires Tracking(s) && InOrder(s) && Timed(graceMs, s) && Next(graceMs, s, t, step)
    ensures Timed(graceMs, t)
  {
    hide Tracking;
    match step
    case Escalate => VolleyTiming(graceMs, s, t, step);
    case KillSurvivors => VolleyTiming(graceMs, s, t, step);
    case AddStage(_) => JoiningTiming(graceMs, s, t);
    case AllExited => OnlyLateLeft(s);
    case _ =>
  }

  lemma OnlyLateLeft(s: State)
    requires Tracking(s) && s.phase.Settling? && s.phase.awaited !! s.live
    ensures s.live <= s.late
  {
    forall stage | stage in s.live ensures stage in s.late {
      assert stage in s.late || stage in s.live * s.seen;
    }
  }

  /** Another stage, late if the stop has begun, changes nothing about the others. */
  lemma JoiningTiming(graceMs: nat, s: State, t: State)
    requires Tracking(s) && Timed(graceMs, s)
    requires t == s.(tracked := t.tracked, live := t.live, late := t.late)
    requires s.tracked <= t.tracked && s.late <= t.late && (s.stopping ==> t.live - t.late <= s.live - s.late)
    ensures Timed(graceMs, t)
  {
    forall v | v in s.volleys ensures v.to - t.late <= v.to - s.late {}
    forall stage | stage in t.live && s.stopping && s.live <= s.late ensures stage in t.late {
      assert stage in t.late || stage in t.live - t.late;
    }
  }

  /** The next volley may go out when nobody but late stages is left to get it, or when it is due. */
  ghost predicate MayFire(graceMs: nat, s: State) {
    s.phase.Escalating? && (s.live <= s.late || Due(graceMs, s, s.now, s.phase.index))
  }

  lemma FireKeepsTiming(graceMs: nat, s: State, t: State, signal: Signal)
    requires Tracking(s) && InOrder(s) && Spaced(graceMs, s) && Addressed(s) && MayFire(graceMs, s)
    requires t == s.(volleys := Fire(s, signal), seen := t.seen, phase := t.phase) && s.stopAt <= s.now
    requires s.requested.Some? && s.requested.value.signal.None? ==> s.phase.index > 0
    ensures Spaced(graceMs, t) && Addressed(t)
  {
    var k := |s.volleys|;
    assert forall i | 0 <= i < k :: t.volleys[i] == s.volleys[i] && s.volleys[i] in s.volleys;
    assert t.volleys[k].to - t.late == s.live - s.late;
    assert s.live <= s.late ==> s.live - s.late == {};
    forall v | v in t.volleys ensures v in s.volleys || v == t.volleys[k] {}
  }

  lemma VolleyTiming(graceMs: nat, s: State, t: State, step: Step)
    requires Tracking(s) && InOrder(s) && Timed(graceMs, s) && Next(graceMs, s, t, step)
    requires step.Escalate? || step.KillSurvivors?
    ensures Timed(graceMs, t)
  {
    hide Spaced, Addressed, Due;
    QuietStep(graceMs, s, t);
    if t.volleys != s.volleys {
      FireKeepsTiming(graceMs, s, t, t.volleys[|s.volleys|].signal);
    }
    if t.phase.Settling? { NextIsDue(graceMs, s, t); }
  }

  lemma QuietStep(graceMs: nat, s: State, t: State)
    requires t == s.(phase := t.phase, seen := t.seen, volleys := t.volleys)
    ensures t.volleys == s.volleys ==> Spaced(graceMs, t) == Spaced(graceMs, s) && Addressed(t) == Addressed(s)
  {
  }

  lemma NextIsDue(graceMs: nat, s: State, t: State)
    requires Timed(graceMs, s) && s.stopping && Spaced(graceMs, t) && t.phase.Settling?
    requires t == s.(phase := t.phase, seen := t.seen, volleys := t.volleys) && t.phase.deadline == s.now + graceMs
    ensures Due(graceMs, t, t.phase.deadline, t.phase.index + 1)
  {
  }

  lemma InvStep(graceMs: nat, s: State, t: State, step: Step)
    requires Inv(graceMs, s) && Next(graceMs, s, t, step)
    ensures Inv(graceMs, t)
  {
    TrackingStep(graceMs, s, t, step);
    OrderStep(graceMs, s, t, step);
    TimedStep(graceMs, s, t, step);
  }

  lemma {:induction false} InvHolds(graceMs: nat, run: seq<State>, steps: seq<Step>, k: nat)
    requires IsRun(graceMs, run, steps) && k < |run|
    ensures Inv(graceMs, run[k])
  {
    if k > 0 {
      InvHolds(graceMs, run, steps, k - 1);
      InvStep(graceMs, run[k - 1], run[k], steps[k - 1]);
    }
  }

  // ----- the guarantees, over every interleaving

  /** `stop` returns only when every stage has exited that joined before it last looked at the live set; that is
      every stage ever tracked, unless some joined after the stop began. */
  lemma StopWaitsForAll(graceMs: nat, run: seq<State>, steps: seq<Step>, k: nat)
    requires IsRun(graceMs, run, steps) && k < |run| && run[k].phase.Stopped?
    ensures run[k].seen <= run[k].exited
    ensures run[k].tracked - run[k].late <= run[k].seen
    ensures run[k].late == {} ==> run[k].tracked <= run[k].exited && run[k].live == {}
  {
    InvHolds(graceMs, run, steps, k);
    var s := run[k];
    forall stage | stage in s.seen ensures stage in s.exited {
      assert stage in s.live ==> stage in s.live * s.seen;
    }
    assert s.late == {} ==> s.tracked - s.late == s.tracked;
  }

  /** Signals go out in escalation order, first the requested one, then SIGTERM, then SIGKILL, each to
      survivors of the one before and a grace period after it. */
  lemma SignalsEscalate(graceMs: nat, run: seq<State>, steps: seq<Step>, k: nat)
    requires IsRun(graceMs, run, steps) && k < |run|
    ensures run[k].volleys != [] ==> run[k].requested.Some?
    ensures run[k].volleys != [] ==>
              var expected := Expected(run[k].requested.value.signal);
              |run[k].volleys| <= |expected| && forall i | 0 <= i < |run[k].volleys| :: run[k].volleys[i].signal == expected[i]
    ensures Spaced(graceMs, run[k])
  {
    InvHolds(graceMs, run, steps, k);
  }

  /** The last wait is for the stages that were just sent SIGKILL. */
  lemma LastWaitIsForKilled(graceMs: nat, run: seq<State>, steps: seq<Step>, k: nat)
    requires IsRun(graceMs, run, steps) && k < |run| && run[k].phase.AwaitingAll? && run[k].phase.awaited != {}
    ensures var s := run[k];
            s.volleys != [] && s.volleys[|s.volleys| - 1].signal == SigKill && s.volleys[|s.volleys| - 1].to == s.phase.awaited
  {
    InvHolds(graceMs, run, steps, k);
  }

  /** A stage killed with SIGKILL was sent SIGTERM at least a grace period earlier, unless it is late. */
  lemma KillFollowsTerm(graceMs: nat, run: seq<State>, steps: seq<Step>, k: nat, i: nat, stage: Stage)
    requires IsRun(graceMs, run, steps) && k < |run| && i < |run[k].volleys|
    requires run[k].requested.Some? && run[k].requested.value.signal != Some(SigKill)
    requires run[k].volleys[i].signal == SigKill && stage in run[k].volleys[i].to && stage !in run[k].late
    ensures exists j :: 0 <= j < i && run[k].volleys[j].signal == SigTerm && stage in run[k].volleys[j].to
                        && run[k].volleys[j].at + graceMs <= run[k].volleys[i].at
  {
    InvHolds(graceMs, run, steps, k);
    var s := run[k];
    var expected := Expected(s.requested.value.signal);
    assert i == |expected| - 1;
    assert s.volleys[i - 1].signal == SigTerm;
    assert stage in s.volleys[i].to - s.late;
  }

  lemma GoneStaysGone(graceMs: nat, s: State, t: State, step: Step, stage: Stage)
    requires Next(graceMs, s, t, step) && stage in s.tracked && stage !in s.live
    ensures stage in t.tracked && stage !in t.live
    ensures t.volleys == s.volleys || exists v :: t.volleys == s.volleys + [v] && stage !in v.to
  {
  }

  /** A stage whose exit the supervisor has seen is not signalled any more. */
  lemma {:induction false} NoSignalAfterExit(graceMs: nat, run: seq<State>, steps: seq<Step>, i: nat, k: nat, stage: Stage)
    requires IsRun(graceMs, run, steps) && i <= k < |run|
    requires stage in run[i].tracked && stage !in run[i].live
    ensures stage in run[k].tracked && stage !in run[k].live
    ensures run[i].volleys <= run[k].volleys
    ensures forall j | |run[i].volleys| <= j < |run[k].volleys| :: stage !in run[k].volleys[j].to
  {
    if i < k {
      hide Next;
      NoSignalAfterExit(graceMs, run, steps, i, k - 1, stage);
      assert Next(graceMs, run[k - 1], run[k], steps[k - 1]);
      GoneStaysGone(graceMs, run[k - 1], run[k], steps[k - 1], stage);
    }
  }

  /** After a stop began nothing is reported stale, whoever joins is late, and the first request stands. */
  lemma {:induction false} StopIsFinal(graceMs: nat, run: seq<State>, steps: seq<Step>, i: nat, k: nat)
    requires IsRun(graceMs, run, steps) && i <= k < |run|
    ensures run[i].requested.Some? ==> run[k].requested == run[i].requested
    ensures run[i].stopping ==> run[k].stopping && run[k].stale == run[i].stale
    ensures run[i].stopping ==> run[k].tracked - run[k].late == run[i].tracked - run[i].late
  {
    if i < k {
      StopIsFinal(graceMs, run, steps, i, k - 1);
      InvHolds(graceMs, run, steps, k - 1);
      assert Next(graceMs, run[k - 1], run[k], steps[k - 1]);
    }
  }

  /** Before a stop every exit seen is reported, and requests the shutdown. */
  lemma {:induction false} ExitsAreReported(graceMs: nat, run: seq<State>, steps: seq<Step>, k: nat)
    requires IsRun(graceMs, run, steps) && k < |run| && !run[k].stopping
    ensures forall stage :: stage in run[k].stale <==> stage in run[k].tracked - run[k].live
    ensures run[k].tracked != run[k].live ==> run[k].requested.Some?
  {
    if k > 0 {
      assert Next(graceMs, run[k - 1], run[k], steps[k - 1]);
      InvHolds(graceMs, run, steps, k - 1);
      ExitsAreReported(graceMs, run, steps, k - 1);
    }
  }

  /** An exit that nobody asked for requests the shutdown with code 1 and SIGTERM, unless one was requested before. */
  lemma ExitRequestsShutdown(graceMs: nat, run: seq<State>, steps: seq<Step>, k: nat)
    requires IsRun(graceMs, run, steps) && k < |steps| && steps[k].ExitCallback? && !run[k].stopping
    ensures run[k + 1].stale == run[k].stale + [steps[k].stage]
    ensures run[k + 1].requested == if run[k].requested.Some? then run[k].requested else Some(Request(1, Some(SigTerm)))
  {
    assert Next(graceMs, run[k], run[k + 1], steps[k]);
  }

  /** The outside world may do anything at any time: nothing that is proved rests on its silence. */
  lemma OutsideIsFree(graceMs: nat, s: State, stage: Stage, request: Request)
    ensures Next(graceMs, s, s.(now := s.now + 1), Tick)
    ensures stage in s.tracked ==> Next(graceMs, s, s.(exited := s.exited + {stage}), StageExits(stage))
    ensures stage !in s.tracked ==> exists t :: Next(graceMs, s, t, AddStage(stage)) && stage in t.live
    ensures exists t :: Next(graceMs, s, t, Ask(request)) && t.requested == (if s.requested.Some? then s.requested else Some(request))
  {
    var added := s.(tracked := s.tracked + {stage}, live := s.live + {stage}, late := if s.stopping then s.late + {stage} else s.late);
    assert stage !in s.tracked ==> Next(graceMs, s, added, AddStage(stage));
    var asked := s.(requested := RequestShutdown(s.requested, request));
    assert Next(graceMs, s, asked, Ask(request));
  }

  // ----- progress

  /** Nothing is left to do before a request comes, the clock reaches the deadline or an awaited stage ends. */
  ghost predicate Waits(s: State) {
    match s.phase
    case Serving => s.requested.None?
    case Escalating(_) => false
    case Settling(_, awaited, deadline) => !(awaited !! s.live) && s.now < deadline
    case AwaitingAll(awaited) => !(awaited * s.live <= s.exited)
    case Stopped => true
  }

  predicate IsOwn(step: Step) {
    step.ExitCallback? || step.BeginStop? || step.Escalate? || step.AllExited? || step.GraceOver? || step.KillSurvivors? || step.Finish?
  }

  ghost predicate CanStep(graceMs: nat, s: State) {
    exists t, step :: Next(graceMs, s, t, step) && IsOwn(step)
  }

  /** Whenever it does not wait, the supervisor can go on by itself. */
  lemma NeverStuck(graceMs: nat, s: State)
    requires Inv(graceMs, s) && !Waits(s)
    ensures CanStep(graceMs, s)
  {
    match s.phase
    case Serving =>
      var t := s.(stopping := true, stopAt := s.now, phase := Escalating(0));
      assert Next(graceMs, s, t, BeginStop);
    case Escalating(index) => EscalatingGoesOn(graceMs, s);
    case Settling(index, awaited, deadline) =>
      var t := s.(phase := Escalating(index + 1));
      assert awaited !! s.live ==> Next(graceMs, s, t, AllExited);
      assert s.now >= deadline ==> Next(graceMs, s, t, GraceOver);
    case AwaitingAll(awaited) =>
      var t, step := LastWaitStep(graceMs, s);
    case Stopped =>
  }

  lemma EscalatingGoesOn(graceMs: nat, s: State)
    requires Inv(graceMs, s) && s.phase.Escalating?
    ensures CanStep(graceMs, s)
  {
    var index := s.phase.index;
    var signal := StepSignal(s, index);
    if index == Steps(s) {
      var t := s.(volleys := if s.live == {} then s.volleys else Fire(s, SigKill), phase := AwaitingAll(s.live), seen := s.tracked);
      assert Next(graceMs, s, t, KillSurvivors);
    } else if s.live == {} {
      var t := s.(phase := Stopped, seen := s.tracked);
      assert Next(graceMs, s, t, Escalate);
    } else {
      var t := s.(volleys := if signal.Some? then Fire(s, signal.value) else s.volleys, seen := s.tracked,
                  phase := Settling(index, s.live, s.now + graceMs));
      assert Next(graceMs, s, t, Escalate);
    }
  }

  /** With nobody left alive the stop returns at once, whatever was still to be signalled. */
  lemma StopsWhenNobodyLives(graceMs: nat, s: State)
    requires s.phase.Escalating? && s.phase.index < Steps(s) && s.live == {}
    ensures Next(graceMs, s, s.(phase := Stopped, seen := s.tracked), Escalate)
  {
  }

  /** Once the awaited stages have ended, their callbacks run and then the stop returns. */
  lemma LastWaitStep(graceMs: nat, s: State) returns (t: State, step: Step)
    requires s.phase.AwaitingAll? && s.phase.awaited * s.live <= s.exited
    ensures Next(graceMs, s, t, step) && IsOwn(step) && t.now == s.now && t.exited == s.exited
    ensures t.phase == Stopped || (t.phase == s.phase && t.live < s.live)
  {
    var left := s.phase.awaited * s.live;
    if left == {} {
      forall stage | stage in s.phase.awaited ensures stage !in s.live {
        assert stage !in left;
      }
      t, step := s.(phase := Stopped), Finish;
    } else {
      var stage :| stage in left;
      t := s.(live := s.live - {stage},
              stale := if s.stopping then s.stale else s.stale + [stage],
              requested := if s.stopping then s.requested else RequestShutdown(s.requested, Request(1, Some(SigTerm))));
      step := ExitCallback(stage);
    }
  }

  /** So from the moment when all awaited stages have ended the stop can return without the clock moving. */
  lemma {:induction false} ReturnsOnceExited(graceMs: nat, run: seq<State>, steps: seq<Step>) returns (whole: seq<State>, all: seq<Step>)
    requires IsRun(graceMs, run, steps)
    requires run[|steps|].phase.AwaitingAll? && run[|steps|].phase.awaited * run[|steps|].live <= run[|steps|].exited
    ensures IsRun(graceMs, whole, all) && run <= whole && steps <= all
    ensures whole[|all|].phase.Stopped? && whole[|all|].now == run[|steps|].now
    ensures forall i | |steps| <= i < |all| :: IsOwn(all[i])
    decreases run[|steps|].live
  {
    hide Next;
    assert |run| == |steps| + 1;
    var s := run[|steps|];
    var t, step := LastWaitStep(graceMs, s);
    RunExtends(graceMs, run, steps, t, step);
    whole, all := run + [t], steps + [step];
    if t.phase != Stopped { whole, all := ReturnsOnceExited(graceMs, whole, all); }
  }

  /** Timers and continuations are punctual: the clock moves only while the supervisor waits, and not past a deadline. */
  ghost predicate Punctual(s: State, t: State, step: Step) {
    step.Tick? ==> Waits(s) && (s.phase.Settling? ==> t.now <= s.phase.deadline)
  }

  /** That many grace periods. */
  function Graces(index: nat, graceMs: nat): nat {
    if index == 0 then 0 else Graces(index - 1, graceMs) + graceMs
  }

  ghost predicate InTime(graceMs: nat, s: State) {
    && (forall v | v in s.volleys :: v.at <= s.stopAt + Graces(Steps(s), graceMs))
    && match s.phase
       case Escalating(index) => s.now <= s.stopAt + Graces(index, graceMs)
       case Settling(index, _, deadline) => s.now <= deadline <= s.stopAt + Graces(index + 1, graceMs)
       case _ => true
  }

  lemma {:induction false} GracesGrow(i: nat, j: nat, graceMs: nat)
    requires i <= j
    ensures Graces(i, graceMs) <= Graces(j, graceMs)
  {
    if i < j { GracesGrow(i, j - 1, graceMs); }
  }

  lemma InTimeStep(graceMs: nat, s: State, t: State, step: Step)
    requires Inv(graceMs, s) && InTime(graceMs, s) && Next(graceMs, s, t, step) && Punctual(s, t, step)
    ensures InTime(graceMs, t)
  {
    hide Tracking, Timed, Graces, Expected, Fired;
    if s.phase.Escalating? {
      GracesGrow(s.phase.index, Steps(s), graceMs);
      NextGrace(s.phase.index, graceMs);
    }
    forall v | v in t.volleys ensures v in s.volleys || v.at == s.now {}
  }

  lemma NextGrace(index: nat, graceMs: nat)
    ensures Graces(index + 1, graceMs) == Graces(index, graceMs) + graceMs
  {
  }

  /** With punctual timers every signal, SIGKILL included, is out within one grace period per step of the escalation; after
      that only the last wait is left, or the stop has returned. */
  lemma {:induction false} StopsInTime(graceMs: nat, run: seq<State>, steps: seq<Step>, k: nat)
    requires IsRun(graceMs, run, steps) && k < |run|
    requires forall i | 0 <= i < k :: Punctual(run[i], run[i + 1], steps[i])
    ensures InTime(graceMs, run[k])
    ensures run[k].stopping && run[k].now > run[k].stopAt + Graces(Steps(run[k]), graceMs) ==>
              run[k].phase.AwaitingAll? || run[k].phase.Stopped?
  {
    hide Next, Punctual;
    InvHolds(graceMs, run, steps, k);
    if k > 0 {
      StopsInTime(graceMs, run, steps, k - 1);
      InvHolds(graceMs, run, steps, k - 1);
      InTimeStep(graceMs, run[k - 1], run[k], steps[k - 1]);
    }
    BoundedSteps(graceMs, run[k]);
  }

  lemma BoundedSteps(graceMs: nat, s: State)
    requires Inv(graceMs, s) && InTime(graceMs, s)
    ensures s.stopping && s.now > s.stopAt + Graces(Steps(s), graceMs) ==> s.phase.AwaitingAll? || s.phase.Stopped?
  {
    match s.phase
    case Escalating(index) => GracesGrow(index, Steps(s), graceMs);
    case Settling(index, _, _) => GracesGrow(index + 1, Steps(s), graceMs);
    case _ =>
  }

  // ----- a stage that joins too late

  lemma RunExtends(graceMs: nat, run: seq<State>, steps: seq<Step>, t: State, step: Step)
    requires IsRun(graceMs, run, steps) && Next(graceMs, run[|steps|], t, step)
    ensures IsRun(graceMs, run + [t], steps + [step])
  {
    hide Next;
    var longer, more := run + [t], steps + [step];
    forall i | 0 <= i < |more| ensures Next(graceMs, longer[i], longer[i + 1], more[i]) {
      if i < |steps| {
        assert Next(graceMs, run[i], run[i + 1], steps[i]);
        assert longer[i] == run[i] && longer[i + 1] == run[i + 1] && more[i] == steps[i];
      }
    }
  }

  /** Stage 0 was sent SIGTERM and SIGKILL, and the stop waits for it. */
  const LAST_WAIT := State(AwaitingAll({0}), 0, {0}, {0}, {}, {}, {0}, true, Some(Request(0, Some(SigTerm))), [],
                           [Volley(SigTerm, {0}, 0), Volley(SigKill, {0}, 0)], 0)

  lemma LastWaitIsReached() returns (run: seq<State>, steps: seq<Step>)
    ensures IsRun(0, run, steps) && run[|steps|] == LAST_WAIT
  {
    var s := State(Serving, 0, {}, {}, {}, {}, {}, false, None, [], [], 0);
    run, steps := [s], [];
    s, run, steps := Take(run, steps, s.(tracked := {0}, live := {0}), AddStage(0));
    s, run, steps := Take(run, steps, s.(requested := Some(Request(0, Some(SigTerm)))), Ask(Request(0, Some(SigTerm))));
    s, run, steps := Take(run, steps, s.(stopping := true, phase := Escalating(0)), BeginStop);
    assert 0 in s.live;
    s, run, steps := Take(run, steps, s.(volleys := Fire(s, SigTerm), seen := {0}, phase := Settling(0, {0}, 0)), Escalate);
    s, run, steps := Take(run, steps, s.(phase := Escalating(1)), GraceOver);
    s, run, steps := Take(run, steps, s.(volleys := Fire(s, SigKill), phase := AwaitingAll({0})), KillSurvivors);
  }

  lemma Take(run: seq<State>, steps: seq<Step>, t: State, step: Step) returns (s: State, longer: seq<State>, more: seq<Step>)
    requires IsRun(0, run, steps) && Next(0, run[|steps|], t, step)
    ensures IsRun(0, longer, more) && s == t == longer[|more|]
  {
    RunExtends(0, run, steps, t, step);
    s, longer, more := t, run + [t], steps + [step];
  }

  /** The exception is real: a stage that joins during the last wait is still alive when the stop returns. */
  lemma LateStageExample() returns (run: seq<State>, steps: seq<Step>)
    ensures IsRun(0, run, steps) && run[|steps|].phase.Stopped? && run[|steps|].live == run[|steps|].late == {1}
  {
    run, steps := LastWaitIsReached();
    var s := LAST_WAIT;
    s, run, steps := Take(run, steps, s.(tracked := s.tracked + {1}, live := s.live + {1}, late := s.late + {1}), AddStage(1));
    s, run, steps := Take(run, steps, s.(exited := s.exited + {0}), StageExits(0));
    s, run, steps := Take(run, steps, s.(live := s.live - {0}), ExitCallback(0));
    assert 0 !in s.live && s.live == {1};
    s, run, steps := Take(run, steps, s.(phase := Stopped), Finish);
  }
}
