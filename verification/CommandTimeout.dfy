/** Termination protocol of a command with a timeout, a grace period and a caller that may abort.

  The asynchronous function is a state machine: its own continuations, the liveness poll, the
  clock and the outside world (process group, output pipes, caller) take steps in any order.
  POSIX, with signalling permitted.
 */
module CommandTimeout {

  const FORCED_EXIT_TIMEOUT_MS: nat := 5000

  datatype Options = Options(timeoutMs: nat, terminationGraceMs: nat)

  datatype Cause = ByTimeout | ByAbort

  datatype Result = Exited | TimedOut | AbortReason | TerminationError | ChildError

  /** Where the function is; a race that has settled waits for its continuation. */
  datatype Phase =
    | Running
    | Interrupted(cause: Cause)
    | Terminating(cause: Cause)
    | GraceOver(cause: Cause)
    | Killing(cause: Cause)
    | Done(result: Result)

  datatype Signal = SigTerm(at: nat) | SigKill(at: nat)

  datatype State = State(
    phase: Phase,
    now: nat,
    deadline: nat,           // of the timer that the current race awaits
    signals: seq<Signal>,    // sent to the process group so far
    groupState: bool,        // the poll has seen the group gone
    canExecute: bool,        // the group really has live members
    closed: bool,            // the child's close event: exited, output pipes at their end
    failed: bool,            // the child's error event
    aborted: bool)           // the caller's abort signal

  datatype Step =
    | Tick
    | GroupEnds | PipesClose | ChildFails | CallerAborts
    | Poll
    | SettleFirst(winner: Winner) | SendTerm
    | SettleTree | GraceTimer | SendKill | ForcedTimer

  datatype Winner = ExitWins | TimeoutWins | AbortWins

  ghost predicate Init(o: Options, s: State) {
    && s.phase == Running && s.deadline == s.now + o.timeoutMs
    && s.signals == [] && !s.groupState && s.canExecute && !s.closed && !s.failed && !s.aborted
  }

  /** The promise that resolves once the group was seen gone and the pipes are closed. */
  predicate TreeClosed(s: State) {
    s.groupState && s.closed && !s.failed
  }

  function Finish(cause: Cause): Result {
    if cause == ByAbort then AbortReason else TimedOut
  }

  ghost predicate Next(o: Options, s: State, t: State, step: Step) {
    match step
    case Tick => t == s.(now := t.now) && t.now > s.now
    case GroupEnds => t == s.(canExecute := false)
    case PipesClose => !s.failed && t == s.(closed := true)
    case ChildFails => !s.closed && t == s.(failed := true)
    case CallerAborts => t == s.(aborted := true)
    case Poll =>
      && (s.phase.Terminating? || s.phase.GraceOver? || s.phase.Killing?)
      && t == s.(groupState := s.groupState || !s.canExecute)
    case SettleFirst(winner) =>
      && s.phase.Running?
      && (match winner
          case ExitWins => (s.closed || s.failed) && t == s.(phase := Done(if s.failed then ChildError else Exited))
          case TimeoutWins => s.now >= s.deadline && t == s.(phase := Interrupted(ByTimeout))
          case AbortWins => s.aborted && t == s.(phase := Interrupted(ByAbort)))
    case SendTerm =>
      && s.phase.Interrupted?
      && t == s.(phase := Terminating(s.phase.cause), signals := s.signals + [SigTerm(s.now)],
                 deadline := s.now + o.terminationGraceMs)
    case SettleTree =>
      && (s.phase.Terminating? || s.phase.Killing?)
      && ((s.failed && s.groupState) || TreeClosed(s))
      && t == s.(phase := Done(if s.failed then ChildError else Finish(s.phase.cause)))
    case GraceTimer =>
      s.phase.Terminating? && s.now >= s.deadline && t == s.(phase := GraceOver(s.phase.cause))
    case SendKill =>
      && s.phase.GraceOver?
      && t == s.(phase := Killing(s.phase.cause),
                 signals := if s.groupState then s.signals else s.signals + [SigKill(s.now)],
                 deadline := s.now + FORCED_EXIT_TIMEOUT_MS)
    case ForcedTimer =>
      s.phase.Killing? && s.now >= s.deadline && t == s.(phase := Done(TerminationError))
  }

  /** A run from the spawn on, with the step taken at each point. */
  ghost predicate IsRun(o: Options, run: seq<State>, steps: seq<Step>) {
    && |run| == |steps| + 1 && Init(o, run[0])
    && forall i | 0 <= i < |steps| :: Next(o, run[i], run[i + 1], steps[i])
  }

  // ----- safety

  /** Signals go out in order, SIGKILL no sooner than a grace period after SIGTERM. */
  ghost predicate Escalates(o: Options, signals: seq<Signal>) {
    || signals == []
    || (|signals| == 1 && signals[0].SigTerm?)
    || (|signals| == 2 && signals[0].SigTerm? && signals[1].SigKill?
        && signals[1].at >= signals[0].at + o.terminationGraceMs)
  }

  ghost predicate Inv(o: Options, started: nat, s: State) {
    && s.now >= started
    && Escalates(o, s.signals)
    && (s.groupState ==> !s.canExecute && s.signals != [])
    && (forall g | g in s.signals :: g.at <= s.now)
    && (s.phase.Running? || s.phase.Interrupted? ==> s.signals == [])
    && (s.phase.Running? ==> s.deadline == started + o.timeoutMs)
    && (s.phase.Terminating? || s.phase.GraceOver? ==> |s.signals| == 1 && s.deadline == s.signals[0].at + o.terminationGraceMs)
    && (s.phase.GraceOver? ==> s.now >= s.deadline)
    && (s.phase.Killing? ==> |s.signals| >= 1
                             && s.deadline >= s.signals[0].at + o.terminationGraceMs + FORCED_EXIT_TIMEOUT_MS
                             && (!s.groupState ==> |s.signals| == 2))
    && (Interruption(s.phase) == [ByTimeout] ==> s.now >= started + o.timeoutMs)
    && (Interruption(s.phase) == [ByAbort] ==> s.aborted)
    && (s.phase.Done? ==>
          match s.phase.result
          case Exited => s.signals == [] && s.closed
          case TimedOut => s.signals != [] && TreeSettled(s) && s.now >= started + o.timeoutMs
          case AbortReason => s.signals != [] && TreeSettled(s) && s.aborted
          case TerminationError => s.signals != []
                                   && s.now >= s.signals[0].at + o.terminationGraceMs + FORCED_EXIT_TIMEOUT_MS
          case ChildError => s.failed)
  }

  /** What ended the first race, if it was not the child. */
  function Interruption(phase: Phase): seq<Cause> {
    match phase
    case Running | Done(_) => []
    case _ => [phase.cause]
  }

  /** The group is gone, was seen gone, and the output pipes are closed. */
  ghost predicate TreeSettled(s: State) {
    s.groupState && !s.canExecute && s.closed
  }

  lemma InvStep(o: Options, started: nat, s: State, t: State, step: Step)
    requires Inv(o, started, s) && Next(o, s, t, step)
    ensures Inv(o, started, t)
  {
    hide Inv, Next;
    if step.Tick? || step.GroupEnds? || step.PipesClose? || step.ChildFails? || step.CallerAborts? || step.Poll? {
      OutsideStep(o, started, s, t, step);
    } else {
      OwnStep(o, started, s, t, step);
    }
  }

  lemma OutsideStep(o: Options, started: nat, s: State, t: State, step: Step)
    requires Inv(o, started, s) && Next(o, s, t, step)
    requires step.Tick? || step.GroupEnds? || step.PipesClose? || step.ChildFails? || step.CallerAborts? || step.Poll?
    ensures Inv(o, started, t)
  {
    hide Escalates;
  }

  lemma OwnStep(o: Options, started: nat, s: State, t: State, step: Step)
    requires Inv(o, started, s) && Next(o, s, t, step)
    requires step.SettleFirst? || step.SendTerm? || step.SettleTree? || step.GraceTimer? || step.SendKill? || step.ForcedTimer?
    ensures Inv(o, started, t)
  {
    hide Inv, Next;
    if step.SendTerm? || step.SendKill? {
      SendStep(o, started, s, t, step);
    } else {
      SettleStep(o, started, s, t, step);
    }
  }

  lemma SendStep(o: Options, started: nat, s: State, t: State, step: Step)
    requires Inv(o, started, s) && Next(o, s, t, step) && (step.SendTerm? || step.SendKill?)
    ensures Inv(o, started, t)
  {
  }

  lemma SettleStep(o: Options, started: nat, s: State, t: State, step: Step)
    requires Inv(o, started, s) && Next(o, s, t, step)
    requires step.SettleFirst? || step.SettleTree? || step.GraceTimer? || step.ForcedTimer?
    ensures Inv(o, started, t)
  {
    hide Escalates;
  }

  lemma {:induction false} InvHolds(o: Options, run: seq<State>, steps: seq<Step>, k: nat)
    requires IsRun(o, run, steps) && k < |run|
    ensures Inv(o, run[0].now, run[k])
  {
    if k > 0 {
      InvHolds(o, run, steps, k - 1);
      InvStep(o, run[0].now, run[k - 1], run[k], steps[k - 1]);
    }
  }

  /** In every interleaving: signals escalate with the grace period between them; a timeout result or
      the abort reason is delivered only after the group is gone and the pipes are closed; every other
      end after a signal is an error; an ordinary exit sends no signal at all. */
  lemma DeliveredOnlyWhenSettled(o: Options, run: seq<State>, steps: seq<Step>, k: nat)
    requires IsRun(o, run, steps) && k < |run|
    ensures Escalates(o, run[k].signals)
    ensures run[k].phase == Done(Exited) ==> run[k].signals == []
    ensures run[k].phase == Done(TimedOut) || run[k].phase == Done(AbortReason) ==> TreeSettled(run[k])
    ensures run[k].phase == Done(TimedOut) ==> run[k].now >= run[0].now + o.timeoutMs
    ensures run[k].phase == Done(AbortReason) ==> run[k].aborted
    ensures run[k].phase == Done(TerminationError) ==>
              run[k].signals != [] && run[k].now >= run[k].signals[0].at + o.terminationGraceMs + FORCED_EXIT_TIMEOUT_MS
  {
    InvHolds(o, run, steps, k);
  }

  /** Once the poll has seen the group gone, or the function has returned, no signal is sent any more. */
  lemma {:induction false} NoSignalAfterGone(o: Options, run: seq<State>, steps: seq<Step>, i: nat, k: nat)
    requires IsRun(o, run, steps) && i <= k < |run|
    requires run[i].groupState || run[i].phase.Done?
    ensures run[k].signals == run[i].signals
    ensures run[i].groupState ==> run[k].groupState
    ensures run[i].phase.Done? ==> run[k].phase == run[i].phase
  {
    if i < k {
      hide Next, Inv;
      NoSignalAfterGone(o, run, steps, i, k - 1);
      InvHolds(o, run, steps, k - 1);
      QuietStep(o, run[0].now, run[k - 1], run[k], steps[k - 1]);
    }
  }

  lemma QuietStep(o: Options, started: nat, s: State, t: State, step: Step)
    requires Inv(o, started, s) && Next(o, s, t, step) && (s.groupState || s.phase.Done?)
    ensures t.signals == s.signals && (s.groupState ==> t.groupState) && (s.phase.Done? ==> t.phase == s.phase)
  {
  }

  /** SIGKILL is sent only to a group not yet seen gone. */
  lemma KillsOnlyTheUnseen(o: Options, run: seq<State>, steps: seq<Step>, k: nat)
    requires IsRun(o, run, steps) && k < |steps|
    requires |run[k + 1].signals| > |run[k].signals| && run[k + 1].signals[|run[k].signals|].SigKill?
    ensures !run[k].groupState && |run[k].signals| == 1 && run[k].now >= run[k].signals[0].at + o.terminationGraceMs
  {
    hide Inv, Next;
    InvHolds(o, run, steps, k);
    KillStep(o, run[0].now, run[k], run[k + 1], steps[k]);
  }

  lemma KillStep(o: Options, started: nat, s: State, t: State, step: Step)
    requires Inv(o, started, s) && Next(o, s, t, step)
    requires |t.signals| > |s.signals| && t.signals[|s.signals|].SigKill?
    ensures !s.groupState && |s.signals| == 1 && s.now >= s.signals[0].at + o.terminationGraceMs
  {
  }

  // ----- bounded waiting

  /** Timers and continuations are punctual: the clock does not pass a pending deadline,
      and it stands still while a continuation is due. */
  ghost predicate Punctual(s: State, t: State, step: Step) {
    step.Tick? ==> t.now <= s.deadline && !s.phase.Interrupted? && !s.phase.GraceOver? && !s.phase.Done?
  }

  ghost predicate Bounded(o: Options, started: nat, s: State) {
    match s.phase
    case Running | Interrupted(_) => s.deadline == started + o.timeoutMs && s.now <= s.deadline
    case Terminating(_) | GraceOver(_) => s.now <= s.deadline <= started + o.timeoutMs + o.terminationGraceMs
    case Killing(_) => s.now <= s.deadline <= started + o.timeoutMs + o.terminationGraceMs + FORCED_EXIT_TIMEOUT_MS
    case Done(_) => s.now <= started + o.timeoutMs + o.terminationGraceMs + FORCED_EXIT_TIMEOUT_MS
  }

  /** With punctual timers the function has returned within timeout, grace period and forced-exit bound,
      whatever the process group, its pipes and the caller do. */
  lemma {:induction false} ReturnsInTime(o: Options, run: seq<State>, steps: seq<Step>, k: nat)
    requires IsRun(o, run, steps) && k < |run|
    requires forall i | 0 <= i < k :: Punctual(run[i], run[i + 1], steps[i])
    ensures Bounded(o, run[0].now, run[k])
  {
    if k > 0 {
      hide Next, Punctual, Bounded;
      ReturnsInTime(o, run, steps, k - 1);
      BoundedStep(o, run[0].now, run[k - 1], run[k], steps[k - 1]);
    }
  }

  lemma BoundedStep(o: Options, started: nat, s: State, t: State, step: Step)
    requires Bounded(o, started, s) && Next(o, s, t, step) && Punctual(s, t, step)
    ensures Bounded(o, started, t)
  {
  }

  /** And it never gets stuck before that: at a deadline the awaited timer can fire. */
  lemma NeverStuck(o: Options, s: State)
    requires !s.phase.Done? && s.now >= s.deadline
    ensures exists t, step :: Next(o, s, t, step) && IsOwn(step) && t.phase != s.phase
  {
    match s.phase
    case Running =>
      assert Next(o, s, s.(phase := Interrupted(ByTimeout)), SettleFirst(TimeoutWins));
    case Interrupted(cause) =>
      assert Next(o, s, AfterTerm(o, s, cause), SendTerm);
    case Terminating(cause) =>
      assert Next(o, s, s.(phase := GraceOver(cause)), GraceTimer);
    case GraceOver(cause) =>
      assert Next(o, s, AfterKill(o, s, cause), SendKill);
    case Killing(cause) =>
      assert Next(o, s, s.(phase := Done(TerminationError)), ForcedTimer);
  }

  // ----- progress

  /** Steps of the function itself and of its poll. */
  predicate IsOwn(step: Step) {
    step.Poll? || step.SettleFirst? || step.SendTerm? || step.SettleTree? || step.GraceTimer? || step.SendKill? || step.ForcedTimer?
  }

  function AfterTerm(o: Options, s: State, cause: Cause): State {
    s.(phase := Terminating(cause), signals := s.signals + [SigTerm(s.now)], deadline := s.now + o.terminationGraceMs)
  }

  function AfterKill(o: Options, s: State, cause: Cause): State {
    s.(phase := Killing(cause), signals := if s.groupState then s.signals else s.signals + [SigKill(s.now)],
       deadline := s.now + 5000)
  }

  /** `t` follows `s` by the function's own steps alone, with the clock and the outside world standing still. */
  ghost predicate Reaches(o: Options, s: State, t: State) {
    exists run, steps :: OwnRun(o, s, t, run, steps)
  }

  ghost predicate OwnRun(o: Options, s: State, t: State, run: seq<State>, steps: seq<Step>) {
    && |run| == |steps| + 1 && run[0] == s && run[|steps|] == t
    && forall i | 0 <= i < |steps| :: IsOwn(steps[i]) && Next(o, run[i], run[i + 1], steps[i])
  }

  lemma ReachesItself(o: Options, s: State)
    ensures Reaches(o, s, s)
  {
    assert OwnRun(o, s, s, [s], []);
  }

  lemma ReachesNext(o: Options, s: State, t: State, u: State, step: Step)
    requires Reaches(o, s, t) && IsOwn(step) && Next(o, t, u, step)
    ensures Reaches(o, s, u)
  {
    hide Next;
    var run, steps :| OwnRun(o, s, t, run, steps);
    assert OwnRun(o, s, u, run + [u], steps + [step]);
  }

  /** The race with the child ends when it does: an ordinary exit, or its error. */
  lemma ExitDelivers(o: Options, s: State)
    requires s.phase.Running? && (s.closed || s.failed)
    ensures Reaches(o, s, s.(phase := Done(if s.failed then ChildError else Exited)))
  {
    ReachesItself(o, s);
    ReachesNext(o, s, s, s.(phase := Done(if s.failed then ChildError else Exited)), SettleFirst(ExitWins));
  }

  /** At the deadline, or once the caller has aborted, SIGTERM goes out at once. */
  lemma Interrupts(o: Options, s: State, cause: Cause)
    requires s.phase.Running? && (if cause == ByAbort then s.aborted else s.now >= s.deadline)
    ensures Reaches(o, s, AfterTerm(o, s, cause))
  {
    var t := s.(phase := Interrupted(cause));
    ReachesItself(o, s);
    ReachesNext(o, s, s, t, SettleFirst(if cause == ByAbort then AbortWins else TimeoutWins));
    ReachesNext(o, s, t, AfterTerm(o, t, cause), SendTerm);
  }

  /** When the grace period is over SIGKILL goes out at once, unless the group was seen gone. */
  lemma Kills(o: Options, s: State)
    requires s.phase.Terminating? && s.now >= s.deadline
    ensures Reaches(o, s, AfterKill(o, s, s.phase.cause))
  {
    var t := s.(phase := GraceOver(s.phase.cause));
    ReachesItself(o, s);
    ReachesNext(o, s, s, t, GraceTimer);
    ReachesNext(o, s, t, AfterKill(o, t, s.phase.cause), SendKill);
  }

  /** Five seconds later the function gives up. */
  lemma GivesUp(o: Options, s: State)
    requires s.phase.Killing? && s.now >= s.deadline
    ensures Reaches(o, s, s.(phase := Done(TerminationError)))
  {
    ReachesItself(o, s);
    ReachesNext(o, s, s, s.(phase := Done(TerminationError)), ForcedTimer);
  }

  /** What a settled termination delivers: the abort reason after an abort, otherwise the timeout result; the child's own
      error comes first. */
  function Delivery(s: State): Result
    requires !s.phase.Done? && !s.phase.Running?
  {
    if s.failed then ChildError else if s.phase.cause == ByAbort then AbortReason else TimedOut
  }

  /** Any time after SIGTERM, grace period over or not: once the group is gone and the pipes are closed (or the child reported
      an error), the result is delivered without a further signal and without waiting. */
  lemma SettledTreeDelivers(o: Options, s: State)
    requires (s.phase.Terminating? || s.phase.GraceOver? || s.phase.Killing?) && !s.canExecute && (s.closed || s.failed)
    ensures exists t :: Reaches(o, s, t) && t.phase == Done(Delivery(s)) && t.signals == s.signals && t.now == s.now
  {
    var cause := s.phase.cause;
    var seen := s.(groupState := true);
    ReachesItself(o, s);
    ReachesNext(o, s, s, seen, Poll);
    var last := seen;
    if s.phase.GraceOver? {
      last := AfterKill(o, seen, cause);
      ReachesNext(o, s, seen, last, SendKill);
    }
    ReachesNext(o, s, last, last.(phase := Done(Delivery(s))), SettleTree);
  }

  /** The outside world may do anything at any time: nothing that is proved rests on its silence. */
  lemma OutsideIsFree(o: Options, s: State)
    ensures Next(o, s, s.(now := s.now + 1), Tick)
    ensures Next(o, s, s.(canExecute := false), GroupEnds) && Next(o, s, s.(aborted := true), CallerAborts)
    ensures !s.failed ==> Next(o, s, s.(closed := true), PipesClose)
    ensures !s.closed ==> Next(o, s, s.(failed := true), ChildFails)
  {
  }

  lemma RunExtends(o: Options, run: seq<State>, steps: seq<Step>, t: State, step: Step) returns (longer: seq<State>, more: seq<Step>)
    requires IsRun(o, run, steps) && Next(o, run[|steps|], t, step)
    ensures IsRun(o, longer, more) && longer[|more|] == t
  {
    hide Next;
    longer, more := run + [t], steps + [step];
  }

  /** So a command that times out and whose group obeys SIGTERM does end in its timeout result, after one signal. */
  lemma TimeoutExample(o: Options) returns (run: seq<State>, steps: seq<Step>)
    ensures IsRun(o, run, steps) && run[|steps|].phase == Done(TimedOut) && |run[|steps|].signals| == 1
  {
    hide IsRun;
    var s := State(Running, 0, o.timeoutMs, [], false, true, false, false, false);
    run, steps := StartRun(o, s);
    var t := AfterTerm(o, s.(now := o.timeoutMs + 1), ByTimeout);
    run, steps := RunExtends(o, run, steps, s.(now := o.timeoutMs + 1), Tick);
    run, steps := RunExtends(o, run, steps, s.(now := o.timeoutMs + 1, phase := Interrupted(ByTimeout)), SettleFirst(TimeoutWins));
    run, steps := RunExtends(o, run, steps, t, SendTerm);
    run, steps := RunExtends(o, run, steps, t.(canExecute := false), GroupEnds);
    run, steps := RunExtends(o, run, steps, t.(canExecute := false, closed := true), PipesClose);
    run, steps := RunExtends(o, run, steps, t.(canExecute := false, closed := true, groupState := true), Poll);
    run, steps := RunExtends(o, run, steps, t.(canExecute := false, closed := true, groupState := true, phase := Done(TimedOut)), SettleTree);
  }

  lemma StartRun(o: Options, s: State) returns (run: seq<State>, steps: seq<Step>)
    requires Init(o, s)
    ensures IsRun(o, run, steps) && |steps| == 0 && run[|steps|] == s
  {
    run, steps := [s], [];
  }
}
