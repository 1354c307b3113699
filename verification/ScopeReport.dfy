/** The report on how a candidate selection differs from the baseline: added and removed validation. */
module ScopeReport {
  import opened Optional
  import opened LaneScope
  import opened PathText
  import S = ScopePolicy
  import W = WebVerification

  datatype Lane = CoverageLane | WebLane | CompatLane | WindowsLane | PythonLane | GatewayLane | AdminUiLane | RuntimeLane

  datatype Level = AtCoverage(coverage: Coverage) | AtSwitch(switch: Switch) | AtFlag(flag: bool) | Scenarios(names: set<string>)

  datatype Explanation =
    | RuntimeInputPolicy | BrowserInputPolicy | ConsumerInputPolicy
    | AccompanyingInertProse | ExactOwnersAndSmokes | InertConsumerDocumentation | Unexplained

  datatype Change = Change(lane: Lane, before: Level, after: Level, reason: Explanation)

  datatype Changes = Changes(added: seq<Change>, removed: seq<Change>)

  const SWITCHES := [CompatLane, WindowsLane, PythonLane, GatewayLane, AdminUiLane]

  /** What the report compares, besides the two selections. */
  datatype Diff = Diff(policy: S.Policy, paths: seq<string>)

  // ----- levels of the lanes that are no scenario sets

  function SwitchOf(scope: CiPrScope, lane: Lane): Switch {
    match lane
    case CompatLane => scope.compatMode
    case WindowsLane => scope.windowsMode
    case PythonLane => scope.pythonMode
    case GatewayLane => scope.gatewayMode
    case _ => scope.adminUiMode
  }

  function LevelOf(scope: CiPrScope, lane: Lane): Level {
    match lane
    case CoverageLane => AtCoverage(scope.coverageMode)
    case RuntimeLane => AtFlag(scope.runExpensive)
    case _ => AtSwitch(SwitchOf(scope, lane))
  }

  function Height(level: Level): nat {
    match level
    case AtCoverage(c) => CoverageRank(c)
    case AtSwitch(s) => if s == Full then 1 else 0
    case AtFlag(on) => if on then 1 else 0
    case Scenarios(_) => 0
  }

  /** Every lane's level is its own, and the levels are ordered as the lanes run more. */
  lemma LevelsAre(scope: CiPrScope)
    ensures LevelOf(scope, CoverageLane) == AtCoverage(scope.coverageMode) && LevelOf(scope, RuntimeLane) == AtFlag(scope.runExpensive)
    ensures LevelOf(scope, CompatLane) == AtSwitch(scope.compatMode) && LevelOf(scope, WindowsLane) == AtSwitch(scope.windowsMode)
    ensures LevelOf(scope, PythonLane) == AtSwitch(scope.pythonMode) && LevelOf(scope, GatewayLane) == AtSwitch(scope.gatewayMode)
    ensures LevelOf(scope, AdminUiLane) == AtSwitch(scope.adminUiMode)
    ensures Height(AtCoverage(CoverageSkip)) < Height(AtCoverage(CoverageScoped)) < Height(AtCoverage(CoverageFull))
    ensures Height(AtSwitch(Skip)) < Height(AtSwitch(Full)) && Height(AtFlag(false)) < Height(AtFlag(true))
  {
  }

  // ----- explanations

  predicate HasProse(d: Diff) {
    exists p | p in d.paths :: S.IsInertProsePath(d.policy, p)
  }

  /** Prose beside narrow sources explains that full coverage became scoped. */
  predicate ProseExplainsCoverage(d: Diff, previous: CiPrScope, candidate: CiPrScope) {
    && previous.coverageMode == CoverageFull && candidate.coverageMode == CoverageScoped
    && candidate.reason == Scoped && HasProse(d)
    && forall p | p in RuntimeInputPaths(d.policy, d.paths) :: NarrowPath(d.policy, p)
  }

  predicate ClaimedFor(policy: S.Policy, lane: Lane, path: string) {
    if lane == GatewayLane then S.IsGatewayPath(policy, path) else lane == AdminUiLane && S.IsAdminUiPath(policy, path)
  }

  /** Everything the diff holds of a consumer's tree is prose. */
  predicate OnlyProseClaimed(d: Diff, lane: Lane) {
    && (exists p | p in d.paths :: ClaimedFor(d.policy, lane, p))
    && forall p | p in d.paths && ClaimedFor(d.policy, lane, p) :: S.IsInertProsePath(d.policy, p)
  }

  // ----- the report

  /** One more entry, on the list its direction selects, unless the lane is unchanged. */
  function Push(c: Changes, lane: Lane, previous: CiPrScope, candidate: CiPrScope, gain: Explanation, loss: Explanation): Changes {
    var before, after := LevelOf(previous, lane), LevelOf(candidate, lane);
    if before == after then c
    else if Height(after) > Height(before) then c.(added := c.added + [Change(lane, before, after, gain)])
    else c.(removed := c.removed + [Change(lane, before, after, loss)])
  }

  predicate Lists(changes: seq<Change>, lane: Lane) {
    exists c | c in changes :: c.lane == lane
  }

  /** A lane is listed as added exactly when the candidate runs more of it, as removed exactly when it runs less. */
  ghost predicate ReportedRightly(c: Changes, lane: Lane, previous: CiPrScope, candidate: CiPrScope) {
    && (Lists(c.added, lane) <==> Height(LevelOf(previous, lane)) < Height(LevelOf(candidate, lane)))
    && (Lists(c.removed, lane) <==> Height(LevelOf(candidate, lane)) < Height(LevelOf(previous, lane)))
  }

  /** Listed with the levels of both selections. */
  ghost predicate Levelled(changes: seq<Change>, previous: CiPrScope, candidate: CiPrScope) {
    forall c | c in changes && c.lane != WebLane :: c.before == LevelOf(previous, c.lane) && c.after == LevelOf(candidate, c.lane)
  }

  ghost predicate LanesOnce(changes: seq<Change>) {
    forall x, y | 0 <= x < y < |changes| :: changes[x].lane != changes[y].lane
  }

  /** The browser entry of a list, if any, holds these scenarios on one side and nothing on the other. */
  ghost predicate AddsExactly(changes: seq<Change>, names: set<string>) {
    && (Lists(changes, WebLane) <==> names != {})
    && forall c | c in changes && c.lane == WebLane :: c.before == Scenarios({}) && c.after == Scenarios(names)
  }

  ghost predicate RemovesExactly(changes: seq<Change>, names: set<string>) {
    && (Lists(changes, WebLane) <==> names != {})
    && forall c | c in changes && c.lane == WebLane :: c.before == Scenarios(names) && c.after == Scenarios({})
  }

  ghost predicate Shaped(c: Changes, previous: CiPrScope, candidate: CiPrScope) {
    && Levelled(c.added, previous, candidate) && Levelled(c.removed, previous, candidate)
    && LanesOnce(c.added) && LanesOnce(c.removed)
  }

  /** The whole report: every lane in its right list with both levels, the scenarios gained and lost. */
  ghost predicate Accounts(c: Changes, previous: CiPrScope, candidate: CiPrScope, before: set<string>, after: set<string>) {
    && Shaped(c, previous, candidate)
    && (forall lane | lane != WebLane :: ReportedRightly(c, lane, previous, candidate))
    && AddsExactly(c.added, after - before) && RemovesExactly(c.removed, before - after)
  }

  /** A removed lane is explained by prose, or by exact scenario owners; anything else is unexplained. */
  function Excuse(lane: Lane, d: Diff, previous: CiPrScope, candidate: CiPrScope, proseOnly: bool): Explanation {
    match lane
    case CoverageLane => if ProseExplainsCoverage(d, previous, candidate) then AccompanyingInertProse else Unexplained
    case WebLane =>
      if candidate.webScenarios != {} then ExactOwnersAndSmokes else if proseOnly then AccompanyingInertProse else Unexplained
    case RuntimeLane => Unexplained
    case _ => if OnlyProseClaimed(d, lane) then InertConsumerDocumentation else Unexplained
  }

  ghost predicate Excused(changes: seq<Change>, d: Diff, previous: CiPrScope, candidate: CiPrScope, proseOnly: bool) {
    forall c | c in changes :: c.reason == Excuse(c.lane, d, previous, candidate, proseOnly)
  }

  /** Prose is all that separates the baseline's browser scenarios from the candidate's. */
  predicate ProseOnlyExpansion(d: Diff, runtime: CiPrScope, candidate: CiPrScope, policy: W.Policy) {
    HasProse(d) && BrowserScenarios(runtime, policy) == BrowserScenarios(candidate, policy)
  }

  /** When the comparison can be made at all: every selection it looks at names known groups and scenarios.
      The prose-free baseline is looked at only for a diff that holds prose. */
  predicate Comparable(d: Diff, previous: CiPrScope, runtime: CiPrScope, candidate: CiPrScope, policy: W.Policy, previousPolicy: W.Policy) {
    && BrowserScenarios(previous, previousPolicy).Ok? && BrowserScenarios(candidate, policy).Ok?
    && (HasProse(d) ==> BrowserScenarios(runtime, policy).Ok?)
  }

  /** The report so far, complete on the lanes in `done` and silent on the others. */
  ghost predicate Partial(c: Changes, done: set<Lane>, previous: CiPrScope, candidate: CiPrScope, before: set<string>, after: set<string>) {
    && Shaped(c, previous, candidate)
    && (forall x | x in c.added :: x.lane in done) && (forall x | x in c.removed :: x.lane in done)
    && (forall lane | lane in done && lane != WebLane :: ReportedRightly(c, lane, previous, candidate))
    && (WebLane in done ==> AddsExactly(c.added, after - before) && RemovesExactly(c.removed, before - after))
  }

  lemma ListsSnoc(changes: seq<Change>, change: Change)
    ensures forall lane :: Lists(changes + [change], lane) <==> Lists(changes, lane) || change.lane == lane
    ensures forall x :: x in changes + [change] <==> x in changes || x == change
  {
    assert forall x :: x in changes + [change] <==> x in changes || x == change;
    assert change in changes + [change];
  }

  lemma PushKeeps(c: Changes, done: set<Lane>, lane: Lane, gain: Explanation, loss: Explanation,
                  previous: CiPrScope, candidate: CiPrScope, before: set<string>, after: set<string>)
    requires Partial(c, done, previous, candidate, before, after) && lane !in done && lane != WebLane
    ensures Partial(Push(c, lane, previous, candidate, gain, loss), done + {lane}, previous, candidate, before, after)
  {
    hide Height, LevelOf;
    SameHeight(previous, candidate, lane);
    ListsSnoc(c.added, Change(lane, LevelOf(previous, lane), LevelOf(candidate, lane), gain));
    ListsSnoc(c.removed, Change(lane, LevelOf(previous, lane), LevelOf(candidate, lane), loss));
  }

  lemma SameHeight(previous: CiPrScope, candidate: CiPrScope, lane: Lane)
    ensures LevelOf(previous, lane) == LevelOf(candidate, lane) <==>
            Height(LevelOf(previous, lane)) == Height(LevelOf(candidate, lane))
  {
  }

  lemma PushExcuses(c: Changes, lane: Lane, gain: Explanation, d: Diff, previous: CiPrScope, candidate: CiPrScope, proseOnly: bool)
    requires Excused(c.removed, d, previous, candidate, proseOnly)
    ensures Excused(Push(c, lane, previous, candidate, gain, Excuse(lane, d, previous, candidate, proseOnly)).removed,
                    d, previous, candidate, proseOnly)
  {
    hide Excuse, Height, LevelOf;
    ListsSnoc(c.removed, Change(lane, LevelOf(previous, lane), LevelOf(candidate, lane), Excuse(lane, d, previous, candidate, proseOnly)));
  }

  function PushScenarios(c: Changes, gained: set<string>, lost: set<string>, reason: Explanation): Changes {
    Changes(c.added + if gained == {} then [] else [Change(WebLane, Scenarios({}), Scenarios(gained), BrowserInputPolicy)],
            c.removed + if lost == {} then [] else [Change(WebLane, Scenarios(lost), Scenarios({}), reason)])
  }

  lemma ScenariosKeep(c: Changes, done: set<Lane>, reason: Explanation, previous: CiPrScope, candidate: CiPrScope,
                      before: set<string>, after: set<string>)
    requires Partial(c, done, previous, candidate, before, after) && WebLane !in done
    ensures Partial(PushScenarios(c, after - before, before - after, reason), done + {WebLane}, previous, candidate, before, after)
  {
    hide Height, LevelOf;
    ListsSnoc(c.added, Change(WebLane, Scenarios({}), Scenarios(after - before), BrowserInputPolicy));
    ListsSnoc(c.removed, Change(WebLane, Scenarios(before - after), Scenarios({}), reason));
    assert c.added + [] == c.added && c.removed + [] == c.removed;
  }

  lemma StartsEmpty(previous: CiPrScope, candidate: CiPrScope, before: set<string>, after: set<string>)
    ensures Partial(Changes([], []), {}, previous, candidate, before, after)
  {
  }

  ghost function Upto(k: nat): set<Lane>
    requires k <= |SWITCHES|
  {
    {CoverageLane, WebLane} + set j | 0 <= j < k :: SWITCHES[j]
  }

  lemma UptoStart()
    ensures Upto(0) == {} + {CoverageLane} + {WebLane} && RuntimeLane !in Upto(|SWITCHES|)
  {
  }

  lemma UptoNext(k: nat)
    requires k < |SWITCHES|
    ensures SWITCHES[k] !in Upto(k) && Upto(k + 1) == Upto(k) + {SWITCHES[k]}
  {
  }

  lemma AllDone(c: Changes, previous: CiPrScope, candidate: CiPrScope, before: set<string>, after: set<string>)
    requires Partial(c, Upto(|SWITCHES|) + {RuntimeLane}, previous, candidate, before, after)
    ensures Accounts(c, previous, candidate, before, after)
  {
    hide ReportedRightly, Shaped, AddsExactly, RemovesExactly;
    assert SWITCHES[0] == CompatLane && SWITCHES[1] == WindowsLane && SWITCHES[2] == PythonLane
           && SWITCHES[3] == GatewayLane && SWITCHES[4] == AdminUiLane;
  }

  /** None when evaluating a selection's scenarios throws. */
  method ScopeChanges(d: Diff, previous: CiPrScope, runtime: CiPrScope, candidate: CiPrScope, policy: W.Policy, previousPolicy: W.Policy)
      returns (r: Option<Changes>)
    ensures r.Some? <==> Comparable(d, previous, runtime, candidate, policy, previousPolicy)
    ensures r.Some? ==>
              && Accounts(r.value, previous, candidate, ScenariosRun(previous, previousPolicy), ScenariosRun(candidate, policy))
              && Excused(r.value.removed, d, previous, candidate, ProseOnlyExpansion(d, runtime, candidate, policy))
  {
    hide HasProse, ProseExplainsCoverage, OnlyProseClaimed, BrowserScenarios, Partial, Accounts, Upto, Push;
    ghost var before, after := ScenariosRun(previous, previousPolicy), ScenariosRun(candidate, policy);
    ghost var proseOnly := ProseOnlyExpansion(d, runtime, candidate, policy);
    var c, loss := Changes([], []), if ProseExplainsCoverage(d, previous, candidate) then AccompanyingInertProse else Unexplained;
    StartsEmpty(previous, candidate, before, after);
    PushKeeps(c, {}, CoverageLane, RuntimeInputPolicy, loss, previous, candidate, before, after);
    PushExcuses(c, CoverageLane, RuntimeInputPolicy, d, previous, candidate, proseOnly);
    c := Push(c, CoverageLane, previous, candidate, RuntimeInputPolicy, loss);
    var frozen, chosen := BrowserScenarios(previous, previousPolicy), BrowserScenarios(candidate, policy);
    if !frozen.Ok? || !chosen.Ok? { return None; }
    var proseOnlyBrowserExpansion := false;
    if HasProse(d) {
      var proseFree := BrowserScenarios(runtime, policy);
      if !proseFree.Ok? { return None; }
      proseOnlyBrowserExpansion := proseFree.value == chosen.value;
    }
    loss := if candidate.webScenarios != {} then ExactOwnersAndSmokes
            else if proseOnlyBrowserExpansion then AccompanyingInertProse else Unexplained;
    ScenariosKeep(c, {} + {CoverageLane}, loss, previous, candidate, before, after);
    c := PushScenarios(c, chosen.value - frozen.value, frozen.value - chosen.value, loss);
    UptoStart();
    for k := 0 to |SWITCHES|
      invariant Partial(c, Upto(k), previous, candidate, before, after)
      invariant Excused(c.removed, d, previous, candidate, proseOnly)
    {
      var lane := SWITCHES[k];
      UptoNext(k);
      loss := if OnlyProseClaimed(d, lane) then InertConsumerDocumentation else Unexplained;
      PushKeeps(c, Upto(k), lane, ConsumerInputPolicy, loss, previous, candidate, before, after);
      PushExcuses(c, lane, ConsumerInputPolicy, d, previous, candidate, proseOnly);
      c := Push(c, lane, previous, candidate, ConsumerInputPolicy, loss);
    }
    PushKeeps(c, Upto(|SWITCHES|), RuntimeLane, RuntimeInputPolicy, Unexplained, previous, candidate, before, after);
    PushExcuses(c, RuntimeLane, RuntimeInputPolicy, d, previous, candidate, proseOnly);
    c := Push(c, RuntimeLane, previous, candidate, RuntimeInputPolicy, Unexplained);
    AllDone(c, previous, candidate, before, after);
    r := Some(c);
  }

  // ----- what the report tells

  /** Nothing is reported as removed exactly when the candidate runs everything that the baseline runs. */
  lemma NothingRemovedIff(c: Changes, previous: CiPrScope, candidate: CiPrScope, before: set<string>, after: set<string>)
    requires Accounts(c, previous, candidate, before, after)
    ensures c.removed == [] <==>
            && (forall lane | lane != WebLane :: Height(LevelOf(previous, lane)) <= Height(LevelOf(candidate, lane)))
            && before <= after
  {
    hide Height, LevelOf;
    if c.removed != [] {
      var x := c.removed[0];
      assert Lists(c.removed, x.lane);
      assert x.lane != WebLane ==> ReportedRightly(c, x.lane, previous, candidate);
    } else {
      forall lane | lane != WebLane ensures Height(LevelOf(previous, lane)) <= Height(LevelOf(candidate, lane)) {
        assert ReportedRightly(c, lane, previous, candidate);
      }
      assert before - after == {};
      assert forall s | s in before :: s in after || s in before - after;
    }
  }

  /** Applying the report to the baseline gives the candidate: an unlisted lane is unchanged, a listed one has the
      candidate's level, and the scenarios are the baseline's without the lost and with the gained ones. */
  lemma ReportReplays(c: Changes, previous: CiPrScope, candidate: CiPrScope, before: set<string>, after: set<string>, lane: Lane)
    requires Accounts(c, previous, candidate, before, after) && lane != WebLane
    ensures Lists(c.added, lane) || Lists(c.removed, lane) <==> LevelOf(previous, lane) != LevelOf(candidate, lane)
    ensures !(Lists(c.added, lane) && Lists(c.removed, lane))
    ensures forall x | x in c.added + c.removed && x.lane == lane ::
              x.before == LevelOf(previous, lane) && x.after == LevelOf(candidate, lane)
    ensures forall s :: s in after <==> (s in before && !NamedBefore(c.removed, s)) || NamedAfter(c.added, s)
  {
    hide Height, LevelOf;
    assert ReportedRightly(c, lane, previous, candidate);
    SameHeight(previous, candidate, lane);
    forall s ensures (NamedBefore(c.removed, s) <==> s in before - after) && (NamedAfter(c.added, s) <==> s in after - before) {
      if s in before - after {
        var x :| x in c.removed && x.lane == WebLane;
        assert s in x.before.names;
      }
      if s in after - before {
        var y :| y in c.added && y.lane == WebLane;
        assert s in y.after.names;
      }
    }
  }

  ghost predicate NamedBefore(changes: seq<Change>, s: string) {
    exists x | x in changes :: x.lane == WebLane && x.before.Scenarios? && s in x.before.names
  }

  ghost predicate NamedAfter(changes: seq<Change>, s: string) {
    exists x | x in changes :: x.lane == WebLane && x.after.Scenarios? && s in x.after.names
  }

  /** A drop from full to scoped coverage beside prose is always explained by it, and rightly:
      without the prose the candidate would still select scoped coverage. */
  lemma CoverageDropIsExplained(i: Inputs, paths: seq<string>, previous: CiPrScope, proseOnly: bool)
    requires WellFormed(i) && previous.coverageMode == CoverageFull
    ensures var d, candidate := Diff(i.repo.scope, paths), Selection(i, paths);
            && (Excuse(CoverageLane, d, previous, candidate, proseOnly) == AccompanyingInertProse <==>
                  candidate.coverageMode == CoverageScoped && HasProse(d))
            && (candidate.coverageMode == CoverageScoped ==>
                  Selection(i, RuntimeInputPaths(d.policy, paths)).coverageMode == CoverageScoped)
  {
    hide HasProse, NarrowPath, InertOnly, ModelInput, NodeLanesUnreachable, AdminBrowserInput, PythonReachable,
         GatewayReachable, AdminUiReachable, W.WebPlan, WellFormed, Packages, S.IsFullRuntimePath;
    if ScopedDiff(i, paths) {
      ScopedIsReachable(i, paths, paths);
      ProseFreeIsScoped(i, paths);
    }
  }

  /** For any two selections: prose excuses only a drop from full to scoped coverage, of a diff with prose whose other paths are
      all narrow sources. */
  lemma CoverageExcuse(d: Diff, previous: CiPrScope, candidate: CiPrScope, proseOnly: bool)
    ensures Excuse(CoverageLane, d, previous, candidate, proseOnly) == AccompanyingInertProse <==>
              && previous.coverageMode == CoverageFull && candidate.coverageMode == CoverageScoped && candidate.reason == Scoped
              && (exists p | p in d.paths :: S.IsInertProsePath(d.policy, p))
              && forall p | p in d.paths && !S.IsInertProsePath(d.policy, p) ::
                   S.IsScopedPath(p) && S.IsKnownScopedPackagePath(d.policy, p)
  {
    hide S.IsInertProsePath, S.IsScopedPath, S.IsKnownScopedPackagePath;
    assert forall p | p in d.paths :: S.IsInertProsePath(d.policy, p) || p in RuntimeInputPaths(d.policy, d.paths);
  }

  /** Only a dropped Gateway or Admin lane can be excused by prose: when the diff touches its tree with prose and nothing else. */
  lemma ConsumerDropExcuses(d: Diff, previous: CiPrScope, candidate: CiPrScope, proseOnly: bool)
    ensures Excuse(GatewayLane, d, previous, candidate, proseOnly) == InertConsumerDocumentation <==>
              && (exists p | p in d.paths :: !StartsWith(p, d.policy.adminUiPrefix) && StartsWithAny(p, d.policy.gatewayPrefixes))
              && forall p | p in d.paths && !StartsWith(p, d.policy.adminUiPrefix) && StartsWithAny(p, d.policy.gatewayPrefixes) ::
                   S.IsInertProsePath(d.policy, p)
    ensures Excuse(AdminUiLane, d, previous, candidate, proseOnly) == InertConsumerDocumentation <==>
              && (exists p | p in d.paths :: StartsWith(p, d.policy.adminUiPrefix))
              && forall p | p in d.paths && StartsWith(p, d.policy.adminUiPrefix) :: S.IsInertProsePath(d.policy, p)
    ensures forall lane | lane in {CompatLane, WindowsLane, PythonLane, RuntimeLane} ::
              Excuse(lane, d, previous, candidate, proseOnly) == Unexplained
  {
    hide S.IsInertProsePath, StartsWithAny, ProseExplainsCoverage;
  }

  lemma ProseFreeIsScoped(i: Inputs, paths: seq<string>)
    requires WellFormed(i) && ScopedDiff(i, paths)
    ensures var rest := RuntimeInputPaths(i.repo.scope, paths);
            rest != [] && ScopedDiff(i, rest) && !InertOnly(i, rest)
  {
    hide NarrowPath, S.IsFullRuntimePath, S.IsInertProsePath, S.IsModelInputPath, WellFormed, NodeLanesUnreachable, InertOnly;
    var policy := i.repo.scope;
    var rest := RuntimeInputPaths(policy, paths);
    forall p ensures p in RuntimeInputPaths(policy, rest) <==> p in rest {}
    assert Packages(policy, rest) == Packages(policy, paths);
    assert rest == [] ==> Packages(policy, rest) == {};
    ScopedIsReachable(i, rest, rest);
  }
}
