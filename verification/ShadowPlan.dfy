/** The execution plan beside the frozen baseline: the shadow policy runs the union of both. */
module ShadowPlan {
  import opened ObjectMembers
  import opened Optional
  import opened PathText
  import opened LaneScope
  import opened ScopeReport
  import S = ScopePolicy
  import W = WebVerification

  /** What the frozen classifier decided on the whole diff and on the diff without its inert prose, with
      the web policy frozen beside it. */
  datatype Frozen = Frozen(previous: CiPrScope, runtime: CiPrScope, policy: W.Policy)

  datatype ExecutionPolicy = Shadow | Candidate

  datatype Plans = Plans(baselineAvailable: bool, policy: ExecutionPolicy, previous: CiPrScope, previousPolicy: W.Policy,
                         candidate: CiPrScope, execution: CiPrScope, changes: Changes)

  datatype Outcome = Resolved(plans: Plans) | UnknownExecutionPolicy | ScenarioError

  // ----- the union

  function JoinCoverage(a: Coverage, b: Coverage): Coverage {
    if a == CoverageFull || b == CoverageFull then CoverageFull
    else if a == CoverageScoped || b == CoverageScoped then CoverageScoped else CoverageSkip
  }

  function JoinSwitch(a: Switch, b: Switch): Switch {
    if a == Full || b == Full then Full else Skip
  }

  function ExecutionUnion(previous: CiPrScope, candidate: CiPrScope, policy: W.Policy, previousPolicy: W.Policy)
      : W.Result<CiPrScope>
  {
    var frozenRuns := BrowserScenarios(previous, previousPolicy);
    var currentRuns := BrowserScenarios(previous, policy);
    var candidateRuns := BrowserScenarios(candidate, policy);
    if !frozenRuns.Ok? || !currentRuns.Ok? || !candidateRuns.Ok? then W.UnknownGroup
    else
      var coverage := JoinCoverage(previous.coverageMode, candidate.coverageMode);
      var fullBrowser := previous.snapshotMode == SnapshotFull || candidate.snapshotMode == SnapshotFull;
      var scenarios := frozenRuns.value + currentRuns.value + candidateRuns.value;
      var changedGroups := frozenRuns.value != currentRuns.value;
      var exact := !fullBrowser && scenarios != {}
                   && (changedGroups || previous.webScenarios != {} || candidate.webScenarios != {});
      var snapshot := if fullBrowser then SnapshotFull else if scenarios != {} then SnapshotFocused
                      else if previous.snapshotMode == SnapshotScoped || candidate.snapshotMode == SnapshotScoped
                      then SnapshotScoped else SnapshotSkip;
      W.Ok(candidate.(
        reason := if coverage == CoverageFull && candidate.coverageMode != CoverageFull then FullReason else candidate.reason,
        runExpensive := previous.runExpensive || candidate.runExpensive,
        coverageMode := coverage,
        snapshotMode := snapshot,
        webScenarios := if exact then scenarios else {},
        webGroups := if snapshot == SnapshotFocused && !exact then previous.webGroups + candidate.webGroups else {},
        webStrays := if snapshot == SnapshotFocused && !exact then previous.webStrays + candidate.webStrays else {},
        compatMode := JoinSwitch(previous.compatMode, candidate.compatMode),
        windowsMode := JoinSwitch(previous.windowsMode, candidate.windowsMode),
        pythonMode := JoinSwitch(previous.pythonMode, candidate.pythonMode),
        gatewayMode := JoinSwitch(previous.gatewayMode, candidate.gatewayMode),
        adminUiMode := JoinSwitch(previous.adminUiMode, candidate.adminUiMode)))
  }

  /** Groups are named only by a focused selection. */
  ghost predicate ShapedScope(scope: CiPrScope) {
    scope.snapshotMode != SnapshotFocused ==> scope.webGroups == {} && scope.webScenarios == {} && scope.webStrays == {}
  }

  /** Every scenario the selection would run under its own policy still exists, and its groups do. */
  ghost predicate StillExists(previous: CiPrScope, previousPolicy: W.Policy, policy: W.Policy) {
    previous.snapshotMode == SnapshotFocused ==>
      && BrowserScenarios(previous, previousPolicy).Ok?
      && BrowserScenarios(previous, previousPolicy).value <= policy.scenarios.Keys
      && BrowserScenarios(previous, policy).Ok?
  }

  /** `b` is at least `a` in every lane, coverage included (scenarios aside). */
  ghost predicate Dominated(a: CiPrScope, b: CiPrScope) {
    && (a.runExpensive ==> b.runExpensive)
    && CoverageRank(a.coverageMode) <= CoverageRank(b.coverageMode)
    && SnapshotRank(a.snapshotMode) <= SnapshotRank(b.snapshotMode)
    && Below(a.compatMode, b.compatMode) && Below(a.pythonMode, b.pythonMode) && Below(a.windowsMode, b.windowsMode)
    && Below(a.gatewayMode, b.gatewayMode) && Below(a.adminUiMode, b.adminUiMode)
  }

  ghost predicate Unites(e: CiPrScope, previous: CiPrScope, candidate: CiPrScope, policy: W.Policy, previousPolicy: W.Policy) {
    && Dominated(previous, e) && Dominated(candidate, e)
    && BrowserScenarios(e, policy).Ok?
    && ScenariosRun(candidate, policy) <= ScenariosRun(e, policy)
    && ScenariosRun(previous, policy) <= ScenariosRun(e, policy)
    && ScenariosRun(previous, previousPolicy) * policy.scenarios.Keys <= ScenariosRun(e, policy)
  }

  lemma ScenariosExist(scope: CiPrScope, policy: W.Policy)
    requires W.Valid(policy) && W.SmokesRegistered(policy) && BrowserScenarios(scope, policy).Ok?
    ensures BrowserScenarios(scope, policy).value <= policy.scenarios.Keys
    ensures scope.snapshotMode == SnapshotFocused ==>
              W.Smokes(policy) <= BrowserScenarios(scope, policy).value && BrowserScenarios(scope, policy).value != {}
  {
    hide W.WellNamed, W.Found;
    var smoke := policy.smokeScenarios[0];
    assert smoke in W.Smokes(policy) && smoke in policy.scenarios;
    W.SmokesAre(policy);
    if scope.snapshotMode == SnapshotFocused {
      assert smoke in BrowserScenarios(scope, policy).value;
    }
  }

  /** The union dominates both selections and runs every scenario either would run. */
  lemma UnionDominates(previous: CiPrScope, candidate: CiPrScope, policy: W.Policy, previousPolicy: W.Policy)
    requires W.Valid(policy) && W.SmokesRegistered(policy) && ShapedScope(previous) && ShapedScope(candidate)
    requires StillExists(previous, previousPolicy, policy)
    requires BrowserScenarios(candidate, policy).Ok?
    ensures var r := ExecutionUnion(previous, candidate, policy, previousPolicy);
            r.Ok? && Unites(r.value, previous, candidate, policy, previousPolicy)
  {
    hide W.ExactScenarioFiles, W.FocusedScenarioFiles, W.Valid, W.Smokes, W.SmokesRegistered;
    ScenariosExist(previous, policy);
    ScenariosExist(candidate, policy);
    var e := ExecutionUnion(previous, candidate, policy, previousPolicy).value;
    if e.snapshotMode == SnapshotFocused {
      if e.webScenarios != {} {
        ExactUnion(e, policy);
      } else {
        GroupUnion(previous, candidate, policy, e.webGroups);
      }
    }
  }

  lemma ExactUnion(e: CiPrScope, policy: W.Policy)
    requires e.snapshotMode == SnapshotFocused && {} != e.webScenarios <= policy.scenarios.Keys
    ensures BrowserScenarios(e, policy).Ok? && e.webScenarios <= ScenariosRun(e, policy)
  {
  }

  /** The groups of both selections run what each of them runs. */
  lemma GroupUnion(previous: CiPrScope, candidate: CiPrScope, policy: W.Policy, groups: set<string>)
    requires ShapedScope(previous) && ShapedScope(candidate)
    requires previous.webScenarios == {} && candidate.webScenarios == {}
    requires previous.snapshotMode != SnapshotFull && candidate.snapshotMode != SnapshotFull
    requires BrowserScenarios(previous, policy).Ok? && BrowserScenarios(candidate, policy).Ok?
    requires groups == previous.webGroups + candidate.webGroups
    ensures previous.webStrays + candidate.webStrays == {} && W.FocusedScenarioFiles(policy, groups, {}).Ok?
    ensures BrowserScenarios(previous, policy).value <= W.FocusedScenarioFiles(policy, groups, {}).value
    ensures BrowserScenarios(candidate, policy).value <= W.FocusedScenarioFiles(policy, groups, {}).value
  {
  }

  ghost function Max(a: nat, b: nat): nat {
    if a < b then b else a
  }

  ghost predicate Either(e: Switch, a: Switch, b: Switch) {
    e == Full <==> a == Full || b == Full
  }

  /** And it adds nothing of its own: every lane is the higher one of the two selections. */
  lemma UnionIsTight(previous: CiPrScope, candidate: CiPrScope, policy: W.Policy, previousPolicy: W.Policy)
    requires W.Valid(policy) && W.SmokesRegistered(policy) && ShapedScope(previous) && ShapedScope(candidate)
    requires StillExists(previous, previousPolicy, policy)
    requires BrowserScenarios(candidate, policy).Ok?
    ensures var e := ExecutionUnion(previous, candidate, policy, previousPolicy).value;
            && e.runExpensive == (previous.runExpensive || candidate.runExpensive)
            && CoverageRank(e.coverageMode) == Max(CoverageRank(previous.coverageMode), CoverageRank(candidate.coverageMode))
            && SnapshotRank(e.snapshotMode) == Max(SnapshotRank(previous.snapshotMode), SnapshotRank(candidate.snapshotMode))
            && Either(e.compatMode, previous.compatMode, candidate.compatMode)
            && Either(e.windowsMode, previous.windowsMode, candidate.windowsMode)
            && Either(e.pythonMode, previous.pythonMode, candidate.pythonMode)
            && Either(e.gatewayMode, previous.gatewayMode, candidate.gatewayMode)
            && Either(e.adminUiMode, previous.adminUiMode, candidate.adminUiMode)
  {
    hide W.ExactScenarioFiles, W.FocusedScenarioFiles, W.Valid, W.Smokes, W.SmokesRegistered;
    ScenariosExist(previous, policy);
    ScenariosExist(candidate, policy);
  }

  /** Unless it runs the full browser inventory, its scenarios are exactly those that either selection runs. */
  lemma UnionRunsOnlyEither(previous: CiPrScope, candidate: CiPrScope, policy: W.Policy, previousPolicy: W.Policy)
    requires W.Valid(policy) && W.SmokesRegistered(policy) && ShapedScope(previous) && ShapedScope(candidate)
    requires StillExists(previous, previousPolicy, policy)
    requires BrowserScenarios(candidate, policy).Ok?
    ensures var e := ExecutionUnion(previous, candidate, policy, previousPolicy).value;
            e.snapshotMode != SnapshotFull ==>
              ScenariosRun(e, policy) == ScenariosRun(previous, previousPolicy) + ScenariosRun(previous, policy)
                                         + ScenariosRun(candidate, policy)
  {
    hide W.WellNamed;
    ScenariosExist(previous, policy);
    ScenariosExist(candidate, policy);
    var e := ExecutionUnion(previous, candidate, policy, previousPolicy).value;
    if e.snapshotMode == SnapshotFocused && e.webScenarios == {} {
      GroupUnion(previous, candidate, policy, e.webGroups);
      GroupUnionIsTight(previous, candidate, policy, e.webGroups);
    }
  }

  /** The union names groups or exact scenarios, never both, and only when it is focused; it is explained like the candidate,
      unless only the baseline covers in full. */
  lemma UnionShape(previous: CiPrScope, candidate: CiPrScope, policy: W.Policy, previousPolicy: W.Policy)
    requires ExecutionUnion(previous, candidate, policy, previousPolicy).Ok?
    ensures var e := ExecutionUnion(previous, candidate, policy, previousPolicy).value;
            && ShapedScope(e) && ((e.webGroups == {} && e.webStrays == {}) || e.webScenarios == {})
            && e.changedDocsOnly == candidate.changedDocsOnly
            && (e.reason != candidate.reason ==>
                  e.reason == FullReason && previous.coverageMode == CoverageFull && candidate.coverageMode != CoverageFull)
            && (previous.coverageMode == CoverageFull && candidate.coverageMode != CoverageFull ==> e.reason == FullReason)
  {
    hide BrowserScenarios;
  }

  lemma GroupUnionIsTight(previous: CiPrScope, candidate: CiPrScope, policy: W.Policy, groups: set<string>)
    requires ShapedScope(previous) && ShapedScope(candidate)
    requires previous.webScenarios == {} && candidate.webScenarios == {}
    requires previous.snapshotMode == SnapshotFocused || candidate.snapshotMode == SnapshotFocused
    requires previous.snapshotMode != SnapshotFull && candidate.snapshotMode != SnapshotFull
    requires BrowserScenarios(previous, policy).Ok? && BrowserScenarios(candidate, policy).Ok?
    requires groups == previous.webGroups + candidate.webGroups && W.FocusedScenarioFiles(policy, groups, {}).Ok?
    ensures W.FocusedScenarioFiles(policy, groups, {}).value
         == BrowserScenarios(previous, policy).value + BrowserScenarios(candidate, policy).value
  {
  }

  /** A lane that the report lists as removed still runs at its old level; every other runs at the candidate's.
      Removed scenarios still run too, as far as they exist. */
  lemma UnionRestoresRemoved(previous: CiPrScope, candidate: CiPrScope, policy: W.Policy, previousPolicy: W.Policy, c: Changes)
    requires W.Valid(policy) && W.SmokesRegistered(policy) && ShapedScope(previous) && ShapedScope(candidate)
    requires StillExists(previous, previousPolicy, policy)
    requires BrowserScenarios(candidate, policy).Ok?
    requires Accounts(c, previous, candidate, ScenariosRun(previous, previousPolicy), ScenariosRun(candidate, policy))
    ensures var r := ExecutionUnion(previous, candidate, policy, previousPolicy);
            r.Ok? && Restores(r.value, c, previous, candidate, policy)
  {
    hide BrowserScenarios, ScenariosRun, W.Valid, StillExists, ExecutionUnion, Dominated;
    UnionDominates(previous, candidate, policy, previousPolicy);
    UnionIsTight(previous, candidate, policy, previousPolicy);
    var e := ExecutionUnion(previous, candidate, policy, previousPolicy).value;
    forall lane | lane != WebLane
      ensures LevelOf(e, lane) == if Lists(c.removed, lane) then LevelOf(previous, lane) else LevelOf(candidate, lane)
    {
      assert ReportedRightly(c, lane, previous, candidate);
    }
  }

  ghost predicate Restores(e: CiPrScope, c: Changes, previous: CiPrScope, candidate: CiPrScope, policy: W.Policy) {
    && (forall lane | lane != WebLane ::
          LevelOf(e, lane) == if Lists(c.removed, lane) then LevelOf(previous, lane) else LevelOf(candidate, lane))
    && forall x | x in c.removed && x.lane == WebLane :: x.before.Scenarios? && x.before.names * policy.scenarios.Keys <= ScenariosRun(e, policy)
  }

  // ----- the resolver

  /** The frozen classifier knows no exact scenarios. */
  function Baseline(frozen: Frozen): CiPrScope {
    frozen.previous.(webScenarios := {})
  }

  function ProseFree(frozen: Frozen): CiPrScope {
    frozen.runtime.(webScenarios := {})
  }

  /** No scenario or group of a focused baseline has been removed since. */
  predicate BaselineUsable(frozen: Frozen, policy: W.Policy) {
    Baseline(frozen).snapshotMode == SnapshotFocused ==>
      var runs := BrowserScenarios(Baseline(frozen), frozen.policy);
      && runs.Ok? && runs.value <= policy.scenarios.Keys
      && BrowserScenarios(Baseline(frozen), policy).Ok?
  }

  predicate KnownEnvironment(environment: Option<string>) {
    environment.None? || environment.value == "shadow" || environment.value == "candidate"
  }

  /** Nobody checks this: a usable baseline, prose in the diff, and a prose-free baseline selection focused on a group
      that the current policy has retired or never had. */
  predicate RetiredGroupInReport(d: Diff, web: W.Policy, frozen: Option<Frozen>) {
    && frozen.Some? && BaselineUsable(frozen.value, web) && HasProse(d)
    && frozen.value.runtime.snapshotMode == SnapshotFocused
    && (frozen.value.runtime.webStrays != {} || exists g | g in frozen.value.runtime.webGroups :: g !in web.groups)
  }

  /** The selections between which the resolver chooses; the current one may not be executable. */
  ghost predicate Sound(i: Inputs, previous: CiPrScope, previousPolicy: W.Policy, candidate: CiPrScope) {
    && W.Valid(i.repo.web) && ShapedScope(previous) && ShapedScope(candidate)
    && StillExists(previous, previousPolicy, i.repo.web)
    && BrowserScenarios(previous, previousPolicy).Ok? && BrowserScenarios(previous, i.repo.web).Ok?
  }

  lemma FallbackIsSound(i: Inputs, paths: seq<string>)
    requires WellFormed(i)
    ensures var fallback := Selection(i, []);
            Sound(i, fallback, i.repo.web, Selection(i, paths)) && EverythingFull(fallback, i.repo.web)
  {
    hide Selection;
    SelectionShape(i, paths);
    SelectionShape(i, []);
    EmptyDiffIsFull(i);
  }

  lemma BaselineIsSound(i: Inputs, paths: seq<string>, frozen: Frozen)
    requires WellFormed(i) && ShapedScope(Baseline(frozen)) && BaselineUsable(frozen, i.repo.web)
    ensures Sound(i, Baseline(frozen), frozen.policy, Selection(i, paths))
    ensures BrowserScenarios(ProseFree(frozen), i.repo.web).Ok? <==>
            !(frozen.runtime.snapshotMode == SnapshotFocused
              && (frozen.runtime.webStrays != {} || exists g | g in frozen.runtime.webGroups :: g !in i.repo.web.groups))
  {
    hide Selection;
    SelectionShape(i, paths);
  }

  lemma UnionIffExecutable(previous: CiPrScope, candidate: CiPrScope, policy: W.Policy, previousPolicy: W.Policy)
    requires BrowserScenarios(previous, previousPolicy).Ok? && BrowserScenarios(previous, policy).Ok?
    ensures ExecutionUnion(previous, candidate, policy, previousPolicy).Ok? <==> BrowserScenarios(candidate, policy).Ok?
  {
  }

  lemma FullUnion(previous: CiPrScope, candidate: CiPrScope, policy: W.Policy, previousPolicy: W.Policy)
    requires EverythingFull(previous, policy) && ExecutionUnion(previous, candidate, policy, previousPolicy).Ok?
    ensures EverythingFull(ExecutionUnion(previous, candidate, policy, previousPolicy).value, policy)
  {
  }

  /** `frozen` is absent when the historical commit, its digest-pinned inputs or the frozen classifier fail. */
  method ResolveCiPrScopePlans(i: Inputs, paths: seq<string>, environment: Option<string>, frozen: Option<Frozen>)
      returns (r: Outcome)
    requires WellFormed(i)
    requires frozen.Some? ==> ShapedScope(Baseline(frozen.value))
    ensures r == UnknownExecutionPolicy <==> !KnownEnvironment(environment)
    ensures r == ScenarioError <==>
              && KnownEnvironment(environment)
              && (W.StrangeDiff(i.repo, paths) || RetiredGroupInReport(Diff(i.repo.scope, paths), i.repo.web, frozen))
    ensures r.Resolved? ==> Safe(r.plans, i.repo.web, Selection(i, paths), environment, frozen)
    ensures r.Resolved? ==> Compares(r.plans, i, paths, frozen)
    ensures r.Resolved? && r.plans.policy == Shadow && W.SmokesRegistered(i.repo.web) && r.plans.baselineAvailable ==>
              RunsFrozen(r.plans.execution, frozen.value, i.repo.web)
  {
    hide Selection, Accounts, Restores, Dominated, ExecutionUnion, BrowserScenarios, ScenariosRun, WellFormed, W.Valid, HasProse,
         EverythingFull, BaselineUsable, StillExists, Excused, ProseOnlyExpansion, W.StrangeDiff, W.SmokesRegistered, W.Classified;
    var requested := if environment.Some? then environment.value else "shadow";
    if requested != "shadow" && requested != "candidate" { return UnknownExecutionPolicy; }
    var policy := if requested == "shadow" then Shadow else Candidate;
    SelectionShape(i, paths);
    var classified := ClassifyCiPrScope(i, paths);
    if !classified.Ok? { return ScenarioError; }
    var web, candidate, fallback := i.repo.web, classified.value, Selection(i, []);
    var usable := frozen.Some? && BaselineUsable(frozen.value, web);
    var previous := if usable then Baseline(frozen.value) else fallback;
    var runtime := if usable then ProseFree(frozen.value) else fallback;
    var previousPolicy := if usable then frozen.value.policy else web;
    FallbackIsSound(i, paths);
    if usable { BaselineIsSound(i, paths, frozen.value); }
    var execution := candidate;
    if policy == Shadow {
      UnionIffExecutable(previous, candidate, web, previousPolicy);
      var union := ExecutionUnion(previous, candidate, web, previousPolicy);
      if !union.Ok? { return ScenarioError; }
      execution := union.value;
      if !usable { FullUnion(previous, candidate, web, previousPolicy); }
    }
    var changes := ScopeChanges(Diff(i.repo.scope, paths), previous, runtime, candidate, web, previousPolicy);
    if changes.None? { return ScenarioError; }
    if policy == Shadow && W.SmokesRegistered(web) {
      UnionDominates(previous, candidate, web, previousPolicy);
      UnionRestoresRemoved(previous, candidate, web, previousPolicy, changes.value);
    }
    if usable && policy == Shadow && W.SmokesRegistered(web) { FrozenRuns(execution, candidate, frozen.value, web); }
    r := Resolved(Plans(usable, policy, previous, previousPolicy, candidate, execution, changes.value));
  }

  /** The baseline of the plan: the frozen selection, without exact scenarios, under its own policy; when that is unusable, the
      selection of the empty diff under the current one.  The report compares the candidate with it, and explains removals by
      the prose-free selection of the same classifier. */
  ghost predicate Compares(plans: Plans, i: Inputs, paths: seq<string>, frozen: Option<Frozen>) {
    && (plans.baselineAvailable ==> frozen.Some? && plans.previous == frozen.value.previous.(webScenarios := {})
                                    && plans.previousPolicy == frozen.value.policy)
    && (!plans.baselineAvailable ==> EverythingFull(plans.previous, i.repo.web) && plans.previousPolicy == i.repo.web)
    && var runtime := if plans.baselineAvailable then frozen.value.runtime.(webScenarios := {}) else plans.previous;
       var d, candidate := Diff(i.repo.scope, paths), Selection(i, paths);
       && Accounts(plans.changes, plans.previous, candidate,
                   ScenariosRun(plans.previous, plans.previousPolicy), ScenariosRun(candidate, i.repo.web))
       && Excused(plans.changes.removed, d, plans.previous, candidate, ProseOnlyExpansion(d, runtime, candidate, i.repo.web))
  }

  /** `e` runs every lane of the frozen selection and those of its scenarios that still exist. */
  ghost predicate RunsFrozen(e: CiPrScope, frozen: Frozen, web: W.Policy) {
    && Dominated(frozen.previous, e)
    && ScenariosRun(frozen.previous.(webScenarios := {}), frozen.policy) * web.scenarios.Keys <= ScenariosRun(e, web)
  }

  lemma FrozenRuns(e: CiPrScope, candidate: CiPrScope, frozen: Frozen, web: W.Policy)
    requires Unites(e, frozen.previous.(webScenarios := {}), candidate, web, frozen.policy)
    ensures RunsFrozen(e, frozen, web)
  {
    hide ScenariosRun;
  }

  /** A baseline is unusable exactly when it cannot be focused any more: it names a group that its own or the current policy
      lacks, or a scenario of its groups or its policy's smoke scenarios is gone. */
  lemma BaselineUsableIff(frozen: Frozen, web: W.Policy)
    ensures BaselineUsable(frozen, web) <==>
              || frozen.previous.snapshotMode != SnapshotFocused
              || (&& frozen.previous.webStrays == {}
                  && (forall g | g in frozen.previous.webGroups :: g in frozen.policy.groups && g in web.groups)
                  && (forall s | s in frozen.policy.scenarios ::
                        frozen.policy.scenarios[s] in frozen.previous.webGroups || s in frozen.policy.smokeScenarios ==>
                          s in web.scenarios))
  {
  }

  ghost predicate EverythingFull(e: CiPrScope, policy: W.Policy) {
    && e.runExpensive && e.coverageMode == CoverageFull && e.snapshotMode == SnapshotFull
    && BrowserScenarios(e, policy) == W.Ok(policy.scenarios.Keys)
    && e.compatMode == e.pythonMode == e.windowsMode == e.gatewayMode == e.adminUiMode == Full
  }

  /** The candidate policy executes the candidate; the shadow policy a union of both selections, which keeps all that the
      report lists as removed and is everything in full when the baseline is unavailable. */
  ghost predicate Safe(plans: Plans, web: W.Policy, candidate: CiPrScope, environment: Option<string>, frozen: Option<Frozen>) {
    && plans.candidate == candidate
    && (plans.policy == Candidate <==> environment == Some("candidate"))
    && (plans.baselineAvailable <==> frozen.Some? && BaselineUsable(frozen.value, web))
    && (plans.policy == Candidate ==> plans.execution == candidate)
    && (plans.policy == Shadow && W.SmokesRegistered(web) ==>
          && Unites(plans.execution, plans.previous, candidate, web, plans.previousPolicy)
          && Restores(plans.execution, plans.changes, plans.previous, candidate, web))
    && (plans.policy == Shadow && !plans.baselineAvailable ==> EverythingFull(plans.execution, web))
  }

  /** A decision frozen when the group "retired" existed: the whole diff needed the full inventory, which prose
      under a frozen full prefix does, and its one source file alone only that group. */
  const RETIRED_GROUP: Frozen :=
    var everything := CiPrScope(true, FullReason, false, CoverageFull, SnapshotFull, {}, {}, {}, Full, Skip, Full, Skip, Skip);
    Frozen(everything,
           everything.(reason := Scoped, coverageMode := CoverageScoped, snapshotMode := SnapshotFocused, webGroups := {"retired"}),
           W.Policy(["g", "retired"], map["a.e2e.ts" := "retired"], map[], map["fs/a" := W.Groups(["retired"])], ["docs/"], [], ["a.e2e.ts"]))

  lemma FrozenPolicyIsValid()
    ensures W.Valid(RETIRED_GROUP.policy)
  {
    hide W.ScenarioName, W.RelativeFile;
    W.SampleScenario();
    assert RETIRED_GROUP.policy.packages["fs/a"].names == ["retired"];
  }

  /** On that decision, whose policy is one that loads, the resolver throws, whatever the execution policy: the report evaluates the prose-free selection
      against a policy that no longer has its group. */
  lemma RetiredGroupExample()
    ensures ShapedScope(Baseline(RETIRED_GROUP)) && W.Valid(RETIRED_GROUP.policy) && WellFormed(PROSE_INPUT)
    ensures RetiredGroupInReport(Diff(S.CHECKED_IN, ["docs/a.md"] + [S.SAMPLE_SOURCE]), PROSE_INPUT.repo.web, Some(RETIRED_GROUP))
  {
    hide S.IsInertProsePath, WellFormed, W.Valid;
    FrozenPolicyIsValid();
    S.SampleProse();
    ProseInputIsWellFormed();
    assert "docs/a.md" in ["docs/a.md"] + [S.SAMPLE_SOURCE];
    assert "retired" in RETIRED_GROUP.runtime.webGroups && "retired"[0] != "g"[0];
  }

  /** One changed path that spells an inherited object member below the web test tree: the selector throws, and with it the
      resolver, whatever the execution policy and the baseline. */
  lemma InheritedMemberExample()
    ensures WellFormed(PROSE_INPUT)
    ensures !ClassifyCiPrScope(PROSE_INPUT, [CONSTRUCTOR]).Ok? && W.StrangeDiff(PROSE_INPUT.repo, [CONSTRUCTOR])
  {
    hide WellFormed, Selection, W.VerdictOn, W.WebPlan, W.StraysExactly, W.Strange;
    ProseInputIsWellFormed();
    ConstructorIsStray();
    W.StrayAlone(PROSE_INPUT.repo.web, "constructor");
    assert W.Verdicts(PROSE_INPUT.repo, [CONSTRUCTOR]) == {W.Owned(["constructor"])};
  }

  const CONSTRUCTOR: string := W.WEB_TESTS_ROOT + "constructor"

  lemma ConstructorIsStray()
    ensures W.VerdictOn(PROSE_INPUT.repo, CONSTRUCTOR) == W.Owned(["constructor"])
    ensures "constructor" !in PROSE_INPUT.repo.web.scenarios
  {
    hide S.IsInertPath, Split, Inherited;
    ConstructorIsInherited();
    assert CONSTRUCTOR[|W.WEB_TESTS_ROOT|..] == "constructor" && |"constructor"| == 11 && |"a.e2e.ts"| == 8;
    assert CONSTRUCTOR[0] == 'a' && CONSTRUCTOR[|CONSTRUCTOR| - 1] == 'r' && "docs/a.md"[0] == 'd';
    S.ProseEnds(CONSTRUCTOR);
    ConstructorIsNoDependency();
  }

  lemma ConstructorIsNoDependency()
    ensures !S.IsDependencyPath(CONSTRUCTOR)
  {
    hide Split;
    SplitName("constructor");
    SplitAfterSlash("tests", "constructor");
    SplitAfterSlash("web", "tests" + "/" + "constructor");
    SplitAfterSlash("apps", "web" + "/" + ("tests" + "/" + "constructor"));
    assert CONSTRUCTOR == "apps" + "/" + ("web" + "/" + ("tests" + "/" + "constructor"));
    assert LastSegment(CONSTRUCTOR) == "constructor" && "constructor"[0] == 'c';
  }
}
