/** The lane selector: a changed path set to the lanes a pull request must run. */
module LaneScope {
  import opened Collections
  import opened ObjectMembers
  import opened PathText
  import S = ScopePolicy
  import C = ConsumerRelations
  import W = WebVerification

  const MAX_SCOPED_PACKAGES := 4

  datatype Coverage = CoverageSkip | CoverageScoped | CoverageFull
  datatype Snapshot = SnapshotSkip | SnapshotScoped | SnapshotFocused | SnapshotFull
  datatype Switch = Skip | Full
  datatype Reason = DocsOnly | Scoped | PythonOnly | ConsumerOnly | FullReason

  datatype CiPrScope = CiPrScope(
    runExpensive: bool,
    reason: Reason,
    changedDocsOnly: bool,
    coverageMode: Coverage,
    snapshotMode: Snapshot,
    webGroups: set<string>,
    webScenarios: set<string>,
    webStrays: set<string>,     // inherited object members among the groups
    compatMode: Switch,
    pythonMode: Switch,
    windowsMode: Switch,
    gatewayMode: Switch,
    adminUiMode: Switch)

  datatype Inputs = Inputs(repo: W.Repo, consumers: C.Policy)

  // ----- facts about a path set

  /** Configuration and generated inputs, without accompanying inert prose. */
  function RuntimeInputPaths(policy: S.Policy, paths: seq<string>): seq<string> {
    Filter(paths, p => !S.IsInertProsePath(policy, p))
  }

  predicate SharedWebInput(web: W.Policy, paths: seq<string>) {
    exists p | p in paths :: p in web.sharedInputs
  }

  predicate ModelInput(policy: S.Policy, paths: seq<string>) {
    exists p | p in paths :: S.IsModelInputPath(policy, p)
  }

  predicate InertOnly(i: Inputs, paths: seq<string>) {
    && !SharedWebInput(i.repo.web, paths) && paths != []
    && forall p | p in paths :: S.IsInertPath(i.repo.scope, p)
  }

  /** The paths that consumer rules see. */
  function ConsumerInputs(policy: S.Policy, paths: seq<string>): seq<string> {
    Filter(paths, p => !S.IsInertPath(policy, p) || S.IsModelInputPath(policy, p))
  }

  function Reasons(i: Inputs, paths: seq<string>, lane: C.Lane): seq<string> {
    C.ReasonsFor(i.consumers, ConsumerInputs(i.repo.scope, paths), lane)
  }

  predicate SomeLiveGatewayPath(policy: S.Policy, paths: seq<string>) {
    exists p | p in paths :: !S.IsInertPath(policy, p) && S.IsGatewayPath(policy, p)
  }

  predicate SomeLiveAdminPath(policy: S.Policy, paths: seq<string>) {
    exists p | p in paths :: !S.IsInertPath(policy, p) && S.IsAdminUiPath(policy, p)
  }

  predicate SomePythonPath(paths: seq<string>) {
    exists p | p in paths :: S.IsPythonPath(p) || S.IsDependencyPath(p)
  }

  predicate GatewayReachable(i: Inputs, paths: seq<string>) {
    || Reasons(i, paths, C.Gateway) != []
    || SomeLiveGatewayPath(i.repo.scope, paths)
  }

  predicate AdminUiReachable(i: Inputs, paths: seq<string>) {
    || Reasons(i, paths, C.AdminUi) != []
    || SomeLiveAdminPath(i.repo.scope, paths)
  }

  predicate PythonReachable(i: Inputs, paths: seq<string>) {
    || Reasons(i, paths, C.Python) != []
    || SomePythonPath(paths)
  }

  predicate AdminBrowserInput(i: Inputs, paths: seq<string>) {
    exists p | p in paths :: S.IsAdminUiPath(i.repo.scope, p) && p in i.repo.web.sharedInputs
  }

  predicate OnlyAdminSharedInputs(i: Inputs, paths: seq<string>) {
    forall p | p in paths :: p !in i.repo.web.sharedInputs || S.IsAdminUiPath(i.repo.scope, p)
  }

  predicate NodeLanesUnreachable(i: Inputs, paths: seq<string>) {
    && !ModelInput(i.repo.scope, paths)
    && (!SharedWebInput(i.repo.web, paths) || OnlyAdminSharedInputs(i, paths))
    && paths != []
    && forall p | p in paths :: S.IsInertPath(i.repo.scope, p) || S.IsPythonPath(p) || S.IsAdminUiPath(i.repo.scope, p)
  }

  function Packages(policy: S.Policy, paths: seq<string>): set<string> {
    set p | p in RuntimeInputPaths(policy, paths) && S.ScopedPackage(p).Some? :: S.ScopedPackage(p).value
  }

  predicate NarrowPath(policy: S.Policy, p: string) {
    S.IsScopedPath(p) && S.IsKnownScopedPackagePath(policy, p)
  }

  predicate ScopedDiff(i: Inputs, paths: seq<string>) {
    var policy := i.repo.scope;
    var runtime := RuntimeInputPaths(policy, paths);
    && !(exists p | p in runtime :: S.IsFullRuntimePath(policy, p))
    && !ModelInput(policy, paths)
    && (forall p | p in runtime :: NarrowPath(policy, p))
    && 0 < |Packages(policy, paths)| <= MAX_SCOPED_PACKAGES
  }

  // ----- the selector

  function SnapshotFromWeb(mode: W.Mode): Snapshot {
    match mode
    case Skip => SnapshotScoped
    case Focused => SnapshotFocused
    case Full => SnapshotFull
  }

  function SwitchIf(on: bool): Switch {
    if on then Full else Skip
  }

  /** What the selector reads off the paths before it branches. */
  datatype Facts = Facts(
    empty: bool, docsOnly: bool, scoped: bool, unreachable: bool, adminBrowserInput: bool, inertOrPython: bool,
    python: bool, gateway: bool, adminUi: bool, web: W.Plan)

  function FactsOf(i: Inputs, paths: seq<string>): Facts {
    Facts(paths == [],
          InertOnly(i, paths) && !ModelInput(i.repo.scope, paths),
          ScopedDiff(i, paths),
          NodeLanesUnreachable(i, paths),
          AdminBrowserInput(i, paths),
          forall p | p in paths :: S.IsInertPath(i.repo.scope, p) || S.IsPythonPath(p),
          PythonReachable(i, paths), GatewayReachable(i, paths), AdminUiReachable(i, paths),
          W.WebPlan(i.repo, paths))
  }

  function Select(f: Facts): CiPrScope {
    var gateway, admin, python := SwitchIf(f.gateway), SwitchIf(f.adminUi), SwitchIf(f.python);
    if f.empty then
      CiPrScope(true, FullReason, false, CoverageFull, SnapshotFull, {}, {}, {}, Full, Full, Full, Full, Full)
    else if f.docsOnly then
      CiPrScope(false, DocsOnly, true, CoverageSkip, SnapshotSkip, {}, {}, {}, Skip, Skip, Skip, gateway, admin)
    else if f.scoped then
      CiPrScope(true, Scoped, false, CoverageScoped, SnapshotFromWeb(f.web.mode), f.web.groups, f.web.scenarios, f.web.strays,
                Full, python, Full, gateway, admin)
    else
      var noBrowser := f.unreachable && !f.adminBrowserInput;
      CiPrScope(!f.unreachable,
                if !f.unreachable then FullReason else if f.inertOrPython then PythonOnly else ConsumerOnly,
                false,
                if f.unreachable then CoverageSkip else CoverageFull,
                if noBrowser then SnapshotSkip else SnapshotFromWeb(f.web.mode),
                if noBrowser then {} else f.web.groups,
                if noBrowser then {} else f.web.scenarios,
                if noBrowser then {} else f.web.strays,
                SwitchIf(!f.unreachable), python, SwitchIf(!f.unreachable), gateway, admin)
  }

  /** The lanes that the selector chooses, when it returns. */
  function Selection(i: Inputs, paths: seq<string>): CiPrScope {
    Select(FactsOf(i, paths))
  }

  /** It throws when the browser tier cannot be classified. */
  function ClassifyCiPrScope(i: Inputs, paths: seq<string>): W.Result<CiPrScope> {
    var web := W.Classified(i.repo, paths);
    if web.Ok? then W.Ok(Selection(i, paths)) else W.UnknownScenario
  }

  // ----- orders on lanes

  function CoverageRank(c: Coverage): nat {
    match c
    case CoverageSkip => 0
    case CoverageScoped => 1
    case CoverageFull => 2
  }

  function SnapshotRank(s: Snapshot): nat {
    match s
    case SnapshotSkip => 0
    case SnapshotScoped => 1
    case SnapshotFocused => 2
    case SnapshotFull => 3
  }

  predicate Below(a: Switch, b: Switch) {
    a == Full ==> b == Full
  }

  /** The browser scenarios that a selection runs under a policy; unknown names are an error. */
  function BrowserScenarios(scope: CiPrScope, policy: W.Policy): W.Result<set<string>> {
    if scope.snapshotMode == SnapshotFull then W.Ok(policy.scenarios.Keys)
    else if scope.snapshotMode != SnapshotFocused then W.Ok({})
    else if scope.webScenarios != {} then W.ExactScenarioFiles(policy, scope.webScenarios)
    else W.FocusedScenarioFiles(policy, scope.webGroups, scope.webStrays)
  }

  ghost function ScenariosRun(scope: CiPrScope, policy: W.Policy): set<string> {
    var r := BrowserScenarios(scope, policy);
    if r.Ok? then r.value else {}
  }

  /** Every lane of `b` but coverage is at least that of `a`. */
  ghost predicate LanesBelow(a: CiPrScope, b: CiPrScope) {
    && (a.runExpensive ==> b.runExpensive)
    && SnapshotRank(a.snapshotMode) <= SnapshotRank(b.snapshotMode)
    && Below(a.compatMode, b.compatMode) && Below(a.pythonMode, b.pythonMode) && Below(a.windowsMode, b.windowsMode)
    && Below(a.gatewayMode, b.gatewayMode) && Below(a.adminUiMode, b.adminUiMode)
  }

  /** No inert tree and no Admin tree overlaps the browser tests. */
  ghost predicate WebTestsApart(policy: S.Policy) {
    && (forall prefix | prefix in policy.inertPrefixes :: Diverge(prefix, W.WEB_TESTS_ROOT))
    && Diverge(policy.adminUiPrefix, W.WEB_TESTS_ROOT)
  }

  ghost predicate WellFormed(i: Inputs) {
    W.Valid(i.repo.web) && S.Separated(i.repo.scope) && WebTestsApart(i.repo.scope)
  }

  // ----- which selections can be executed

  ghost predicate NamesGroups(policy: W.Policy, plan: W.Plan) {
    W.WellShaped(plan) && forall g | g in plan.groups :: g in policy.groups
  }

  /** The selector drops the browser plan. */
  predicate DropsPlan(f: Facts) {
    f.docsOnly || (!f.scoped && f.unreachable && !f.adminBrowserInput)
  }

  /** The plan names known groups, and is kept whenever it cannot be executed. */
  ghost predicate SoundPlan(policy: W.Policy, f: Facts) {
    && NamesGroups(policy, f.web)
    && (f.empty ==> f.web == W.FULL_WEB_VERIFICATION)
    && (!W.Executable(policy, f.web) ==> !DropsPlan(f))
  }

  lemma PlanIsSound(i: Inputs, paths: seq<string>)
    requires WellFormed(i)
    ensures SoundPlan(i.repo.web, FactsOf(i, paths))
    ensures W.Executable(i.repo.web, W.WebPlan(i.repo, paths)) <==> !W.StrangeDiff(i.repo, paths)
  {
    hide InertOnly, ModelInput, NodeLanesUnreachable, AdminBrowserInput, ScopedDiff, PythonReachable, GatewayReachable,
         AdminUiReachable, W.VerdictOn;
    W.VerdictsAreKnown(i.repo, paths);
    W.JoinIsWellShaped(i.repo.web, W.Verdicts(i.repo, paths));
    if W.StrangeDiff(i.repo, paths) {
      var p := W.StrangeIsOwned(i.repo, paths);
      OwnedIsSeen(i, paths, p);
    }
  }

  /** A path that scenarios own keeps the browser plan. */
  lemma OwnedIsSeen(i: Inputs, paths: seq<string>, p: string)
    requires WellFormed(i) && p in paths && W.VerdictOn(i.repo, p).Owned?
    ensures !(InertOnly(i, paths) && !ModelInput(i.repo.scope, paths))
    ensures !(NodeLanesUnreachable(i, paths) && !AdminBrowserInput(i, paths))
  {
    hide W.VerdictOn, S.IsInertPath, S.IsInertProsePath, S.IsModelInputPath, W.Valid, S.Separated;
    if p !in i.repo.web.sharedInputs {
      W.OwnedPaths(i.repo, p);
      WebTestsAreLive(i.repo.scope, p);
    }
  }

  lemma WebTestsAreLive(policy: S.Policy, p: string)
    requires WebTestsApart(policy) && StartsWith(p, W.WEB_TESTS_ROOT) && !S.IsInertProsePath(policy, p)
    ensures !S.IsPythonPath(p) && !S.IsAdminUiPath(policy, p)
    ensures S.IsInertPath(policy, p) ==> S.IsModelInputPath(policy, p)
  {
    assert Diverge("python/", W.WEB_TESTS_ROOT) by { assert "python/"[0] != W.WEB_TESTS_ROOT[0]; }
    if S.IsPythonPath(p) { DivergentPrefixes(p, "python/", W.WEB_TESTS_ROOT); }
    if S.IsAdminUiPath(policy, p) { DivergentPrefixes(p, policy.adminUiPrefix, W.WEB_TESTS_ROOT); }
    if prefix :| prefix in policy.inertPrefixes && StartsWith(p, prefix) {
      DivergentPrefixes(p, prefix, W.WEB_TESTS_ROOT);
    }
  }

  lemma SelectionRuns(policy: W.Policy, f: Facts)
    requires SoundPlan(policy, f)
    ensures BrowserScenarios(Select(f), policy).Ok? <==> W.Executable(policy, f.web)
    ensures ScenariosRun(Select(f), policy) == if Select(f).snapshotMode == SnapshotSkip then {} else W.Runs(policy, f.web)
  {
    hide SwitchIf;
    if f.web.mode == W.Focused && f.web.scenarios == {} && f.web.strays == {} {
      assert W.FocusedScenarioFiles(policy, f.web.groups, {}) == W.Ok(W.InGroups(policy, f.web.groups));
    }
  }

  /** What a focused selection names. */
  ghost predicate Shaped(scope: CiPrScope) {
    && (scope.snapshotMode == SnapshotFocused <==> scope.webGroups != {} || scope.webScenarios != {} || scope.webStrays != {})
    && ((scope.webGroups == {} && scope.webStrays == {}) || scope.webScenarios == {})
  }

  /** Groups or exact scenarios are named exactly for a focused snapshot lane, and never both.  The selector returns and
      its selection can be executed exactly for a diff that is not strange. */
  lemma SelectionShape(i: Inputs, paths: seq<string>)
    requires WellFormed(i)
    ensures Shaped(Selection(i, paths))
    ensures BrowserScenarios(Selection(i, paths), i.repo.web).Ok? <==> !W.StrangeDiff(i.repo, paths)
    ensures !ClassifyCiPrScope(i, paths).Ok? ==> W.StrangeDiff(i.repo, paths)
  {
    hide SoundPlan, Select, BrowserScenarios, InertOnly, ModelInput, ScopedDiff, NodeLanesUnreachable, AdminBrowserInput,
         PythonReachable, GatewayReachable, AdminUiReachable, W.Executable, Shaped;
    PlanIsSound(i, paths);
    ShapeOfSelection(i.repo.web, FactsOf(i, paths));
    SelectionRuns(i.repo.web, FactsOf(i, paths));
  }

  lemma ShapeOfSelection(policy: W.Policy, f: Facts)
    requires SoundPlan(policy, f)
    ensures Shaped(Select(f))
  {
  }

  // ----- growth

  /** How the facts of a non-empty diff and of a larger one are related. */
  ghost predicate Grows(policy: W.Policy, f: Facts, g: Facts) {
    && !f.empty && !g.empty
    && (g.docsOnly ==> f.docsOnly)
    && (g.unreachable ==> f.unreachable)
    && (f.scoped ==> !g.unreachable && !g.docsOnly)
    && (f.adminBrowserInput ==> g.adminBrowserInput && !g.docsOnly)
    && (f.python ==> g.python) && (f.gateway ==> g.gateway) && (f.adminUi ==> g.adminUi)
    && W.Rank(f.web.mode) <= W.Rank(g.web.mode)
    && (W.Executable(policy, g.web) ==> W.Runs(policy, f.web) <= W.Runs(policy, g.web))
    && SoundPlan(policy, f) && SoundPlan(policy, g)
  }

  lemma SwitchesGrow(policy: W.Policy, f: Facts, g: Facts)
    requires Grows(policy, f, g)
    ensures var a, b := Select(f), Select(g);
            && (a.runExpensive ==> b.runExpensive)
            && Below(a.compatMode, b.compatMode) && Below(a.pythonMode, b.pythonMode) && Below(a.windowsMode, b.windowsMode)
            && Below(a.gatewayMode, b.gatewayMode) && Below(a.adminUiMode, b.adminUiMode)
  {
    hide SoundPlan, W.Runs, W.Executable;
  }

  lemma SnapshotGrows(policy: W.Policy, f: Facts, g: Facts)
    requires Grows(policy, f, g)
    ensures SnapshotRank(Select(f).snapshotMode) <= SnapshotRank(Select(g).snapshotMode)
    ensures W.Executable(policy, g.web) ==> ScenariosRun(Select(f), policy) <= ScenariosRun(Select(g), policy)
  {
    hide SoundPlan, ScenariosRun, W.Runs, W.Executable, BrowserScenarios;
    SelectionRuns(policy, f);
    SelectionRuns(policy, g);
    assert Select(f).snapshotMode != SnapshotSkip ==> Select(g).snapshotMode != SnapshotSkip;
  }

  lemma ConsumersGrow(i: Inputs, ps: seq<string>, qs: seq<string>, lane: C.Lane)
    requires C.Within(ps, qs)
    ensures Reasons(i, ps, lane) != [] ==> Reasons(i, qs, lane) != []
  {
    C.ReasonsGrow(i.consumers, ConsumerInputs(i.repo.scope, ps), ConsumerInputs(i.repo.scope, qs), lane);
  }

  lemma ReachGrows(i: Inputs, ps: seq<string>, qs: seq<string>)
    requires C.Within(ps, qs)
    ensures GatewayReachable(i, ps) ==> GatewayReachable(i, qs)
    ensures AdminUiReachable(i, ps) ==> AdminUiReachable(i, qs)
    ensures PythonReachable(i, ps) ==> PythonReachable(i, qs)
  {
    ConsumersGrow(i, ps, qs, C.Gateway);
    ConsumersGrow(i, ps, qs, C.AdminUi);
    ConsumersGrow(i, ps, qs, C.Python);
  }

  lemma UnreachableShrinks(i: Inputs, ps: seq<string>, qs: seq<string>)
    requires C.Within(ps, qs) && ps != []
    ensures NodeLanesUnreachable(i, qs) ==> NodeLanesUnreachable(i, ps)
    ensures AdminBrowserInput(i, ps) ==> AdminBrowserInput(i, qs)
    ensures InertOnly(i, qs) ==> InertOnly(i, ps)
    ensures ModelInput(i.repo.scope, ps) ==> ModelInput(i.repo.scope, qs)
  {
  }

  /** A scoped diff holds a package source, so the Node lanes stay reachable however it grows. */
  lemma ScopedIsReachable(i: Inputs, ps: seq<string>, qs: seq<string>)
    requires WellFormed(i) && C.Within(ps, qs) && ScopedDiff(i, ps)
    ensures !NodeLanesUnreachable(i, qs) && !InertOnly(i, qs)
  {
    var policy := i.repo.scope;
    var name :| name in Packages(policy, ps);
    var p :| p in RuntimeInputPaths(policy, ps) && S.ScopedPackage(p).Some? && S.ScopedPackage(p).value == name;
    S.ScopedPathsAreSource(policy, p);
    assert p in qs;
  }

  lemma FactsGrow(i: Inputs, ps: seq<string>, qs: seq<string>)
    requires WellFormed(i) && C.Within(ps, qs) && ps != []
    ensures Grows(i.repo.web, FactsOf(i, ps), FactsOf(i, qs))
  {
    hide ScopedDiff, NodeLanesUnreachable, PythonReachable, GatewayReachable, AdminUiReachable, SoundPlan, W.WebPlan, W.Runs,
         W.Executable, W.StrangeDiff;
    assert ps[0] in qs;
    ReachGrows(i, ps, qs);
    UnreachableShrinks(i, ps, qs);
    PlanIsSound(i, ps);
    PlanIsSound(i, qs);
    W.PlanIsMonotone(i.repo, ps, qs);
    if ScopedDiff(i, ps) { ScopedIsReachable(i, ps, qs); }
    if AdminBrowserInput(i, ps) { assert SharedWebInput(i.repo.web, qs); }
  }

  /** Growing a non-empty diff never lowers any lane but coverage, and never drops a browser scenario as long as the larger
      selection can be executed. */
  lemma LanesGrow(i: Inputs, ps: seq<string>, qs: seq<string>)
    requires WellFormed(i) && C.Within(ps, qs) && ps != []
    ensures LanesBelow(Selection(i, ps), Selection(i, qs))
    ensures !W.StrangeDiff(i.repo, qs) ==> ScenariosRun(Selection(i, ps), i.repo.web) <= ScenariosRun(Selection(i, qs), i.repo.web)
  {
    hide Select, FactsOf, Grows, W.Executable, W.StrangeDiff, ScenariosRun, WellFormed;
    FactsGrow(i, ps, qs);
    SnapshotGrows(i.repo.web, FactsOf(i, ps), FactsOf(i, qs));
    SwitchesGrow(i.repo.web, FactsOf(i, ps), FactsOf(i, qs));
    PlanIsSound(i, qs);
    FactsPlan(i, qs);
  }

  lemma FactsPlan(i: Inputs, paths: seq<string>)
    ensures FactsOf(i, paths).web == W.WebPlan(i.repo, paths)
  {
  }

  /** All of the diff is inert prose, some of it a shared browser input outside the Admin tree. */
  ghost predicate SharedProseOnly(i: Inputs, paths: seq<string>) {
    && (forall p | p in paths :: S.IsInertProsePath(i.repo.scope, p))
    && exists p | p in paths :: p in i.repo.web.sharedInputs && !S.IsAdminUiPath(i.repo.scope, p)
  }

  lemma PackagesGrow(policy: S.Policy, ps: seq<string>, qs: seq<string>)
    requires C.Within(ps, qs)
    ensures |Packages(policy, ps)| <= |Packages(policy, qs)|
  {
    assert Packages(policy, ps) <= Packages(policy, qs);
    SubsetSize(Packages(policy, ps), Packages(policy, qs));
  }

  /** A diff that is not scoped, inside one that is: nothing but prose is left to explain it. */
  lemma ScopedAround(i: Inputs, ps: seq<string>, qs: seq<string>)
    requires C.Within(ps, qs) && ScopedDiff(i, qs) && !ScopedDiff(i, ps)
    ensures forall p | p in ps :: S.IsInertProsePath(i.repo.scope, p)
  {
    var policy := i.repo.scope;
    assert forall p | p in RuntimeInputPaths(policy, ps) :: p in RuntimeInputPaths(policy, qs);
    forall p | p in ps && !S.IsInertProsePath(policy, p) ensures Packages(policy, ps) != {} {
      NarrowHasPackage(policy, ps, p);
    }
    PackagesGrow(policy, ps, qs);
  }

  lemma NarrowHasPackage(policy: S.Policy, ps: seq<string>, p: string)
    requires p in RuntimeInputPaths(policy, ps) && NarrowPath(policy, p)
    ensures Packages(policy, ps) != {}
  {
    assert S.ScopedPackage(p).value in Packages(policy, ps);
  }

  lemma ReachableProse(i: Inputs, ps: seq<string>)
    requires ps != [] && forall p | p in ps :: S.IsInertProsePath(i.repo.scope, p)
    ensures NodeLanesUnreachable(i, ps) <==> !SharedProseOnly(i, ps)
    ensures !ModelInput(i.repo.scope, ps) && Packages(i.repo.scope, ps) == {}
    ensures SharedProseOnly(i, ps) ==> !InertOnly(i, ps)
  {
  }

  lemma SelectCovers(policy: W.Policy, f: Facts, g: Facts)
    requires Grows(policy, f, g) && (g.scoped && !f.scoped ==> f.unreachable)
    ensures CoverageRank(Select(f).coverageMode) <= CoverageRank(Select(g).coverageMode)
  {
  }

  /** Coverage does not drop either, unless the smaller diff is shared prose alone. */
  lemma CoverageGrows(i: Inputs, ps: seq<string>, qs: seq<string>)
    requires WellFormed(i) && C.Within(ps, qs) && ps != [] && !SharedProseOnly(i, ps)
    ensures CoverageRank(Selection(i, ps).coverageMode) <= CoverageRank(Selection(i, qs).coverageMode)
  {
    hide ScopedDiff, NodeLanesUnreachable, Select, Grows, PythonReachable, GatewayReachable, AdminUiReachable, W.WebPlan;
    FactsGrow(i, ps, qs);
    if ScopedDiff(i, qs) && !ScopedDiff(i, ps) {
      ScopedAround(i, ps, qs);
      ReachableProse(i, ps);
    }
    SelectCovers(i.repo.web, FactsOf(i, ps), FactsOf(i, qs));
  }

  predicate NarrowSource(policy: S.Policy, source: string) {
    NarrowPath(policy, source) && !S.IsFullRuntimePath(policy, source) && !S.IsModelInputPath(policy, source)
  }

  lemma ProseBesideSource(i: Inputs, ps: seq<string>, source: string)
    requires WellFormed(i) && NarrowSource(i.repo.scope, source)
    requires forall p | p in ps :: S.IsInertProsePath(i.repo.scope, p)
    ensures ScopedDiff(i, ps + [source]) && !InertOnly(i, ps + [source])
  {
    var policy, qs := i.repo.scope, ps + [source];
    S.ScopedPathsAreSource(policy, source);
    assert source in qs;
    forall p ensures p in RuntimeInputPaths(policy, qs) <==> p == source {}
    assert Packages(policy, qs) == {S.ScopedPackage(source).value};
  }

  /** The exception is real: shared prose alone selects full coverage, and adding any narrow
      source path lowers it to scoped. */
  lemma CoverageDrops(i: Inputs, ps: seq<string>, source: string)
    requires WellFormed(i) && SharedProseOnly(i, ps) && NarrowSource(i.repo.scope, source)
    ensures ClassifyCiPrScope(i, ps).Ok? && ClassifyCiPrScope(i, ps + [source]).Ok?
    ensures Selection(i, ps).coverageMode == CoverageFull
    ensures Selection(i, ps + [source]).coverageMode == CoverageScoped
  {
    ProseAndSourceReturn(i, ps, source);
    hide NarrowSource, InertOnly, ModelInput, NodeLanesUnreachable, AdminBrowserInput, PythonReachable, GatewayReachable,
         AdminUiReachable, W.WebPlan, WellFormed;
    assert ps != [];
    ReachableProse(i, ps);
    ProseBesideSource(i, ps, source);
  }

  lemma ProseAndSourceReturn(i: Inputs, ps: seq<string>, source: string)
    requires WellFormed(i) && NarrowSource(i.repo.scope, source)
    requires forall p | p in ps :: S.IsInertProsePath(i.repo.scope, p)
    ensures ClassifyCiPrScope(i, ps).Ok? && ClassifyCiPrScope(i, ps + [source]).Ok?
  {
    hide W.VerdictOn, W.WebPlan, Selection, W.StrayPath, W.Valid, S.Separated, WebTestsApart, S.IsInertProsePath;
    forall p | p in ps + [source] ensures !W.StrayPath(i.repo, p) {
      if p in ps {
        if W.StrayPath(i.repo, p) { W.StrayIsNotProse(i.repo, p); }
      } else {
        SourceIsNotStray(i.repo, source);
      }
    }
    assert forall p | p in ps :: p in ps + [source];
    W.NoStrayNoThrow(i.repo, ps);
    W.NoStrayNoThrow(i.repo, ps + [source]);
  }

  lemma SourceIsNotStray(repo: W.Repo, source: string)
    requires NarrowSource(repo.scope, source)
    ensures !W.StrayPath(repo, source)
  {
    S.FirstSegment(source, "packages");
    assert "packages" + "/" == "packages/" && "packages/"[0] != W.WEB_TESTS_ROOT[0];
  }

  /** Some larger diff covers less. */
  ghost predicate CoverageCanDrop(i: Inputs, ps: seq<string>) {
    exists qs :: C.Within(ps, qs) && ClassifyCiPrScope(i, qs).Ok? && Covers(i, qs) < Covers(i, ps)
  }

  ghost function Covers(i: Inputs, paths: seq<string>): nat {
    CoverageRank(Selection(i, paths).coverageMode)
  }

  /** Coverage can drop for exactly one kind of non-empty diff (any policy that has a narrow source path). */
  lemma CoverageCanDropIff(i: Inputs, ps: seq<string>, source: string)
    requires WellFormed(i) && ps != [] && NarrowSource(i.repo.scope, source)
    ensures CoverageCanDrop(i, ps) <==> SharedProseOnly(i, ps)
  {
    hide FactsOf, ClassifyCiPrScope;
    if SharedProseOnly(i, ps) {
      CoverageDrops(i, ps, source);
      assert C.Within(ps, ps + [source]) && Covers(i, ps + [source]) < Covers(i, ps);
    } else if CoverageCanDrop(i, ps) {
      var qs :| C.Within(ps, qs) && ClassifyCiPrScope(i, qs).Ok? && Covers(i, qs) < Covers(i, ps);
      CoverageGrows(i, ps, qs);
    }
  }

  /** The checked-in policy has such a path. */
  lemma CheckedInHasNarrowSource()
    ensures NarrowSource(S.CHECKED_IN, S.SAMPLE_SOURCE) && S.Separated(S.CHECKED_IN)
  {
    S.SampleIsNarrow();
    S.SampleIsOrdinary();
    S.CheckedInIsSeparated();
  }

  /** A one-scenario web policy under which docs/a.md is a shared browser input. */
  const PROSE_INPUT: Inputs :=
    Inputs(W.Repo(S.CHECKED_IN,
                  W.Policy(["g"], map["a.e2e.ts" := "g"], map["docs/a.md" := ["a.e2e.ts"]], map[], [], [], ["a.e2e.ts"]), {}, map[]),
           C.Policy([], []))

  lemma CheckedInKeepsWebTestsApart()
    ensures WebTestsApart(S.CHECKED_IN)
  {
    var root := W.WEB_TESTS_ROOT;
    assert ".agents/"[0] != root[0] && "docs/"[0] != root[0] && "engineering/"[0] != root[0];
    assert "upgrades/"[0] != root[0] && "website/"[0] != root[0] && "gateway/admin-ui/"[0] != root[0];
  }

  lemma ProseInputIsWellFormed()
    ensures WellFormed(PROSE_INPUT)
  {
    hide W.ScenarioName, W.RelativeFile, S.Separated, WebTestsApart, Inherited;
    S.CheckedInIsSeparated();
    CheckedInKeepsWebTestsApart();
    W.SampleScenario();
    W.SampleInput();
    assert PROSE_INPUT.repo.web.sharedInputs["docs/a.md"] == ["a.e2e.ts"];
  }

  /** A concrete drop: docs/a.md alone is covered in full, docs/a.md with one source file only scoped. */
  lemma CoverageDropsExample()
    ensures Selection(PROSE_INPUT, ["docs/a.md"]).coverageMode == CoverageFull
    ensures Selection(PROSE_INPUT, ["docs/a.md"] + [S.SAMPLE_SOURCE]).coverageMode == CoverageScoped
  {
    hide Selection, WellFormed, NarrowSource, S.Separated, S.IsInertProsePath, S.IsAdminUiPath;
    S.SampleProse();
    ProseInputIsWellFormed();
    CheckedInHasNarrowSource();
    assert "docs/a.md" in ["docs/a.md"];
    CoverageDrops(PROSE_INPUT, ["docs/a.md"], S.SAMPLE_SOURCE);
  }

  // ----- fail-safe selection

  /** Outside the Node lanes' input domain: documentation, the Python SDK, the Admin application. */
  predicate Outside(policy: S.Policy, p: string) {
    S.IsInertPath(policy, p) || S.IsPythonPath(p) || S.IsAdminUiPath(policy, p)
  }

  /** A lane is skipped only when every changed path is provably outside its input domain. */
  lemma SkippedOnlyOutside(i: Inputs, paths: seq<string>)
    ensures var scope, policy := Selection(i, paths), i.repo.scope;
            && (!scope.runExpensive || scope.coverageMode == CoverageSkip || scope.compatMode == Skip
                || scope.windowsMode == Skip || scope.snapshotMode == SnapshotSkip ==>
                  paths != [] && !ModelInput(policy, paths) && forall p | p in paths :: Outside(policy, p))
            && (scope.pythonMode == Skip ==>
                  && paths != []
                  && (((forall p | p in paths :: S.IsInertPath(policy, p)) && !ModelInput(policy, paths))
                      || (!SomePythonPath(paths) && Reasons(i, paths, C.Python) == [])))
            && (scope.gatewayMode == Skip ==>
                  paths != [] && !SomeLiveGatewayPath(policy, paths) && Reasons(i, paths, C.Gateway) == [])
            && (scope.adminUiMode == Skip ==>
                  paths != [] && !SomeLiveAdminPath(policy, paths) && Reasons(i, paths, C.AdminUi) == [])
  {
    hide ScopedDiff, W.WebPlan, Reasons, ModelInput, SomePythonPath, SomeLiveGatewayPath, SomeLiveAdminPath,
         S.IsInertPath, S.IsPythonPath, S.IsAdminUiPath;
  }

  /** The path can reach the Node lanes: it is a model input, a browser input shared outside the Admin tree, or neither
      documentation nor part of the Python SDK or the Admin application. */
  predicate ReachesNode(i: Inputs, p: string) {
    || S.IsModelInputPath(i.repo.scope, p)
    || (p in i.repo.web.sharedInputs && !S.IsAdminUiPath(i.repo.scope, p))
    || (!S.IsInertPath(i.repo.scope, p) && !StartsWith(p, "python/") && !S.IsAdminUiPath(i.repo.scope, p))
  }

  /** The runtime lanes stand or fall together: they run exactly when the diff is empty or some path can reach them. */
  lemma RuntimeLanesIff(i: Inputs, paths: seq<string>)
    requires WellFormed(i)
    ensures var scope, reachable := Selection(i, paths), paths == [] || exists p | p in paths :: ReachesNode(i, p);
            && (scope.runExpensive <==> reachable) && (scope.coverageMode != CoverageSkip <==> reachable)
            && (scope.compatMode == Full <==> reachable) && (scope.windowsMode == Full <==> reachable)
  {
    hide W.WebPlan, PythonReachable, GatewayReachable, AdminUiReachable, ModelInput, AdminBrowserInput, ScopedDiff, SharedWebInput,
         S.IsInertPath, S.IsModelInputPath, S.IsAdminUiPath, WellFormed, OnlyAdminSharedInputs, ReachesNode, NodeLanesUnreachable;
    UnreachableIff(i, paths);
    if ScopedDiff(i, paths) { ScopedIsReachable(i, paths, paths); }
    DocsAreUnreachable(i, paths);
  }

  lemma UnreachableIff(i: Inputs, paths: seq<string>)
    ensures NodeLanesUnreachable(i, paths) <==> paths != [] && forall p | p in paths :: !ReachesNode(i, p)
  {
    hide S.IsInertPath, S.IsModelInputPath, S.IsAdminUiPath;
  }

  lemma DocsAreUnreachable(i: Inputs, paths: seq<string>)
    ensures InertOnly(i, paths) && !ModelInput(i.repo.scope, paths) ==> NodeLanesUnreachable(i, paths)
  {
    hide S.IsInertPath, S.IsModelInputPath, S.IsAdminUiPath;
  }

  /** The packages that the diff touches besides prose. */
  ghost function TouchedPackages(policy: S.Policy, paths: seq<string>): set<string> {
    set p | p in paths && !S.IsInertProsePath(policy, p) && S.ScopedPackage(p).Some? :: S.ScopedPackage(p).value
  }

  /** Coverage is scoped exactly when every path but prose is a TypeScript source of a known package group outside the
      full-runtime trees, no path is a model input, and one to four packages are touched. */
  lemma ScopedIff(i: Inputs, paths: seq<string>)
    requires WellFormed(i)
    ensures Selection(i, paths).coverageMode == CoverageScoped <==>
              && (forall p | p in paths && !S.IsInertProsePath(i.repo.scope, p) ::
                    S.IsScopedPath(p) && S.IsKnownScopedPackagePath(i.repo.scope, p)
                    && !StartsWithAny(p, i.repo.scope.fullRuntimePrefixes) && !StartsWithAny(p, i.repo.scope.fullRuntimePackagePrefixes))
              && (forall p | p in paths :: !S.IsModelInputPath(i.repo.scope, p))
              && 1 <= |TouchedPackages(i.repo.scope, paths)| <= 4
  {
    hide W.WebPlan, PythonReachable, GatewayReachable, AdminUiReachable, AdminBrowserInput, SharedWebInput, S.IsScopedPath, InertOnly,
         S.IsInertPath, S.IsInertProsePath, S.IsModelInputPath, S.IsAdminUiPath, S.IsKnownScopedPackagePath, WellFormed, NodeLanesUnreachable;
    assert TouchedPackages(i.repo.scope, paths) == Packages(i.repo.scope, paths);
    if ScopedDiff(i, paths) { ScopedIsReachable(i, paths, paths); }
    assert forall p | p in paths :: S.IsInertProsePath(i.repo.scope, p) || p in RuntimeInputPaths(i.repo.scope, paths);
    if paths == [] { assert TouchedPackages(i.repo.scope, paths) == {}; }
  }

  /** So a source in a full-runtime tree is covered in full, whatever else changed. */
  lemma FullRuntimeIsCovered(i: Inputs, paths: seq<string>, p: string)
    requires WellFormed(i) && p in paths && !S.IsInertProsePath(i.repo.scope, p) && ReachesNode(i, p)
    requires StartsWithAny(p, i.repo.scope.fullRuntimePrefixes) || StartsWithAny(p, i.repo.scope.fullRuntimePackagePrefixes)
    ensures Selection(i, paths).coverageMode == CoverageFull
  {
    hide Selection, WellFormed, ReachesNode, S.IsInertProsePath, S.IsScopedPath, StartsWithAny;
    ScopedIff(i, paths);
    RuntimeLanesIff(i, paths);
  }

  /** The diff is documentation that no lane reads. */
  ghost predicate OnlyDocumentation(i: Inputs, paths: seq<string>) {
    && paths != []
    && forall p | p in paths ::
         S.IsInertPath(i.repo.scope, p) && !S.IsModelInputPath(i.repo.scope, p) && p !in i.repo.web.sharedInputs
  }

  lemma DocumentationIff(i: Inputs, paths: seq<string>)
    ensures OnlyDocumentation(i, paths) <==> InertOnly(i, paths) && !ModelInput(i.repo.scope, paths)
  {
    hide S.IsInertPath, S.IsModelInputPath;
  }

  /** The consumer lanes run exactly for an empty diff, their own live paths, or an input that a consumer rule claims for them;
      Python also for dependency paths, but not for documentation. */
  lemma ConsumerLanesIff(i: Inputs, paths: seq<string>)
    ensures var scope, policy := Selection(i, paths), i.repo.scope;
            && (scope.pythonMode == Full <==>
                  paths == [] || (!OnlyDocumentation(i, paths)
                                  && (Reasons(i, paths, C.Python) != []
                                      || exists p | p in paths :: StartsWith(p, "python/") || S.IsDependencyPath(p))))
            && (scope.gatewayMode == Full <==>
                  paths == [] || Reasons(i, paths, C.Gateway) != []
                  || exists p | p in paths :: !S.IsInertPath(policy, p) && !S.IsAdminUiPath(policy, p) && StartsWithAny(p, policy.gatewayPrefixes))
            && (scope.adminUiMode == Full <==>
                  paths == [] || Reasons(i, paths, C.AdminUi) != []
                  || exists p | p in paths :: !S.IsInertPath(policy, p) && StartsWith(p, policy.adminUiPrefix))
  {
    hide ScopedDiff, W.WebPlan, Reasons, ModelInput, S.IsInertPath, S.IsDependencyPath, NodeLanesUnreachable, AdminBrowserInput,
         InertOnly, OnlyDocumentation, StartsWithAny;
    DocumentationIff(i, paths);
  }

  /** Consumer rules see every path but documentation that no model reads. */
  lemma ReasonsIff(i: Inputs, paths: seq<string>, lane: C.Lane)
    ensures Reasons(i, paths, lane) != [] <==>
              exists p | p in paths ::
                && (!S.IsInertPath(i.repo.scope, p) || S.IsModelInputPath(i.repo.scope, p))
                && (C.DynamicComposition(p)
                    || exists relation, prefix :: relation in i.consumers.relations && prefix in relation.paths
                                                  && lane in relation.lanes && C.Claims(i.consumers, p, prefix))
  {
    hide S.IsInertPath, S.IsModelInputPath, C.DynamicComposition, C.Claims, C.ReasonsFor;
    var seen := ConsumerInputs(i.repo.scope, paths);
    var reasons := C.ReasonsFor(i.consumers, seen, lane);
    if reasons != [] {
      C.ReasonsIff(i.consumers, seen, lane, reasons[0]);
      assert reasons[0] in reasons;
    }
    forall p | p in seen && C.DynamicComposition(p) ensures reasons != [] {
      C.ReasonsIff(i.consumers, seen, lane, "dynamic-composition");
    }
    forall p, relation, prefix | p in seen && relation in i.consumers.relations && prefix in relation.paths
                                 && lane in relation.lanes && C.Claims(i.consumers, p, prefix)
      ensures reasons != []
    {
      C.ReasonsIff(i.consumers, seen, lane, relation.id);
    }
  }

  /** The snapshot lane follows the browser plan, except that documentation alone, and a diff that reaches neither the Node
      lanes nor a shared Admin input, drop it. */
  lemma BrowserLaneIff(i: Inputs, paths: seq<string>)
    requires WellFormed(i)
    ensures var scope, plan := Selection(i, paths), W.WebPlan(i.repo, paths);
            var kept := scope.runExpensive
                        || exists p | p in paths :: S.IsAdminUiPath(i.repo.scope, p) && p in i.repo.web.sharedInputs;
            && (kept && plan.mode == W.Full ==> scope.snapshotMode == SnapshotFull)
            && (kept && plan.mode == W.Focused ==> scope.snapshotMode == SnapshotFocused)
            && (kept && plan.mode == W.Skip ==> scope.snapshotMode == SnapshotScoped)
            && (kept ==> scope.webGroups == plan.groups && scope.webScenarios == plan.scenarios && scope.webStrays == plan.strays)
            && (!kept ==> scope.snapshotMode == SnapshotSkip && scope.webGroups == scope.webScenarios == scope.webStrays == {})
  {
    hide ScopedDiff, W.WebPlan, PythonReachable, GatewayReachable, AdminUiReachable, ModelInput, NodeLanesUnreachable, WellFormed,
         S.IsInertPath, S.IsAdminUiPath, InertOnly, OnlyDocumentation;
    if ScopedDiff(i, paths) { ScopedIsReachable(i, paths, paths); }
    DocsAreUnreachable(i, paths);
    DocumentationIff(i, paths);
    DocsShareNothing(i, paths);
    if paths == [] { EmptyPlan(i.repo); }
  }

  lemma DocsShareNothing(i: Inputs, paths: seq<string>)
    ensures OnlyDocumentation(i, paths) ==> !AdminBrowserInput(i, paths)
  {
    hide S.IsInertPath, S.IsModelInputPath, S.IsAdminUiPath;
  }

  lemma EmptyPlan(repo: W.Repo)
    ensures W.WebPlan(repo, []) == W.FULL_WEB_VERIFICATION
  {
  }

  /** The reason printed beside the lanes. */
  lemma ReasonIff(i: Inputs, paths: seq<string>)
    requires WellFormed(i)
    ensures var scope := Selection(i, paths);
            && (scope.reason == DocsOnly <==> OnlyDocumentation(i, paths)) && (scope.changedDocsOnly <==> OnlyDocumentation(i, paths))
            && (scope.reason == Scoped <==> scope.coverageMode == CoverageScoped)
            && (scope.reason == FullReason <==> scope.coverageMode == CoverageFull)
            && (scope.reason == PythonOnly <==>
                  && scope.coverageMode == CoverageSkip && !OnlyDocumentation(i, paths)
                  && forall p | p in paths :: S.IsInertPath(i.repo.scope, p) || StartsWith(p, "python/"))
  {
    hide ScopedDiff, W.WebPlan, PythonReachable, GatewayReachable, AdminUiReachable, ModelInput, NodeLanesUnreachable, WellFormed,
         S.IsInertPath, InertOnly, OnlyDocumentation, AdminBrowserInput;
    if ScopedDiff(i, paths) { ScopedIsReachable(i, paths, paths); }
    DocsAreUnreachable(i, paths);
    DocumentationIff(i, paths);
    assert OnlyDocumentation(i, paths) ==> paths != [] by { DocsAreSome(i, paths); }
  }

  lemma DocsAreSome(i: Inputs, paths: seq<string>)
    ensures OnlyDocumentation(i, paths) ==> paths != []
  {
  }

  /** Documentation alone runs nothing, the consumer lanes included. */
  lemma DocumentationRunsNothing(i: Inputs, paths: seq<string>)
    requires paths != [] && !SharedWebInput(i.repo.web, paths)
    requires forall p | p in paths :: S.IsInertPath(i.repo.scope, p) && !S.IsModelInputPath(i.repo.scope, p)
    ensures var scope := Selection(i, paths);
            && !scope.runExpensive && scope.changedDocsOnly && scope.coverageMode == CoverageSkip
            && scope.snapshotMode == SnapshotSkip && scope.webGroups == {} && scope.webScenarios == {}
            && scope.compatMode == scope.pythonMode == scope.windowsMode == scope.gatewayMode == scope.adminUiMode == Skip
  {
    hide W.WebPlan, ScopedDiff, NodeLanesUnreachable, AdminBrowserInput, PythonReachable, SharedWebInput, C.ReasonsFor,
         S.IsInertPath, S.IsModelInputPath, S.IsGatewayPath, S.IsAdminUiPath;
    var inputs := ConsumerInputs(i.repo.scope, paths);
    HasFirst(inputs);
    C.NothingNoReasons(i.consumers, C.Gateway);
    C.NothingNoReasons(i.consumers, C.AdminUi);
  }

  /** A path that no rule places selects the full runtime lanes, whatever else changed. */
  lemma UnplacedRunsEverything(i: Inputs, paths: seq<string>, p: string)
    requires p in paths && !Outside(i.repo.scope, p) && !NarrowPath(i.repo.scope, p)
    ensures var scope := Selection(i, paths);
            && scope.runExpensive && scope.coverageMode == CoverageFull
            && scope.compatMode == Full && scope.windowsMode == Full && scope.snapshotMode != SnapshotSkip
  {
    hide ScopedDiff, NarrowPath, W.WebPlan, PythonReachable, GatewayReachable, AdminUiReachable, ModelInput, SharedWebInput,
         S.IsInertPath, S.IsPythonPath, S.IsAdminUiPath;
    UnplacedIsNotScoped(i, paths, p);
  }

  lemma UnplacedIsNotScoped(i: Inputs, paths: seq<string>, p: string)
    requires p in paths && !S.IsInertPath(i.repo.scope, p) && !NarrowPath(i.repo.scope, p)
    ensures !ScopedDiff(i, paths)
  {
    hide NarrowPath, S.IsInertPath, ModelInput, Packages;
    assert p in RuntimeInputPaths(i.repo.scope, paths);
  }

  /** An empty diff, the selector's fallback, runs every lane in full. */
  lemma EmptyDiffIsFull(i: Inputs)
    ensures var scope := Selection(i, []);
            && scope.runExpensive && scope.coverageMode == CoverageFull && scope.snapshotMode == SnapshotFull
            && scope.compatMode == scope.pythonMode == scope.windowsMode == scope.gatewayMode == scope.adminUiMode == Full
  {
  }
}
