/** Tier of the dedicated browser lane for one changed path set. */
module WebVerification {
  import opened ObjectMembers
  import opened Optional
  import opened PathText
  import S = ScopePolicy

  const WEB_TESTS_ROOT := "apps/web/tests/"

  /** A package reaches the listed groups, or every group. */
  datatype Mapping = All | Groups(names: seq<string>)

  datatype Policy = Policy(
    groups: seq<string>,
    scenarios: map<string, string>,
    sharedInputs: map<string, seq<string>>,
    packages: map<string, Mapping>,
    fullPrefixes: seq<string>,
    webInfraPrefixes: seq<string>,
    smokeScenarios: seq<string>)

  /** A normalised relative path: no drive letter, no backslash, no empty, current or parent segment. */
  predicate RelativeFile(path: string) {
    && !(|path| >= 2 && path[1] == ':' && ('A' <= path[0] <= 'Z' || 'a' <= path[0] <= 'z'))
    && '\\' !in path
    && "" !in Split(path) && "." !in Split(path) && ".." !in Split(path)
  }

  predicate ScenarioName(path: string) {
    RelativeFile(path) && EndsWithAny(path, [".e2e.ts", ".snapshot.ts"])
  }

  ghost predicate WellNamed(policy: Policy) {
    && (forall s | s in policy.scenarios :: ScenarioName(s))
    && (forall input | input in policy.sharedInputs :: RelativeFile(input))
  }

  /** What a lookup of a scenario sees: the table is a plain object, so inherited members are found too. */
  predicate Found(policy: Policy, name: string) {
    name in policy.scenarios || Inherited(name)
  }

  /** What loading the policy document checks, repeated names and files missing on disk aside.  Smoke scenarios are
      only looked up. */
  ghost predicate Valid(policy: Policy) {
    && WellNamed(policy)
    && (forall s | s in policy.scenarios :: policy.scenarios[s] in policy.groups)
    && (forall input | input in policy.sharedInputs ::
          policy.sharedInputs[input] != [] && forall owner | owner in policy.sharedInputs[input] :: owner in policy.scenarios)
    && policy.smokeScenarios != []
    && (forall s | s in policy.smokeScenarios :: Found(policy, s))
    && (forall p | p in policy.packages && policy.packages[p].Groups? ::
          policy.packages[p].names != [] && forall g | g in policy.packages[p].names :: g in policy.groups)
    && policy.groups != []
  }

  predicate SmokesRegistered(policy: Policy) {
    forall s | s in policy.smokeScenarios :: s in policy.scenarios
  }

  lemma SampleScenario()
    ensures ScenarioName("a.e2e.ts")
  {
    hide Split;
    SplitName("a.e2e.ts");
    assert Split("a.e2e.ts") == ["a.e2e.ts"] && |"a.e2e.ts"| == 8;
    assert EndsWith("a.e2e.ts", ".e2e.ts");
  }

  lemma SampleInput()
    ensures RelativeFile("docs/a.md")
  {
    hide Split;
    SplitName("a.md");
    SplitAfterSlash("docs", "a.md");
    assert "docs" + "/" + "a.md" == "docs/a.md";
    assert Split("docs/a.md") == ["docs", "a.md"] && |"docs"| == |"a.md"| == 4;
  }

  /** Everything besides the changed paths that the selection reads. */
  datatype Repo = Repo(scope: S.Policy, web: Policy, clientPackages: set<string>, goldenOwners: map<string, seq<string>>)

  datatype Mode = Skip | Focused | Full

  /** Selected groups or exact scenarios; the source's sorted duplicate-free lists are sets here.  `strays` are the names
      whose inherited object member was taken for a group. */
  datatype Plan = Plan(mode: Mode, groups: set<string>, scenarios: set<string>, strays: set<string>)

  const FULL_WEB_VERIFICATION := Plan(Full, {}, {}, {})
  const SKIP_WEB_VERIFICATION := Plan(Skip, {}, {}, {})

  datatype Result<+T> =
    | Ok(value: T)
    | UnknownOwner(path: string, owner: string)   // a shared input that names an unknown scenario
    | UnknownScenario | UnknownGroup | EmptySelection

  // ----- scenario files of a selection

  function Smokes(policy: Policy): set<string> {
    set s | s in policy.smokeScenarios
  }

  function ExactScenarioFiles(policy: Policy, scenarios: set<string>): Result<set<string>> {
    if scenarios == {} then EmptySelection
    else if exists s | s in scenarios :: s !in policy.scenarios then UnknownScenario
    else Ok(scenarios + Smokes(policy))
  }

  function FocusedScenarioFiles(policy: Policy, groups: set<string>, strays: set<string>): Result<set<string>> {
    if strays != {} || exists g | g in groups :: g !in policy.groups then UnknownGroup
    else Ok(set s | s in policy.scenarios && (policy.scenarios[s] in groups || s in policy.smokeScenarios))
  }

  // ----- the verdict on one path

  datatype Verdict =
    | Ignored
    | NeedsFull
    /** The first owner of the shared input that is no scenario. */
    | Throws(owner: string)
    /** Exactly these scenarios consume the path. */
    | Owned(owners: seq<string>)
    /** Some other input, reaching these groups (possibly none). */
    | Reaches(groups: set<string>)

  datatype Route = RouteFull | RouteInert | RouteTo(owners: seq<string>)

  function RouteWebTestPath(repo: Repo, path: string): Route
    requires StartsWith(path, WEB_TESTS_ROOT)
  {
    var relative := path[|WEB_TESTS_ROOT|..];
    var parts := Split(relative);
    if Found(repo.web, relative) then RouteTo([relative])
    else if |parts| >= 3 && parts[0] == "snapshots" && parts[1] != "" then
      if parts[1] !in repo.goldenOwners then RouteFull
      else
        var owners := repo.goldenOwners[parts[1]];
        if owners == [] || exists owner | owner in owners :: !Found(repo.web, owner) then RouteFull else RouteTo(owners)
    else if S.IsInertProsePath(repo.scope, path) then RouteInert
    else RouteFull
  }

  function ExpandPackageGroups(policy: Policy, mapping: Mapping): set<string> {
    match mapping
    case All => set g | g in policy.groups
    case Groups(names) => set g | g in names
  }

  /** The owners up to the first unknown one, and that one if there is any. */
  function FirstUnknown(policy: Policy, owners: seq<string>): (r: Option<string>)
    ensures r.None? <==> forall owner | owner in owners :: Found(policy, owner)
    ensures r.Some? ==> exists k | 0 <= k < |owners| ::
              owners[k] == r.value && !Found(policy, r.value) && forall j | 0 <= j < k :: Found(policy, owners[j])
  {
    if owners == [] then None
    else if !Found(policy, owners[0]) then Some(owners[0])
    else
      var rest := FirstUnknown(policy, owners[1..]);
      assert rest.Some? ==> forall k | 0 <= k < |owners| - 1 :: owners[1..][k] == owners[k + 1];
      rest
  }

  function VerdictOn(repo: Repo, path: string): Verdict {
    var web, shared := repo.web, path in repo.web.sharedInputs;
    if !shared && S.IsInertProsePath(repo.scope, path) then Ignored
    else if StartsWithAny(path, web.fullPrefixes) || S.IsDependencyPath(path) then NeedsFull
    else if StartsWithAny(path, web.webInfraPrefixes) && !(S.IsAdminUiPath(repo.scope, path) && shared) then NeedsFull
    else if shared then
      var unknown := FirstUnknown(web, web.sharedInputs[path]);
      if unknown.Some? then Throws(unknown.value) else Owned(web.sharedInputs[path])
    else if StartsWith(path, WEB_TESTS_ROOT) then
      match RouteWebTestPath(repo, path)
      case RouteFull => NeedsFull
      case RouteInert => Ignored
      case RouteTo(owners) => Owned(owners)
    else
      var pkg := S.ScopedPackage(path);
      if pkg.Some? then
        if pkg.value in web.packages then Reaches(ExpandPackageGroups(web, web.packages[pkg.value]))
        else if pkg.value in repo.clientPackages then NeedsFull
        else Reaches({})
      else if S.IsWebIrrelevantPath(repo.scope, path) then Reaches({})
      else NeedsFull
  }

  // ----- the order-free join

  /** Owners that a lookup finds and groups that the policy knows. */
  ghost predicate Known(policy: Policy, v: Verdict) {
    match v
    case Throws(_) => false
    case Owned(owners) => forall owner | owner in owners :: Found(policy, owner)
    case Reaches(groups) => forall g | g in groups :: g in policy.groups
    case _ => true
  }

  lemma VerdictIsKnown(repo: Repo, path: string)
    requires Valid(repo.web)
    ensures Known(repo.web, VerdictOn(repo, path))
  {
    hide Inherited;
  }

  function GroupsOf(policy: Policy, v: Verdict): set<string> {
    match v
    case Owned(owners) => set owner | owner in owners && owner in policy.scenarios :: policy.scenarios[owner]
    case Reaches(groups) => groups
    case _ => {}
  }

  /** Owners whose group is an inherited object member. */
  function StraysOf(policy: Policy, v: Verdict): set<string> {
    if v.Owned? then set owner | owner in v.owners && owner !in policy.scenarios else {}
  }

  function ScenariosOf(v: Verdict): set<string> {
    if v.Owned? then set owner | owner in v.owners else {}
  }

  function JoinedGroups(policy: Policy, vs: set<Verdict>): set<string> {
    set v, g | v in vs && g in GroupsOf(policy, v) :: g
  }

  function JoinedStrays(policy: Policy, vs: set<Verdict>): set<string> {
    set v, s | v in vs && s in StraysOf(policy, v) :: s
  }

  function JoinedScenarios(vs: set<Verdict>): set<string> {
    set v, s | v in vs && s in ScenariosOf(v) :: s
  }

  predicate Exact(vs: set<Verdict>) {
    forall v | v in vs :: !v.Reaches?
  }

  /** The plan as a function of the set of per-path verdicts alone. */
  function Join(policy: Policy, vs: set<Verdict>): Plan {
    var groups, strays := JoinedGroups(policy, vs), JoinedStrays(policy, vs);
    if vs == {} || NeedsFull in vs then FULL_WEB_VERIFICATION
    else if groups == {} && strays == {} then SKIP_WEB_VERIFICATION
    else if Exact(vs) then Plan(Focused, {}, JoinedScenarios(vs) + Smokes(policy), {})
    else Plan(Focused, groups, {}, strays)
  }

  /** An exact selection names an inherited member, which its final check refuses. */
  predicate StraysExactly(policy: Policy, vs: set<Verdict>) {
    NeedsFull !in vs && Exact(vs) && JoinedStrays(policy, vs) != {}
  }

  /** No path needs everything, and a name that is no scenario gets into the selection: an inherited member that some path
      spells, or an unregistered smoke scenario beside exact ones. */
  predicate Strange(policy: Policy, vs: set<Verdict>) {
    && NeedsFull !in vs
    && (JoinedStrays(policy, vs) != {} || (!SmokesRegistered(policy) && Exact(vs) && JoinedGroups(policy, vs) != {}))
  }

  function Verdicts(repo: Repo, paths: seq<string>): set<Verdict> {
    set p | p in paths :: VerdictOn(repo, p)
  }

  function WebPlan(repo: Repo, paths: seq<string>): Plan {
    Join(repo.web, Verdicts(repo, paths))
  }

  // ----- the loop

  /** Path `k` is the first to decide, and decides by throwing. */
  ghost predicate ThrowsAt(repo: Repo, paths: seq<string>, k: nat) {
    && k < |paths| && VerdictOn(repo, paths[k]).Throws?
    && forall j | 0 <= j < k :: !VerdictOn(repo, paths[j]).Throws? && !VerdictOn(repo, paths[j]).NeedsFull?
  }

  /** The loop's outcome under a valid policy. */
  function Classified(repo: Repo, paths: seq<string>): Result<Plan> {
    if StraysExactly(repo.web, Verdicts(repo, paths)) then UnknownScenario else Ok(WebPlan(repo, paths))
  }

  /** The early-returning loop over the paths.  When it returns, its plan is the join, whatever the order and multiplicity
      of the paths.  It throws exactly when the first deciding path is a shared input of an unknown scenario, and says
      which, or when an exact selection names an inherited member. */
  method ClassifyWebVerification(repo: Repo, paths: seq<string>) returns (r: Result<Plan>)
    ensures Valid(repo.web) ==> r == Classified(repo, paths)
    ensures forall k: nat | ThrowsAt(repo, paths, k) :: r == UnknownOwner(paths[k], VerdictOn(repo, paths[k]).owner)
    ensures (forall k: nat :: !ThrowsAt(repo, paths, k)) ==> r == Classified(repo, paths)
  {
    hide VerdictOn, Valid, SmokesRegistered;
    if paths == [] { return Ok(FULL_WEB_VERIFICATION); }
    var groups: set<string>, strays: set<string>, scenarios: set<string>, exactOnly := {}, {}, {}, true;
    ghost var seen: set<Verdict> := {};
    for i := 0 to |paths|
      invariant seen == Verdicts(repo, paths[..i])
      invariant forall j | 0 <= j < i :: !VerdictOn(repo, paths[j]).Throws? && !VerdictOn(repo, paths[j]).NeedsFull?
      invariant NeedsFull !in seen
      invariant groups == JoinedGroups(repo.web, seen) && strays == JoinedStrays(repo.web, seen)
      invariant scenarios == JoinedScenarios(seen)
      invariant exactOnly <==> Exact(seen)
    {
      var verdict := VerdictOn(repo, paths[i]);
      assert verdict in Verdicts(repo, paths);
      assert paths[..i + 1] == paths[..i] + [paths[i]];
      if verdict.Throws? {
        if Valid(repo.web) { VerdictIsKnown(repo, paths[i]); }
        assert ThrowsAt(repo, paths, i);
        return UnknownOwner(paths[i], verdict.owner);
      }
      if verdict.NeedsFull? { return Ok(FULL_WEB_VERIFICATION); }
      groups, strays := groups + GroupsOf(repo.web, verdict), strays + StraysOf(repo.web, verdict);
      scenarios := scenarios + ScenariosOf(verdict);
      if verdict.Reaches? { exactOnly := false; }
      seen := seen + {verdict};
    }
    assert paths[..|paths|] == paths;
    assert VerdictOn(repo, paths[0]) in seen;
    if groups == {} && strays == {} { return Ok(SKIP_WEB_VERIFICATION); }
    if !exactOnly { return Ok(Plan(Focused, groups, {}, strays)); }
    ExactIsKnown(repo.web, seen);
    var files := ExactScenarioFiles(repo.web, scenarios);
    if !files.Ok? { return UnknownScenario; }
    return Ok(Plan(Focused, {}, files.value, {}));
  }

  /** An exact selection names at least one scenario, and only registered ones when it has no strays. */
  lemma ExactIsKnown(policy: Policy, vs: set<Verdict>)
    requires Exact(vs) && (JoinedGroups(policy, vs) != {} || JoinedStrays(policy, vs) != {})
    ensures JoinedScenarios(vs) != {}
    ensures JoinedScenarios(vs) <= policy.scenarios.Keys <==> JoinedStrays(policy, vs) == {}
    ensures ExactScenarioFiles(policy, JoinedScenarios(vs)).Ok? <==> JoinedStrays(policy, vs) == {}
  {
    if g :| g in JoinedGroups(policy, vs) {
      var v :| v in vs && g in GroupsOf(policy, v);
      var owner :| owner in v.owners && owner in policy.scenarios && policy.scenarios[owner] == g;
      assert owner in ScenariosOf(v);
      assert owner in JoinedScenarios(vs);
    }
    forall s ensures s in JoinedStrays(policy, vs) <==> s in JoinedScenarios(vs) && s !in policy.scenarios {
      if s in JoinedScenarios(vs) && s !in policy.scenarios {
        var v :| v in vs && s in ScenariosOf(v);
        assert s in StraysOf(policy, v);
      }
      if s in JoinedStrays(policy, vs) {
        var v :| v in vs && s in StraysOf(policy, v);
        assert s in ScenariosOf(v);
      }
    }
  }

  // ----- what a plan runs

  /** A plan fills groups or scenarios exactly when it is focused, and never both. */
  ghost predicate WellShaped(plan: Plan) {
    if plan.mode == Focused then (plan.groups == {} && plan.strays == {}) != (plan.scenarios == {})
    else plan.groups == {} && plan.scenarios == {} && plan.strays == {}
  }

  /** Everything that the plan names is registered, so it can be executed. */
  predicate Executable(policy: Policy, plan: Plan) {
    plan.strays == {} && plan.scenarios <= policy.scenarios.Keys
  }

  ghost predicate AllKnown(policy: Policy, vs: set<Verdict>) {
    forall v | v in vs :: Known(policy, v)
  }

  lemma VerdictsAreKnown(repo: Repo, paths: seq<string>)
    requires Valid(repo.web)
    ensures AllKnown(repo.web, Verdicts(repo, paths))
  {
    forall p | p in paths ensures Known(repo.web, VerdictOn(repo, p)) {
      VerdictIsKnown(repo, p);
    }
  }

  /** The shape of every plan, that it names no unknown group, and when everything it names exists. */
  lemma JoinIsWellShaped(policy: Policy, vs: set<Verdict>)
    requires Valid(policy) && AllKnown(policy, vs)
    ensures WellShaped(Join(policy, vs))
    ensures forall g | g in Join(policy, vs).groups :: g in policy.groups
    ensures Executable(policy, Join(policy, vs)) <==> !Strange(policy, vs)
  {
    hide WellNamed, Inherited;
    forall g | g in JoinedGroups(policy, vs) ensures g in policy.groups {
      var v :| v in vs && g in GroupsOf(policy, v);
      assert Known(policy, v);
    }
    if Exact(vs) && (JoinedGroups(policy, vs) != {} || JoinedStrays(policy, vs) != {}) {
      ExactIsKnown(policy, vs);
    }
    assert policy.smokeScenarios[0] in Smokes(policy);
    SmokesAre(policy);
  }

  lemma SmokesAre(policy: Policy)
    ensures SmokesRegistered(policy) <==> Smokes(policy) <= policy.scenarios.Keys
  {
    forall s | s in policy.smokeScenarios ensures s in Smokes(policy) {}
  }

  /** The browser scenarios that a tier executes. */
  ghost function Runs(policy: Policy, plan: Plan): set<string> {
    if !Executable(policy, plan) then {} else
    match plan.mode
    case Full => policy.scenarios.Keys
    case Skip => {}
    case Focused => if plan.scenarios != {} then plan.scenarios + Smokes(policy) else InGroups(policy, plan.groups)
  }

  function InGroups(policy: Policy, groups: set<string>): set<string> {
    set s | s in policy.scenarios && (policy.scenarios[s] in groups || s in policy.smokeScenarios)
  }

  function Rank(mode: Mode): nat {
    match mode
    case Skip => 0
    case Focused => 1
    case Full => 2
  }

  /** Growing a non-empty diff never lowers the tier and never drops a scenario, as long as the larger plan can be
      executed. */
  lemma JoinIsMonotone(policy: Policy, us: set<Verdict>, vs: set<Verdict>)
    requires Valid(policy) && us <= vs && us != {} && AllKnown(policy, vs)
    ensures Rank(Join(policy, us).mode) <= Rank(Join(policy, vs).mode)
    ensures !Strange(policy, vs) ==> Runs(policy, Join(policy, us)) <= Runs(policy, Join(policy, vs))
  {
    hide WellNamed, Found;
    JoinIsWellShaped(policy, us);
    JoinIsWellShaped(policy, vs);
    assert JoinedGroups(policy, us) <= JoinedGroups(policy, vs);
    assert JoinedScenarios(us) <= JoinedScenarios(vs) && JoinedStrays(policy, us) <= JoinedStrays(policy, vs);
    if !Strange(policy, vs) && Executable(policy, Join(policy, us)) && !Exact(vs) && Exact(us) && Join(policy, us).mode == Focused {
      SmokesAre(policy);
      OwnedLieInGroups(policy, us);
    }
  }

  lemma OwnedLieInGroups(policy: Policy, vs: set<Verdict>)
    requires JoinedScenarios(vs) + Smokes(policy) <= policy.scenarios.Keys
    ensures JoinedScenarios(vs) + Smokes(policy) <= InGroups(policy, JoinedGroups(policy, vs))
  {
    forall s | s in JoinedScenarios(vs) ensures s in InGroups(policy, JoinedGroups(policy, vs)) {
      var v :| v in vs && s in ScenariosOf(v);
      assert policy.scenarios[s] in GroupsOf(policy, v);
    }
  }

  /** The registered scenarios that one verdict asks for. */
  ghost function Demands(policy: Policy, v: Verdict): set<string> {
    match v
    case NeedsFull => policy.scenarios.Keys
    case Owned(owners) => ScenariosOf(v) * policy.scenarios.Keys
    case Reaches(groups) => set s | s in policy.scenarios && policy.scenarios[s] in groups
    case _ => {}
  }

  /** A plan that can be executed runs whatever any single path asks for. */
  lemma JoinRunsDemands(policy: Policy, vs: set<Verdict>, v: Verdict)
    requires Valid(policy) && AllKnown(policy, vs) && v in vs && !Strange(policy, vs)
    ensures Demands(policy, v) <= Runs(policy, Join(policy, vs))
  {
    hide WellNamed, Found;
    JoinIsWellShaped(policy, vs);
    if NeedsFull !in vs {
      assert GroupsOf(policy, v) <= JoinedGroups(policy, vs) && ScenariosOf(v) <= JoinedScenarios(vs);
      forall s | s in Demands(policy, v) ensures s in Runs(policy, Join(policy, vs)) {
        assert policy.scenarios[s] in GroupsOf(policy, v);
      }
    }
  }

  /** It runs nothing besides the smokes and the groups that some path touches, unless a path needs everything. */
  lemma JoinRunsOnly(policy: Policy, vs: set<Verdict>, s: string)
    requires Valid(policy) && AllKnown(policy, vs) && vs != {} && NeedsFull !in vs
    requires s in Runs(policy, Join(policy, vs))
    ensures s in policy.scenarios
    ensures s in policy.smokeScenarios || exists v | v in vs :: policy.scenarios[s] in GroupsOf(policy, v)
    ensures exists v | v in vs :: GroupsOf(policy, v) != {}
  {
    hide WellNamed, Found;
    JoinIsWellShaped(policy, vs);
    var g :| g in JoinedGroups(policy, vs);
    var u :| u in vs && g in GroupsOf(policy, u);
    if s !in policy.smokeScenarios {
      if Exact(vs) {
        var v :| v in vs && s in ScenariosOf(v);
        assert policy.scenarios[s] in GroupsOf(policy, v);
      } else {
        var v :| v in vs && policy.scenarios[s] in GroupsOf(policy, v);
      }
    }
  }

  predicate StrangeDiff(repo: Repo, paths: seq<string>) {
    Strange(repo.web, Verdicts(repo, paths))
  }

  /** The path spells, below the web test tree, an inherited member or a golden directory attributed to one. */
  predicate StrayPath(repo: Repo, path: string) {
    && path !in repo.web.sharedInputs && StartsWith(path, WEB_TESTS_ROOT)
    && var route := RouteWebTestPath(repo, path);
       route.RouteTo? && exists owner | owner in route.owners :: owner !in repo.web.scenarios
  }

  /** With registered golden owners a path is stray exactly when it spells an inherited member that is no scenario. */
  lemma StrayPathIff(repo: Repo, path: string)
    requires forall d | d in repo.goldenOwners :: forall owner | owner in repo.goldenOwners[d] :: owner in repo.web.scenarios
    ensures StrayPath(repo, path) <==>
              && path !in repo.web.sharedInputs && StartsWith(path, WEB_TESTS_ROOT)
              && var name := path[|WEB_TESTS_ROOT|..]; Inherited(name) && name !in repo.web.scenarios
  {
    hide Split, S.IsInertProsePath, Inherited;
    if StartsWith(path, WEB_TESTS_ROOT) {
      var name := path[|WEB_TESTS_ROOT|..];
      assert name in [name];
    }
  }

  /** A diff is strange exactly when no path needs the full inventory and some path is stray, or the selection is exact
      beside an unregistered smoke scenario. */
  lemma StrangeDiffIff(repo: Repo, paths: seq<string>)
    requires Valid(repo.web)
    ensures StrangeDiff(repo, paths) <==>
              && (forall p | p in paths :: !VerdictOn(repo, p).NeedsFull?)
              && ((exists p | p in paths :: StrayPath(repo, p))
                  || (!SmokesRegistered(repo.web) && WebPlan(repo, paths).scenarios != {}))
  {
    hide VerdictOn, StrayPath, Valid, SmokesRegistered, StraysOf;
    var vs := Verdicts(repo, paths);
    forall p | p in paths && !VerdictOn(repo, p).NeedsFull? ensures StraysOf(repo.web, VerdictOn(repo, p)) != {} <==> StrayPath(repo, p) {
      StrayVerdict(repo, p);
    }
    if NeedsFull !in vs {
      assert JoinedStrays(repo.web, vs) != {} <==> exists p | p in paths :: StrayPath(repo, p) by {
        StraysComeFromPaths(repo, paths);
      }
      if Exact(vs) && (JoinedGroups(repo.web, vs) != {} || JoinedStrays(repo.web, vs) != {}) { ExactHasNames(repo.web, vs); }
    }
  }

  lemma ExactHasNames(policy: Policy, vs: set<Verdict>)
    requires Exact(vs) && (JoinedGroups(policy, vs) != {} || JoinedStrays(policy, vs) != {})
    ensures JoinedScenarios(vs) + Smokes(policy) != {}
  {
    ExactIsKnown(policy, vs);
  }

  lemma StraysComeFromPaths(repo: Repo, paths: seq<string>)
    ensures JoinedStrays(repo.web, Verdicts(repo, paths)) != {} <==> exists p | p in paths :: StraysOf(repo.web, VerdictOn(repo, p)) != {}
  {
    hide VerdictOn, StraysOf;
    var vs := Verdicts(repo, paths);
    if s :| s in JoinedStrays(repo.web, vs) {
      var v :| v in vs && s in StraysOf(repo.web, v);
    }
    forall p | p in paths && StraysOf(repo.web, VerdictOn(repo, p)) != {} ensures JoinedStrays(repo.web, vs) != {} {
      var s :| s in StraysOf(repo.web, VerdictOn(repo, p));
      assert s in JoinedStrays(repo.web, vs);
    }
  }

  lemma StrayVerdict(repo: Repo, path: string)
    requires Valid(repo.web) && !VerdictOn(repo, path).NeedsFull?
    ensures StraysOf(repo.web, VerdictOn(repo, path)) != {} <==> StrayPath(repo, path)
  {
    hide S.IsInertProsePath, S.IsDependencyPath, S.IsAdminUiPath, StartsWithAny, WellNamed, Inherited, RouteWebTestPath, FirstUnknown;
    if StrayPath(repo, path) { StrayIsNotProse(repo, path); }
    var v := VerdictOn(repo, path);
    assert v.Owned? ==> forall owner | owner in v.owners && owner !in repo.web.scenarios :: owner in StraysOf(repo.web, v);
  }

  /** Without a stray path the classification returns. */
  lemma NoStrayNoThrow(repo: Repo, paths: seq<string>)
    requires Valid(repo.web) && forall p | p in paths :: !StrayPath(repo, p)
    ensures Classified(repo, paths).Ok?
  {
    hide VerdictOn, StrayPath, Valid, StraysOf;
    var vs := Verdicts(repo, paths);
    if NeedsFull !in vs {
      forall p | p in paths ensures StraysOf(repo.web, VerdictOn(repo, p)) == {} {
        assert VerdictOn(repo, p) in vs;
        StrayVerdict(repo, p);
      }
      StraysComeFromPaths(repo, paths);
    }
  }

  lemma StrayAlone(policy: Policy, name: string)
    requires name !in policy.scenarios
    ensures StraysExactly(policy, {Owned([name])}) && Strange(policy, {Owned([name])})
  {
    hide SmokesRegistered;
    assert name in [name];
    assert name in StraysOf(policy, Owned([name]));
    assert name in JoinedStrays(policy, {Owned([name])});
  }

  /** Some path's scenarios are to blame for a strange diff. */
  lemma StrangeIsOwned(repo: Repo, paths: seq<string>) returns (p: string)
    requires StrangeDiff(repo, paths)
    ensures p in paths && VerdictOn(repo, p).Owned?
  {
    hide VerdictOn, SmokesRegistered;
    var vs := Verdicts(repo, paths);
    assert exists v | v in vs :: v.Owned? by {
      if s :| s in JoinedStrays(repo.web, vs) {
        var u :| u in vs && s in StraysOf(repo.web, u);
      } else {
        var g :| g in JoinedGroups(repo.web, vs);
        var u :| u in vs && g in GroupsOf(repo.web, u);
      }
    }
    var v :| v in vs && v.Owned?;
    p :| p in paths && VerdictOn(repo, p) == v;
  }

  lemma OwnedPaths(repo: Repo, path: string)
    requires VerdictOn(repo, path).Owned? && path !in repo.web.sharedInputs
    ensures StartsWith(path, WEB_TESTS_ROOT) && !S.IsInertProsePath(repo.scope, path)
  {
    hide S.IsInertProsePath, S.IsDependencyPath, S.IsAdminUiPath, StartsWithAny, RouteWebTestPath;
  }

  lemma StrayIsNotProse(repo: Repo, path: string)
    requires StrayPath(repo, path)
    ensures !S.IsInertProsePath(repo.scope, path)
  {
    var relative := path[|WEB_TESTS_ROOT|..];
    assert path == WEB_TESTS_ROOT + relative;
    if Found(repo.web, relative) {
      InheritedEnds(relative);
      assert path[|path| - 1] == relative[|relative| - 1];
      S.ProseEnds(path);
    } else {
      S.FirstSegment(relative, "snapshots");
      SnapshotsWithin(relative);
    }
  }

  lemma SnapshotsWithin(relative: string)
    requires StartsWith(relative, "snapshots/")
    ensures Contains(WEB_TESTS_ROOT + relative, "/snapshots/")
  {
    var path, k := WEB_TESTS_ROOT + relative, |WEB_TESTS_ROOT| - 1;
    assert path[k..] == "/" + relative;
    assert StartsWith("/" + relative, "/" + "snapshots/") && "/" + "snapshots/" == "/snapshots/";
  }

  /** Same paths in any order and with any repetition, same outcome; more paths, no less verification, as long as the
      larger plan can be executed. */
  lemma PlanIsMonotone(repo: Repo, ps: seq<string>, qs: seq<string>)
    requires Valid(repo.web) && ps != [] && forall p | p in ps :: p in qs
    ensures Rank(WebPlan(repo, ps).mode) <= Rank(WebPlan(repo, qs).mode)
    ensures !StrangeDiff(repo, qs) ==> Runs(repo.web, WebPlan(repo, ps)) <= Runs(repo.web, WebPlan(repo, qs))
    ensures (forall q | q in qs :: q in ps) ==> Classified(repo, ps) == Classified(repo, qs)
  {
    VerdictsAreKnown(repo, qs);
    assert VerdictOn(repo, ps[0]) in Verdicts(repo, ps);
    JoinIsMonotone(repo.web, Verdicts(repo, ps), Verdicts(repo, qs));
    if forall q | q in qs :: q in ps {
      assert Verdicts(repo, ps) == Verdicts(repo, qs);
    }
  }

  // ----- which paths ask for what

  /** The path is seen at all: a shared input, or no inert prose. */
  predicate Seen(repo: Repo, p: string) {
    p in repo.web.sharedInputs || !S.IsInertProsePath(repo.scope, p)
  }

  /** One of the paths that every browser test depends on: a full prefix, a dependency file, or the lane's own infrastructure,
      except for an Admin path that is a shared input. */
  predicate Underlies(repo: Repo, p: string) {
    || StartsWithAny(p, repo.web.fullPrefixes)
    || S.IsDependencyPath(p)
    || (StartsWithAny(p, repo.web.webInfraPrefixes) && !(StartsWith(p, repo.scope.adminUiPrefix) && p in repo.web.sharedInputs))
  }

  /** The owners of a golden directory, if it has any and all are found. */
  predicate GoldenOwned(repo: Repo, directory: string) {
    && directory in repo.goldenOwners && repo.goldenOwners[directory] != []
    && forall owner | owner in repo.goldenOwners[directory] :: Found(repo.web, owner)
  }

  predicate IsGoldenOf(relative: string, directory: string) {
    directory != "" && '/' !in directory && StartsWith(relative, "snapshots/" + directory + "/")
  }

  /** A web test file whose scenarios nobody knows: no scenario, and no golden with known owners. */
  ghost predicate OrphanTest(repo: Repo, p: string) {
    && StartsWith(p, WEB_TESTS_ROOT)
    && var relative := p[|WEB_TESTS_ROOT|..];
       && !Found(repo.web, relative)
       && forall directory | IsGoldenOf(relative, directory) :: !GoldenOwned(repo, directory)
  }

  /** Outside the web tests: a source of a browser-rendered package that no mapping places, or a path that no rule places. */
  predicate Unplaced(repo: Repo, p: string) {
    && !StartsWith(p, WEB_TESTS_ROOT)
    && match S.ScopedPackage(p)
       case Some(package) => package in repo.clientPackages && package !in repo.web.packages
       case None => !S.IsWebIrrelevantPath(repo.scope, p)
  }

  ghost predicate NeedsEverything(repo: Repo, p: string) {
    Seen(repo, p) && (Underlies(repo, p) || (p !in repo.web.sharedInputs && (OrphanTest(repo, p) || Unplaced(repo, p))))
  }

  /** The full inventory runs exactly for an empty diff or one with a path that needs everything. */
  lemma FullPlanIff(repo: Repo, paths: seq<string>)
    ensures WebPlan(repo, paths) == FULL_WEB_VERIFICATION <==> paths == [] || exists p | p in paths :: NeedsEverything(repo, p)
    ensures WebPlan(repo, paths).mode == Full <==> WebPlan(repo, paths) == FULL_WEB_VERIFICATION
  {
    hide VerdictOn, NeedsEverything;
    forall p | p in paths ensures VerdictOn(repo, p).NeedsFull? <==> NeedsEverything(repo, p) {
      NeedsFullIff(repo, p);
    }
    if paths != [] { assert VerdictOn(repo, paths[0]) in Verdicts(repo, paths); }
  }

  lemma NeedsFullIff(repo: Repo, p: string)
    ensures VerdictOn(repo, p).NeedsFull? <==> NeedsEverything(repo, p)
  {
    hide S.IsInertProsePath, S.IsDependencyPath, StartsWithAny, RouteWebTestPath, OrphanTest, FirstUnknown, S.IsWebIrrelevantPath,
         S.ScopedPackage;
    if !Seen(repo, p) {
      assert VerdictOn(repo, p) == Ignored;
    } else if Underlies(repo, p) {
      assert VerdictOn(repo, p) == NeedsFull;
    } else if p in repo.web.sharedInputs {
      assert !VerdictOn(repo, p).NeedsFull?;
    } else if StartsWith(p, WEB_TESTS_ROOT) {
      OrphanIff(repo, p);
      assert VerdictOn(repo, p).NeedsFull? <==> RouteWebTestPath(repo, p).RouteFull?;
    } else {
      assert !OrphanTest(repo, p) by { OrphanIsTest(repo, p); }
    }
  }

  lemma OrphanIsTest(repo: Repo, p: string)
    ensures OrphanTest(repo, p) ==> StartsWith(p, WEB_TESTS_ROOT)
  {
  }

  lemma OrphanIff(repo: Repo, p: string)
    requires StartsWith(p, WEB_TESTS_ROOT)
    ensures !S.IsInertProsePath(repo.scope, p) ==> (RouteWebTestPath(repo, p).RouteFull? <==> OrphanTest(repo, p))
    ensures !RouteWebTestPath(repo, p).RouteInert? || S.IsInertProsePath(repo.scope, p)
  {
    hide Found, S.IsInertProsePath, GoldenOwned;
    var relative := p[|WEB_TESTS_ROOT|..];
    var parts := Split(relative);
    if |parts| >= 3 && parts[0] == "snapshots" && parts[1] != "" {
      GoldenDirectory(relative);
      GoldenOwnedIs(repo, parts[1]);
      forall directory | IsGoldenOf(relative, directory) ensures directory == parts[1] {
        OneGoldenDirectory(relative, directory);
      }
    } else {
      forall directory | IsGoldenOf(relative, directory) ensures false {
        OneGoldenDirectory(relative, directory);
      }
    }
  }

  lemma GoldenOwnedIs(repo: Repo, directory: string)
    ensures GoldenOwned(repo, directory) <==>
              && directory in repo.goldenOwners && repo.goldenOwners[directory] != []
              && forall owner | owner in repo.goldenOwners[directory] :: Found(repo.web, owner)
  {
  }

  lemma GoldenDirectory(relative: string)
    requires var parts := Split(relative); |parts| >= 3 && parts[0] == "snapshots" && parts[1] != ""
    ensures IsGoldenOf(relative, Split(relative)[1])
  {
    hide Split;
    S.FirstSegment(relative, "snapshots");
    var rest := relative[10..];
    assert relative == "snapshots" + "/" + rest;
    SplitAfterSlash("snapshots", rest);
    assert Split(relative)[1] == Split(rest)[0] && |Split(rest)| > 1;
    S.FirstSegment(rest, Split(rest)[0]);
    SegmentHasNoSlash(rest, 0);
    var directory := Split(rest)[0];
    assert rest == directory + "/" + rest[|directory| + 1..];
    assert relative == "snapshots/" + directory + "/" + rest[|directory| + 1..];
  }

  lemma OneGoldenDirectory(relative: string, directory: string)
    requires IsGoldenOf(relative, directory)
    ensures var parts := Split(relative); |parts| >= 3 && parts[0] == "snapshots" && parts[1] == directory
  {
    hide Split;
    var head := "snapshots/" + directory + "/";
    var rest := relative[|head|..];
    assert relative == "snapshots" + "/" + (directory + "/" + rest);
    SplitAfterSlash("snapshots", directory + "/" + rest);
    SplitAfterSlash(directory, rest);
  }

  /** What a path asks for, unless it needs everything: the owners of a shared input, the scenario or the golden's owners of a
      web test file, the groups that a mapped package reaches, and otherwise nothing. */
  ghost predicate AsksFor(repo: Repo, p: string, s: string) {
    && s in repo.web.scenarios
    && if p in repo.web.sharedInputs then s in repo.web.sharedInputs[p]
       else if StartsWith(p, WEB_TESTS_ROOT) then
         var relative := p[|WEB_TESTS_ROOT|..];
         if Found(repo.web, relative) then s == relative
         else exists directory :: IsGoldenOf(relative, directory) && GoldenOwned(repo, directory) && s in repo.goldenOwners[directory]
       else
         var package := S.ScopedPackage(p);
         && package.Some? && package.value in repo.web.packages
         && match repo.web.packages[package.value]
            case All => repo.web.scenarios[s] in repo.web.groups
            case Groups(names) => repo.web.scenarios[s] in names
  }

  /** Unless it needs everything, a path demands exactly the scenarios it asks for. */
  lemma DemandsIff(repo: Repo, p: string, s: string)
    requires Valid(repo.web) && !NeedsEverything(repo, p) && !S.IsInertProsePath(repo.scope, p)
    ensures s in Demands(repo.web, VerdictOn(repo, p)) <==> AsksFor(repo, p, s)
  {
    hide S.IsInertProsePath, S.IsDependencyPath, StartsWithAny, RouteWebTestPath, OrphanTest, FirstUnknown, S.IsWebIrrelevantPath,
         S.ScopedPackage, WellNamed, Inherited, NeedsEverything, IsGoldenOf, GoldenOwned;
    NeedsFullIff(repo, p);
    VerdictIsKnown(repo, p);
    var v := VerdictOn(repo, p);
    if p in repo.web.sharedInputs {
      assert v == Owned(repo.web.sharedInputs[p]);
      DemandsOfOwned(repo.web, v.owners, s);
    } else if StartsWith(p, WEB_TESTS_ROOT) {
      RouteIff(repo, p, s);
      OrphanIff(repo, p);
      assert v == Owned(RouteWebTestPath(repo, p).owners);
      DemandsOfOwned(repo.web, v.owners, s);
    } else {
      var package := S.ScopedPackage(p);
      if package.Some? && package.value in repo.web.packages {
        assert v == Reaches(ExpandPackageGroups(repo.web, repo.web.packages[package.value]));
      } else {
        assert v == Reaches({});
      }
    }
  }

  lemma DemandsOfOwned(policy: Policy, owners: seq<string>, s: string)
    ensures s in Demands(policy, Owned(owners)) <==> s in owners && s in policy.scenarios
  {
  }

  lemma RouteIff(repo: Repo, p: string, s: string)
    requires StartsWith(p, WEB_TESTS_ROOT) && !S.IsInertProsePath(repo.scope, p)
    ensures var route, relative := RouteWebTestPath(repo, p), p[|WEB_TESTS_ROOT|..];
            route.RouteTo? ==>
              (s in route.owners <==>
                 if Found(repo.web, relative) then s == relative
                 else exists directory :: IsGoldenOf(relative, directory) && GoldenOwned(repo, directory) && s in repo.goldenOwners[directory])
  {
    hide Found, S.IsInertProsePath, IsGoldenOf;
    var relative := p[|WEB_TESTS_ROOT|..];
    var parts := Split(relative);
    if RouteWebTestPath(repo, p).RouteTo? && !Found(repo.web, relative) {
      GoldenDirectory(relative);
      assert GoldenOwned(repo, parts[1]);
      forall directory | IsGoldenOf(relative, directory) ensures directory == parts[1] {
        OneGoldenDirectory(relative, directory);
      }
    }
  }

  /** A diff that can be executed runs every scenario that some path asks for, or that a path that needs everything implies. */
  lemma PlanRunsWhatIsAsked(repo: Repo, paths: seq<string>, p: string, s: string)
    requires Valid(repo.web) && !StrangeDiff(repo, paths) && p in paths
    requires s in repo.web.scenarios && Seen(repo, p) && (NeedsEverything(repo, p) || AsksFor(repo, p, s))
    ensures s in Runs(repo.web, WebPlan(repo, paths))
  {
    hide VerdictOn, NeedsEverything, AsksFor, Runs, Join, Valid, Strange, Demands;
    VerdictsAreKnown(repo, paths);
    var v := VerdictOn(repo, p);
    assert v in Verdicts(repo, paths);
    NeedsFullIff(repo, p);
    JoinRunsDemands(repo.web, Verdicts(repo, paths), v);
    if NeedsEverything(repo, p) {
      FullDemands(repo.web);
    } else if p in repo.web.sharedInputs {
      SharedDemands(repo, p, s);
    } else {
      DemandsIff(repo, p, s);
    }
  }

  lemma FullDemands(policy: Policy)
    ensures Demands(policy, NeedsFull) == policy.scenarios.Keys
  {
  }

  lemma SharedDemands(repo: Repo, p: string, s: string)
    requires Valid(repo.web) && !NeedsEverything(repo, p) && p in repo.web.sharedInputs && AsksFor(repo, p, s)
    ensures s in Demands(repo.web, VerdictOn(repo, p))
  {
    hide S.IsDependencyPath, StartsWithAny, S.IsInertProsePath, WellNamed, Inherited;
  }

  /** All that the lane sees of the diff are shared inputs and web test files. */
  ghost predicate OnlyExactPaths(repo: Repo, paths: seq<string>) {
    forall p | p in paths && Seen(repo, p) :: p in repo.web.sharedInputs || StartsWith(p, WEB_TESTS_ROOT)
  }

  ghost predicate Asked(repo: Repo, paths: seq<string>, s: string) {
    exists p | p in paths :: Seen(repo, p) && AsksFor(repo, p, s)
  }

  /** What a focused lane runs: the smokes, and what some path asks for; unless the diff is exact, also everything in the same
      group as a scenario that is asked for. */
  lemma FocusedRunsIff(repo: Repo, paths: seq<string>, s: string)
    requires Valid(repo.web) && !StrangeDiff(repo, paths) && WebPlan(repo, paths).mode == Focused && s in repo.web.scenarios
    ensures s in Runs(repo.web, WebPlan(repo, paths)) <==>
              || s in repo.web.smokeScenarios || Asked(repo, paths, s)
              || (!OnlyExactPaths(repo, paths)
                  && exists other :: Asked(repo, paths, other) && repo.web.scenarios[other] == repo.web.scenarios[s])
  {
    hide VerdictOn, Valid, Strange, AsksFor, Demands, WellNamed, Seen;
    var vs := Verdicts(repo, paths);
    VerdictsAreKnown(repo, paths);
    JoinIsWellShaped(repo.web, vs);
    ExactIff(repo, paths);
    AskedIff(repo, paths, s);
    if OnlyExactPaths(repo, paths) {
      ExactRuns(repo.web, vs, s);
    } else {
      GroupRuns(repo.web, vs, s);
      forall other ensures Asked(repo, paths, other) <==> exists v | v in vs :: other in Demands(repo.web, v) {
        AskedIff(repo, paths, other);
      }
    }
  }

  lemma ExactIff(repo: Repo, paths: seq<string>)
    requires NeedsFull !in Verdicts(repo, paths) && Valid(repo.web)
    ensures Exact(Verdicts(repo, paths)) <==> OnlyExactPaths(repo, paths)
  {
    hide VerdictOn, Seen, Valid;
    forall p | p in paths ensures VerdictOn(repo, p).Reaches? <==>
        Seen(repo, p) && p !in repo.web.sharedInputs && !StartsWith(p, WEB_TESTS_ROOT)
    {
      assert VerdictOn(repo, p) in Verdicts(repo, paths);
      ReachesIff(repo, p);
    }
  }

  lemma ReachesIff(repo: Repo, p: string)
    requires !VerdictOn(repo, p).NeedsFull?
    ensures VerdictOn(repo, p).Reaches? <==> Seen(repo, p) && p !in repo.web.sharedInputs && !StartsWith(p, WEB_TESTS_ROOT)
  {
    hide S.IsInertProsePath, S.IsDependencyPath, StartsWithAny, RouteWebTestPath, FirstUnknown, S.IsWebIrrelevantPath, S.ScopedPackage;
  }

  lemma AskedIff(repo: Repo, paths: seq<string>, s: string)
    requires Valid(repo.web) && NeedsFull !in Verdicts(repo, paths)
    ensures Asked(repo, paths, s) <==> exists v | v in Verdicts(repo, paths) :: s in Demands(repo.web, v)
  {
    hide VerdictOn, AsksFor, Demands, Valid, NeedsEverything, Seen;
    forall p | p in paths ensures s in Demands(repo.web, VerdictOn(repo, p)) <==> Seen(repo, p) && AsksFor(repo, p, s) {
      assert VerdictOn(repo, p) in Verdicts(repo, paths);
      NeedsFullIff(repo, p);
      AskedOf(repo, p, s);
    }
  }

  lemma AskedOf(repo: Repo, p: string, s: string)
    requires Valid(repo.web) && !NeedsEverything(repo, p)
    ensures s in Demands(repo.web, VerdictOn(repo, p)) <==> Seen(repo, p) && AsksFor(repo, p, s)
  {
    hide S.IsInertProsePath, S.IsDependencyPath, StartsWithAny, RouteWebTestPath, FirstUnknown, S.IsWebIrrelevantPath, S.ScopedPackage,
         NeedsEverything, WellNamed, Inherited;
    NeedsFullIff(repo, p);
    VerdictIsKnown(repo, p);
    if !S.IsInertProsePath(repo.scope, p) {
      DemandsIff(repo, p, s);
    } else if p in repo.web.sharedInputs {
      assert VerdictOn(repo, p) == Owned(repo.web.sharedInputs[p]);
      DemandsOfOwned(repo.web, repo.web.sharedInputs[p], s);
    } else {
      assert VerdictOn(repo, p) == Ignored;
    }
  }

  lemma ExactRuns(policy: Policy, vs: set<Verdict>, s: string)
    requires Exact(vs) && Join(policy, vs).mode == Focused && Executable(policy, Join(policy, vs)) && s in policy.scenarios
    ensures s in Runs(policy, Join(policy, vs)) <==> s in policy.smokeScenarios || exists v | v in vs :: s in Demands(policy, v)
  {
    hide SmokesRegistered;
    ExactIsKnown(policy, vs);
    assert forall v | v in vs :: s in Demands(policy, v) <==> s in ScenariosOf(v);
  }

  lemma GroupRuns(policy: Policy, vs: set<Verdict>, s: string)
    requires !Exact(vs) && Join(policy, vs).mode == Focused && Executable(policy, Join(policy, vs)) && s in policy.scenarios
    ensures s in Runs(policy, Join(policy, vs)) <==>
              || s in policy.smokeScenarios || (exists v | v in vs :: s in Demands(policy, v))
              || exists other, v :: v in vs && other in Demands(policy, v) && policy.scenarios[other] == policy.scenarios[s]
  {
    hide SmokesRegistered;
    var g := policy.scenarios[s];
    forall v | v in vs
      ensures g in GroupsOf(policy, v) <==> exists other :: other in Demands(policy, v) && policy.scenarios[other] == g
    {
      if g in GroupsOf(policy, v) && v.Reaches? { assert s in Demands(policy, v); }
      if g in GroupsOf(policy, v) && v.Owned? {
        var owner :| owner in v.owners && owner in policy.scenarios && policy.scenarios[owner] == g;
        assert owner in Demands(policy, v);
      }
      assert !v.NeedsFull?;
    }
  }

  /** A path that asks for no group and no scenario. */
  ghost predicate AsksForNothing(repo: Repo, p: string) {
    !Seen(repo, p) || (p !in repo.web.sharedInputs && !StartsWith(p, WEB_TESTS_ROOT) && !NeedsEverything(repo, p)
                       && (S.ScopedPackage(p).Some? ==> S.ScopedPackage(p).value !in repo.web.packages))
  }

  /** The browser lane is skipped exactly for a non-empty diff all of whose paths ask for nothing. */
  lemma SkipPlanIff(repo: Repo, paths: seq<string>)
    requires Valid(repo.web)
    ensures WebPlan(repo, paths) == SKIP_WEB_VERIFICATION <==> paths != [] && forall p | p in paths :: AsksForNothing(repo, p)
  {
    hide VerdictOn, AsksForNothing, Valid, GroupsOf, StraysOf;
    var vs := Verdicts(repo, paths);
    forall p | p in paths ensures Idle(repo.web, VerdictOn(repo, p)) <==> AsksForNothing(repo, p) {
      IdleIff(repo, p);
    }
    if paths != [] { assert VerdictOn(repo, paths[0]) in vs; }
    IdleJoin(repo.web, vs);
    assert forall v | v in vs :: exists p | p in paths :: VerdictOn(repo, p) == v;
  }

  ghost predicate Idle(policy: Policy, v: Verdict) {
    !v.NeedsFull? && GroupsOf(policy, v) == {} && StraysOf(policy, v) == {}
  }

  lemma IdleJoin(policy: Policy, vs: set<Verdict>)
    ensures Join(policy, vs) == SKIP_WEB_VERIFICATION <==> vs != {} && forall v | v in vs :: Idle(policy, v)
  {
    hide GroupsOf, StraysOf, SmokesRegistered;
    if v :| v in vs && GroupsOf(policy, v) != {} {
      var g :| g in GroupsOf(policy, v);
      assert g in JoinedGroups(policy, vs);
    }
    if v :| v in vs && StraysOf(policy, v) != {} {
      var s :| s in StraysOf(policy, v);
      assert s in JoinedStrays(policy, vs);
    }
  }

  lemma IdleIff(repo: Repo, p: string)
    requires Valid(repo.web)
    ensures Idle(repo.web, VerdictOn(repo, p)) <==> AsksForNothing(repo, p)
  {
    hide S.IsInertProsePath, S.IsDependencyPath, StartsWithAny, RouteWebTestPath, OrphanTest, FirstUnknown, S.IsWebIrrelevantPath,
         S.ScopedPackage, WellNamed, Inherited, NeedsEverything;
    NeedsFullIff(repo, p);
    var v := VerdictOn(repo, p);
    VerdictIsKnown(repo, p);
    if v.Owned? {
      OwnedIsBusy(repo, p);
    } else if p in repo.web.sharedInputs {
      assert v.NeedsFull?;
    } else if Seen(repo, p) && StartsWith(p, WEB_TESTS_ROOT) {
      OrphanIff(repo, p);
    }
    if v.Reaches? && S.ScopedPackage(p).Some? && S.ScopedPackage(p).value in repo.web.packages {
      MappedReaches(repo.web, repo.web.packages[S.ScopedPackage(p).value]);
    }
  }

  lemma MappedReaches(policy: Policy, mapping: Mapping)
    requires policy.groups != [] && (mapping.Groups? ==> mapping.names != [])
    ensures ExpandPackageGroups(policy, mapping) != {}
  {
    match mapping
    case All =>
      assert policy.groups[0] in policy.groups;
      assert policy.groups[0] in ExpandPackageGroups(policy, mapping);
    case Groups(names) =>
      assert names[0] in names;
      assert names[0] in ExpandPackageGroups(policy, mapping);
  }

  lemma OwnedIsBusy(repo: Repo, p: string)
    requires Valid(repo.web) && VerdictOn(repo, p).Owned?
    ensures !Idle(repo.web, VerdictOn(repo, p)) && !AsksForNothing(repo, p)
  {
    hide S.IsInertProsePath, S.IsDependencyPath, StartsWithAny, S.IsWebIrrelevantPath, S.ScopedPackage, WellNamed, Inherited,
         NeedsEverything, Split;
    var owners := VerdictOn(repo, p).owners;
    assert owners != [] && owners[0] in owners;
    if owners[0] in repo.web.scenarios {
      assert repo.web.scenarios[owners[0]] in GroupsOf(repo.web, Owned(owners));
    } else {
      assert owners[0] in StraysOf(repo.web, Owned(owners));
    }
  }

  lemma ScenarioIsNotProse(repo: Repo, scenario: string)
    requires ScenarioName(scenario)
    ensures !S.IsInertProsePath(repo.scope, WEB_TESTS_ROOT + scenario)
  {
    var path := WEB_TESTS_ROOT + scenario;
    assert EndsWith(path, ".ts") by {
      var suffix :| suffix in [".e2e.ts", ".snapshot.ts"] && EndsWith(scenario, suffix);
      assert suffix[|suffix| - 3..] == ".ts";
      assert path[|path| - 3..] == scenario[|scenario| - 3..] == suffix[|suffix| - 3..];
    }
    S.NotProse(path);
  }

  /** A changed scenario file is run, except where the policy declares the file a shared input of other scenarios
      only: then those run, unless it is a smoke scenario or its path needs the full inventory. */
  predicate RunsWhenChanged(repo: Repo, scenario: string) {
    var path := WEB_TESTS_ROOT + scenario;
    || path !in repo.web.sharedInputs || scenario in repo.web.sharedInputs[path]
    || scenario in repo.web.smokeScenarios || VerdictOn(repo, path).NeedsFull?
  }

  /** Every diff that touches a scenario file and whose plan can be executed runs that scenario, exactly under that condition. */
  lemma ChangedScenarioRunsIff(repo: Repo, scenario: string)
    requires Valid(repo.web) && SmokesRegistered(repo.web) && scenario in repo.web.scenarios
    ensures (forall paths: seq<string> | WEB_TESTS_ROOT + scenario in paths && !StrangeDiff(repo, paths) ::
               scenario in Runs(repo.web, WebPlan(repo, paths)))
            <==> RunsWhenChanged(repo, scenario)
  {
    hide VerdictOn, Valid, Runs, WebPlan, RunsWhenChanged, Strange;
    var path := WEB_TESTS_ROOT + scenario;
    ChangedAlone(repo, scenario);
    assert path in [path];
    if RunsWhenChanged(repo, scenario) {
      forall paths: seq<string> | path in paths && !StrangeDiff(repo, paths) ensures scenario in Runs(repo.web, WebPlan(repo, paths)) {
        PlanIsMonotone(repo, [path], paths);
      }
    }
  }

  lemma ChangedAlone(repo: Repo, scenario: string)
    requires Valid(repo.web) && SmokesRegistered(repo.web) && scenario in repo.web.scenarios
    ensures !StrangeDiff(repo, [WEB_TESTS_ROOT + scenario])
    ensures scenario in Runs(repo.web, WebPlan(repo, [WEB_TESTS_ROOT + scenario])) <==> RunsWhenChanged(repo, scenario)
  {
    hide VerdictOn, Join, WellNamed;
    var path := WEB_TESTS_ROOT + scenario;
    var v := VerdictOn(repo, path);
    ScenarioVerdict(repo, scenario);
    assert Verdicts(repo, [path]) == {v};
    if v.Owned? {
      OwnedAlone(repo.web, v.owners);
    } else {
      assert Join(repo.web, {v}) == FULL_WEB_VERIFICATION by { FullAlone(repo.web); }
    }
  }

  lemma FullAlone(policy: Policy)
    ensures Join(policy, {NeedsFull}) == FULL_WEB_VERIFICATION
  {
    assert NeedsFull in {NeedsFull};
  }

  /** A scenario file that does not need everything belongs to the owners of the shared input, or to itself. */
  lemma ScenarioVerdict(repo: Repo, scenario: string)
    requires Valid(repo.web) && scenario in repo.web.scenarios
    ensures var path := WEB_TESTS_ROOT + scenario;
            var v := VerdictOn(repo, path);
            && (v.NeedsFull? || v == Owned(if path in repo.web.sharedInputs then repo.web.sharedInputs[path] else [scenario]))
            && (v.Owned? ==> v.owners != [] && forall owner | owner in v.owners :: owner in repo.web.scenarios)
  {
    hide S.IsInertProsePath, S.IsDependencyPath, S.IsAdminUiPath, StartsWithAny, ScenarioName, RelativeFile;
    var path := WEB_TESTS_ROOT + scenario;
    ScenarioIsNotProse(repo, scenario);
    assert path[|WEB_TESTS_ROOT|..] == scenario;
    assert StartsWith(path, WEB_TESTS_ROOT);
  }

  lemma OwnedAlone(policy: Policy, owners: seq<string>)
    requires Valid(policy) && SmokesRegistered(policy) && owners != [] && forall owner | owner in owners :: owner in policy.scenarios
    ensures !Strange(policy, {Owned(owners)})
    ensures forall s :: s in Runs(policy, Join(policy, {Owned(owners)})) <==> s in owners || s in policy.smokeScenarios
  {
    hide WellNamed;
    var vs := {Owned(owners)};
    assert owners[0] in owners;
    assert policy.scenarios[owners[0]] in GroupsOf(policy, Owned(owners));
    assert policy.scenarios[owners[0]] in JoinedGroups(policy, vs);
    assert JoinedStrays(policy, vs) == {};
    assert Exact(vs);
    SmokesAre(policy);
    forall s ensures s in JoinedScenarios(vs) <==> s in owners {
      assert s in owners <==> s in ScenariosOf(Owned(owners));
    }
    assert owners[0] in JoinedScenarios(vs);
  }
}
