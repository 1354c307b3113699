/** Rules that add consumer lanes for inputs no import edge shows. */
module ConsumerRelations {
  import opened PathText

  datatype Lane = Python | Gateway | AdminUi | Android

  datatype Relation = Relation(id: string, paths: seq<string>, lanes: seq<Lane>)

  datatype Policy = Policy(standalonePrefixes: seq<string>, relations: seq<Relation>)

  datatype Reasons = Reasons(python: seq<string>, gateway: seq<string>, adminUi: seq<string>, android: seq<string>)
  {
    function For(lane: Lane): seq<string> {
      match lane
      case Python => python
      case Gateway => gateway
      case AdminUi => adminUi
      case Android => android
    }

    function Push(lane: Lane, id: string): (r: Reasons)
      ensures forall l :: r.For(l) == if l == lane then For(l) + [id] else For(l)
    {
      match lane
      case Python => this.(python := python + [id])
      case Gateway => this.(gateway := gateway + [id])
      case AdminUi => this.(adminUi := adminUi + [id])
      case Android => this.(android := android + [id])
    }
  }

  /** The first standalone prefix that holds the path. */
  function StandaloneOf(prefixes: seq<string>, path: string): (r: seq<string>)
    ensures |r| <= 1
    ensures r == [] <==> !StartsWithAny(path, prefixes)
  {
    if prefixes == [] then []
    else if StartsWith(path, prefixes[0]) then [prefixes[0]]
    else
      assert forall prefix :: prefix in prefixes <==> prefix == prefixes[0] || prefix in prefixes[1..];
      StandaloneOf(prefixes[1..], path)
  }

  /** A path inside a standalone tree only satisfies prefixes rooted inside that same tree. */
  predicate Claims(policy: Policy, path: string, prefix: string) {
    && InTree(path, prefix)
    && var standalone := StandaloneOf(policy.standalonePrefixes, path);
       standalone == [] || prefix + "/" == standalone[0] || StartsWith(prefix, standalone[0])
  }

  /** So a prefix above the standalone tree never claims a path inside it. */
  lemma StandaloneOwnTree(policy: Policy, path: string, prefix: string)
    requires Claims(policy, path, prefix) && StartsWithAny(path, policy.standalonePrefixes)
    ensures exists tree | tree in policy.standalonePrefixes :: StartsWith(path, tree) && StartsWith(prefix + "/", tree)
  {
    var standalone := StandaloneOf(policy.standalonePrefixes, path);
    FirstStandalone(policy.standalonePrefixes, path);
    if StartsWith(prefix, standalone[0]) {
      assert StartsWith(prefix + "/", standalone[0]);
    }
  }

  lemma {:induction false} FirstStandalone(prefixes: seq<string>, path: string)
    requires StandaloneOf(prefixes, path) != []
    ensures StandaloneOf(prefixes, path)[0] in prefixes && StartsWith(path, StandaloneOf(prefixes, path)[0])
  {
    if !StartsWith(path, prefixes[0]) { FirstStandalone(prefixes[1..], path); }
  }

  /** Outside the standalone trees a prefix claims what lies in its tree; inside the first matching one, only if the prefix is
      rooted there too. */
  lemma ClaimsIff(policy: Policy, path: string, prefix: string, k: nat)
    requires k <= |policy.standalonePrefixes|
    requires forall j | 0 <= j < k :: !StartsWith(path, policy.standalonePrefixes[j])
    requires k < |policy.standalonePrefixes| ==> StartsWith(path, policy.standalonePrefixes[k])
    ensures Claims(policy, path, prefix) <==>
              && (path == prefix || StartsWith(path, prefix + "/"))
              && (k < |policy.standalonePrefixes| ==> StartsWith(prefix + "/", policy.standalonePrefixes[k]))
  {
    StandaloneIs(policy.standalonePrefixes, path, k);
    if k < |policy.standalonePrefixes| {
      var tree := policy.standalonePrefixes[k];
      assert StartsWith(prefix, tree) ==> (prefix + "/")[..|tree|] == prefix[..|tree|] == tree;
      assert StartsWith(prefix + "/", tree) && |tree| <= |prefix| ==> prefix[..|tree|] == (prefix + "/")[..|tree|];
      assert StartsWith(prefix + "/", tree) && |tree| > |prefix| ==> prefix + "/" == (prefix + "/")[..|tree|];
    }
  }

  lemma {:induction false} StandaloneIs(prefixes: seq<string>, path: string, k: nat)
    requires k <= |prefixes| && forall j | 0 <= j < k :: !StartsWith(path, prefixes[j])
    requires k < |prefixes| ==> StartsWith(path, prefixes[k])
    ensures StandaloneOf(prefixes, path) == if k < |prefixes| then [prefixes[k]] else []
  {
    if k > 0 { StandaloneIs(prefixes[1..], path, k - 1); }
  }

  predicate ClaimedBy(policy: Policy, path: string, relation: Relation) {
    exists prefix | prefix in relation.paths :: Claims(policy, path, prefix)
  }

  predicate Fires(policy: Policy, relation: Relation, paths: seq<string>) {
    exists path | path in paths :: ClaimedBy(policy, path, relation)
  }

  predicate YamlName(name: string, stem: string) {
    StartsWith(name, stem) && EndsWithAny(name[|stem|..], [".yml", ".yaml"])
  }

  predicate ModuleName(name: string, stem: string) {
    StartsWith(name, stem) && EndsWithAny(name[|stem|..], [".ts", ".cts", ".mts"])
  }

  /** Overlays, workers and launchers change the runtime composition without an import edge. */
  predicate DynamicComposition(path: string) {
    && !StartsWith(path, "apps/android-shell/")
    && var name := LastSegment(path);
       || YamlName(name, "cordis")
       || ('/' in path && (ModuleName(name, "worker") || ModuleName(name, "subprocess")))
  }

  predicate Composes(paths: seq<string>) {
    exists path | path in paths :: DynamicComposition(path)
  }

  /** How often a relation names a lane is how often its rule is listed. */
  function Listed(relation: Relation, lanes: seq<Lane>, lane: Lane): seq<string> {
    if lanes == [] then []
    else Listed(relation, lanes[..|lanes| - 1], lane) + if lanes[|lanes| - 1] == lane then [relation.id] else []
  }

  /** The rules that justify `lane`, in policy order. */
  function Rules(policy: Policy, relations: seq<Relation>, paths: seq<string>, lane: Lane): seq<string> {
    if relations == [] then []
    else
      var last := relations[|relations| - 1];
      Rules(policy, relations[..|relations| - 1], paths, lane)
      + if Fires(policy, last, paths) then Listed(last, last.lanes, lane) else []
  }

  function ReasonsFor(policy: Policy, paths: seq<string>, lane: Lane): seq<string> {
    Rules(policy, policy.relations, paths, lane) + if Composes(paths) then ["dynamic-composition"] else []
  }

  method PushAll(before: Reasons, relation: Relation) returns (r: Reasons)
    ensures forall lane :: r.For(lane) == before.For(lane) + Listed(relation, relation.lanes, lane)
  {
    r := before;
    for j := 0 to |relation.lanes|
      invariant forall lane :: r.For(lane) == before.For(lane) + Listed(relation, relation.lanes[..j], lane)
    {
      assert relation.lanes[..j + 1][..j] == relation.lanes[..j];
      r := r.Push(relation.lanes[j], relation.id);
    }
    assert relation.lanes[..|relation.lanes|] == relation.lanes;
  }

  /** The rules of the first `i` relations, lane by lane. */
  ghost predicate Collected(policy: Policy, paths: seq<string>, i: nat, r: Reasons)
    requires i <= |policy.relations|
  {
    forall lane :: r.For(lane) == Rules(policy, policy.relations[..i], paths, lane)
  }

  lemma RulesSnoc(policy: Policy, paths: seq<string>, i: nat, lane: Lane)
    requires i < |policy.relations|
    ensures var last := policy.relations[i];
            Rules(policy, policy.relations[..i + 1], paths, lane)
            == Rules(policy, policy.relations[..i], paths, lane)
               + if Fires(policy, last, paths) then Listed(last, last.lanes, lane) else []
  {
    assert policy.relations[..i + 1][..i] == policy.relations[..i];
  }

  method ConsumerReasons(policy: Policy, paths: seq<string>) returns (r: Reasons)
    ensures forall lane :: r.For(lane) == ReasonsFor(policy, paths, lane)
  {
    r := Reasons([], [], [], []);
    for i := 0 to |policy.relations|
      invariant Collected(policy, paths, i, r)
    {
      forall lane { RulesSnoc(policy, paths, i, lane); }
      if Fires(policy, policy.relations[i], paths) {
        r := PushAll(r, policy.relations[i]);
      }
    }
    assert policy.relations[..|policy.relations|] == policy.relations;
    if Composes(paths) {
      r := r.Push(Python, "dynamic-composition").Push(Gateway, "dynamic-composition")
            .Push(AdminUi, "dynamic-composition").Push(Android, "dynamic-composition");
    }
  }

  ghost predicate Within(ps: seq<string>, qs: seq<string>) {
    forall p | p in ps :: p in qs
  }

  /** A larger diff keeps every rule of the smaller one. */
  lemma {:induction false} RulesGrow(policy: Policy, relations: seq<Relation>, ps: seq<string>, qs: seq<string>, lane: Lane)
    requires Within(ps, qs)
    ensures multiset(Rules(policy, relations, ps, lane)) <= multiset(Rules(policy, relations, qs, lane))
  {
    if relations != [] {
      RulesGrow(policy, relations[..|relations| - 1], ps, qs, lane);
    }
  }

  lemma ReasonsGrow(policy: Policy, ps: seq<string>, qs: seq<string>, lane: Lane)
    requires Within(ps, qs)
    ensures multiset(ReasonsFor(policy, ps, lane)) <= multiset(ReasonsFor(policy, qs, lane))
    ensures ReasonsFor(policy, ps, lane) != [] ==> ReasonsFor(policy, qs, lane) != []
  {
    RulesGrow(policy, policy.relations, ps, qs, lane);
    if ReasonsFor(policy, ps, lane) != [] {
      assert ReasonsFor(policy, ps, lane)[0] in multiset(ReasonsFor(policy, qs, lane));
    }
  }

  /** A rule is listed for a lane exactly when some path is claimed by a relation naming both. */
  lemma {:induction false} RuleIsJustified(policy: Policy, relations: seq<Relation>, paths: seq<string>, lane: Lane, id: string)
    ensures id in Rules(policy, relations, paths, lane) <==>
            exists relation | relation in relations :: relation.id == id && lane in relation.lanes && Fires(policy, relation, paths)
  {
    if relations != [] {
      var last := relations[|relations| - 1];
      RuleIsJustified(policy, relations[..|relations| - 1], paths, lane, id);
      ListedNames(last, last.lanes, lane, id);
      assert forall r :: r in relations <==> r == last || r in relations[..|relations| - 1];
    }
  }

  /** Everything that is listed for a lane: the rules that fire for it, and dynamic composition. */
  lemma ReasonsIff(policy: Policy, paths: seq<string>, lane: Lane, id: string)
    ensures id in ReasonsFor(policy, paths, lane) <==>
              || (id == "dynamic-composition" && exists path | path in paths :: DynamicComposition(path))
              || exists relation, path, prefix ::
                   && relation in policy.relations && path in paths && prefix in relation.paths
                   && relation.id == id && lane in relation.lanes && Claims(policy, path, prefix)
  {
    hide Claims, DynamicComposition;
    RuleIsJustified(policy, policy.relations, paths, lane, id);
  }

  lemma {:induction false} ListedNames(relation: Relation, lanes: seq<Lane>, lane: Lane, id: string)
    ensures id in Listed(relation, lanes, lane) <==> id == relation.id && lane in lanes
  {
    if lanes != [] { ListedNames(relation, lanes[..|lanes| - 1], lane, id); }
  }

  lemma {:induction false} NothingFires(policy: Policy, relations: seq<Relation>, lane: Lane)
    ensures Rules(policy, relations, [], lane) == []
  {
    if relations != [] { NothingFires(policy, relations[..|relations| - 1], lane); }
  }

  lemma NothingNoReasons(policy: Policy, lane: Lane)
    ensures ReasonsFor(policy, [], lane) == []
  {
    NothingFires(policy, policy.relations, lane);
  }
}
