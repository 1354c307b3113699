/** Additional pre-merge proofs that a changed path set requires. */
module PrProofs {
  import opened PathText
  import Sorting

  datatype Proof = ReleasePack | VendorPack | NativePack | Sandbox | Provider | PiAi | NativeWindows

  datatype Acceptance = Required | Unsupported

  datatype Reason =
    | WorkflowInput(path: string) | SharedRuntimeInput(path: string) | NativeRuntime(path: string)
    | ConfinementConsumer(path: string) | ProviderConsumer(path: string) | ProtocolConsumer(path: string)
    | ProofOwner(path: string) | UnknownImpact(path: string) | UnknownOrEmptyDiff

  /** The declarative inputs of the rules; `glob(path, pattern)` is the platform's matcher and
      `workflows` the push paths of the workflow files that own a proof. */
  datatype Policy = Policy(
    workflows: map<Proof, seq<string>>,
    glob: (string, string) -> bool,
    modelInputPrefixes: seq<string>,
    modelInputSuffixes: seq<string>,
    inertPrefixes: seq<string>,
    scopedPackageGroups: seq<string>)

  const WORKFLOW_OWNERS: set<Proof> := {ReleasePack, VendorPack, NativePack, Sandbox}

  // ----- workflow patterns: the last match decides

  function Bare(pattern: string): string {
    if Excludes(pattern) then pattern[1..] else pattern
  }

  /** A leading exclamation mark excludes; the rest, or the whole pattern without one, is matched. */
  lemma PatternParts(pattern: string)
    ensures Excludes(pattern) <==> exists rest :: pattern == "!" + rest
    ensures forall rest | pattern == "!" + rest :: Bare(pattern) == rest
    ensures !Excludes(pattern) ==> Bare(pattern) == pattern
  {
    if Excludes(pattern) { assert pattern == "!" + pattern[1..]; }
  }

  predicate Matches(c: Policy, path: string, pattern: string) {
    c.glob(path, Bare(pattern))
  }

  predicate Excludes(pattern: string) {
    StartsWith(pattern, "!")
  }

  /** Pattern `i` takes the path in and no later pattern takes it out again. */
  predicate TakesIn(c: Policy, path: string, patterns: seq<string>, i: nat) {
    && i < |patterns| && Matches(c, path, patterns[i]) && !Excludes(patterns[i])
    && forall j | i < j < |patterns| :: !(Matches(c, path, patterns[j]) && Excludes(patterns[j]))
  }

  predicate Selected(c: Policy, path: string, patterns: seq<string>) {
    exists i | 0 <= i < |patterns| :: TakesIn(c, path, patterns, i)
  }

  method MatchesWorkflow(c: Policy, path: string, patterns: seq<string>) returns (matched: bool)
    ensures matched <==> Selected(c, path, patterns)
  {
    matched := false;
    for k := 0 to |patterns|
      invariant matched <==> Selected(c, path, patterns[..k])
    {
      SelectedSnoc(c, path, patterns, k);
      if c.glob(path, Bare(patterns[k])) { matched := !Excludes(patterns[k]); }
    }
    assert patterns[..|patterns|] == patterns;
  }

  lemma SelectedSnoc(c: Policy, path: string, patterns: seq<string>, k: nat)
    requires k < |patterns|
    ensures Selected(c, path, patterns[..k + 1]) <==>
              if Matches(c, path, patterns[k]) then !Excludes(patterns[k]) else Selected(c, path, patterns[..k])
  {
    hide Matches, Excludes;
    var before, after := patterns[..k], patterns[..k + 1];
    assert after == before + [patterns[k]];
    forall i | 0 <= i < k ensures TakesIn(c, path, after, i) <==>
        TakesIn(c, path, before, i) && !(Matches(c, path, patterns[k]) && Excludes(patterns[k]))
    {
      assert forall j | 0 <= j < k :: after[j] == before[j];
      assert after[k] == patterns[k];
    }
    assert TakesIn(c, path, after, k) <==> Matches(c, path, patterns[k]) && !Excludes(patterns[k]);
  }

  // ----- rules on one path

  predicate ModelInput(c: Policy, path: string) {
    StartsWithAny(path, c.modelInputPrefixes) || EndsWithAny(path, c.modelInputSuffixes)
  }

  predicate RuntimeInput(c: Policy, path: string) {
    || ModelInput(c, path) || path == "vendor/README.md"
    || StartsWith(path, "snapshots/") || Contains(path, "/snapshots/")
    || EndsWithAny(path, [".expected.md", ".expected.json", ".expected.txt", ".expected.html"])
    || (!EndsWithAny(path, [".md", ".mdx", ".i18n.yaml"]) && !StartsWithAny(path, c.inertPrefixes))
  }

  predicate CordisOverlay(name: string) {
    exists i | 0 <= i <= |name| - 6 :: StartsWith(name[i..], "cordis") && EndsWithAny(name[i + 6..], [".yml", ".yaml"])
  }

  /** A dot matches no line terminator. */
  predicate OneLine(text: string) {
    forall c | c in text :: c !in "\n\r\U{2028}\U{2029}"
  }

  predicate SharedInput(c: Policy, path: string) {
    || StartsWithAny(path, ["vendor/", "packages/api/", "packages/core/", "packages/session/", "packages/sdk/",
                            "packages/boot/", "packages/bundle/", "packages/preset/", "packages/typert/"])
    || InTree(path, "packages/host/apiproxy")
    || CordisOverlay(LastSegment(path))
    || path in ["package.json", "pnpm-lock.yaml", "pnpm-workspace.yaml"]
    || (StartsWith(path, "tsconfig") && EndsWith(path[8..], ".json") && OneLine(path))
    || InTree(path, "apps/cli")
    || ModelInput(c, path)
  }

  predicate NativeInput(path: string) {
    StartsWithAny(path, ["packages/sandbox/", "packages/shell/", "packages/subprocess/", "packages/terminal/", "packages/fs/",
                         "native/"])
  }

  predicate ProviderInput(path: string) {
    || StartsWithAny(path, ["packages/llm/", "packages/credentials/", "packages/settings/", "packages/compaction/",
                            "packages/subagent/"])
    || InTree(path, "plugins/dsh-model-governance")
  }

  predicate ProtocolInput(path: string) {
    || InTree(path, "packages/llm/llm-pi-ai") || InTree(path, "packages/llm/llm")
    || InTree(path, "packages/credentials") || InTree(path, "packages/settings")
    || InTree(path, "plugins/dsh-model-governance")
  }

  const PROVIDER_WORKFLOW := ".github/workflows/e2e.yml"
  const PI_AI_WORKFLOW := ".github/workflows/pi-ai-provider-e2e.yml"

  predicate ScopedGroup(c: Policy, path: string) {
    var parts := Split(path);
    |parts| >= 3 && parts[0] == "packages" && parts[1] != "" && parts[1] in c.scopedPackageGroups
  }

  predicate IndependentTree(path: string) {
    InTree(path, "python") || InTree(path, "gateway") || InTree(path, "apps/web") || InTree(path, "apps/android-shell")
  }

  predicate WorkflowMatch(c: Policy, path: string, proof: Proof) {
    proof in WORKFLOW_OWNERS && proof in c.workflows && Selected(c, path, c.workflows[proof])
  }

  /** The broad publish set owns packaging, not a new package's runtime impact. */
  predicate WorkflowExplains(path: string, proof: Proof) {
    proof != ReleasePack || !StartsWithAny(path, ["packages/", "apps/", "plugins/"])
  }

  /** Which rules fire on a path: the workflows that list it (`owned`, and whether one of them also
      explains its runtime impact), and the hand-written ones. */
  datatype Rules = Rules(owned: set<Proof>, explained: bool, shared: bool, native: bool, files: bool, provider: bool,
                         protocol: bool, providerWorkflow: bool, piAiWorkflow: bool, placed: bool)

  function RulesOn(c: Policy, path: string): Rules {
    var owned := set proof | proof in WORKFLOW_OWNERS && WorkflowMatch(c, path, proof);
    Rules(owned, exists proof | proof in owned :: WorkflowExplains(path, proof),
          SharedInput(c, path), NativeInput(path), StartsWith(path, "packages/fs/"), ProviderInput(path), ProtocolInput(path),
          path == PROVIDER_WORKFLOW, path == PI_AI_WORKFLOW, ScopedGroup(c, path) || IndependentTree(path))
  }

  /** Some rule recognises the path. */
  predicate Known(r: Rules) {
    r.explained || r.shared || r.native || r.provider || r.providerWorkflow || r.piAiWorkflow || r.placed
  }

  function If(condition: bool, reason: Reason): seq<Reason> {
    if condition then [reason] else []
  }

  /** Rules that name single proofs. */
  function SpecialReasons(r: Rules, path: string, proof: Proof): seq<Reason> {
    match proof
    case NativeWindows => If(r.native, NativeRuntime(path))
    case Sandbox => If(r.native && !r.files, ConfinementConsumer(path))
    case Provider => If(r.provider, ProviderConsumer(path)) + If(r.providerWorkflow, ProofOwner(path))
    case PiAi => If(r.protocol, ProtocolConsumer(path)) + If(r.piAiWorkflow, ProofOwner(path))
    case _ => []
  }

  /** Why one path affects one proof. */
  function PathReasons(r: Rules, path: string, proof: Proof): seq<Reason> {
    If(proof in r.owned, WorkflowInput(path)) + If(r.shared, SharedRuntimeInput(path))
    + SpecialReasons(r, path, proof) + If(!Known(r), UnknownImpact(path))
  }

  /** How paths are judged, and whether the second provider proof is accepted at all. */
  datatype Config = Config(runtimeInput: string -> bool, rules: string -> Rules, azureOpenai: Acceptance)

  function Configure(policy: Policy, azureOpenai: Acceptance): Config {
    Config(path => RuntimeInput(policy, path), path => RulesOn(policy, path), azureOpenai)
  }

  function AllReasons(c: Config, paths: seq<string>, proof: Proof): seq<Reason> {
    if paths == [] then []
    else
      var k := |paths| - 1;
      AllReasons(c, paths[..k], proof) + if c.runtimeInput(paths[k]) then PathReasons(c.rules(paths[k]), paths[k], proof) else []
  }

  // ----- the changed paths

  function Normalized(paths: seq<string>): (r: seq<string>)
    ensures forall q :: q in r <==> exists p | p in paths :: q == Slashes(p)
    ensures r == [] <==> paths == []
  {
    if paths == [] then []
    else
      var rest, q := Normalized(paths[1..]), Slashes(paths[0]);
      assert forall p :: p in paths <==> p == paths[0] || p in paths[1..];
      if q in rest then rest else [q] + rest
  }

  /** The distinct normalised paths in code-unit order. */
  function Changed(paths: seq<string>, unitOrder: (string, string) -> bool): seq<string> {
    Sorting.SortBy(Normalized(paths), unitOrder)
  }

  lemma ChangedMembers(paths: seq<string>, unitOrder: (string, string) -> bool)
    ensures forall q :: q in Changed(paths, unitOrder) <==> exists p | p in paths :: q == Slashes(p)
    ensures Changed(paths, unitOrder) == [] <==> paths == []
  {
    var n := Normalized(paths);
    Sorting.SortPermutes(n, unitOrder);
    forall q ensures q in Changed(paths, unitOrder) <==> q in n {
      assert q in n <==> q in multiset(n);
      assert q in Changed(paths, unitOrder) <==> q in multiset(Changed(paths, unitOrder));
    }
  }

  ghost function ReasonsFor(c: Config, paths: seq<string>, unitOrder: (string, string) -> bool, proof: Proof): seq<Reason> {
    AllReasons(c, Changed(paths, unitOrder), proof) + If(paths == [], UnknownOrEmptyDiff)
  }

  // ----- the selection

  datatype Status = NotSupported | Withheld

  datatype Unsatisfied = Unsatisfied(proof: Proof, status: Status, affected: bool, reasons: seq<Reason>)

  datatype Proofs = Proofs(required: set<Proof>, reasons: Book, unsupported: seq<Unsatisfied>)

  /** The reasons collected so far, proof by proof. */
  datatype Book = Book(releasePack: seq<Reason>, vendorPack: seq<Reason>, nativePack: seq<Reason>, sandbox: seq<Reason>,
                       provider: seq<Reason>, piAi: seq<Reason>, nativeWindows: seq<Reason>)
  {
    function For(proof: Proof): seq<Reason> {
      match proof
      case ReleasePack => releasePack
      case VendorPack => vendorPack
      case NativePack => nativePack
      case Sandbox => sandbox
      case Provider => provider
      case PiAi => piAi
      case NativeWindows => nativeWindows
    }

    function AddToEach(proofs: set<Proof>, more: seq<Reason>): (r: Book)
      ensures forall p: Proof :: r.For(p) == if p in proofs then For(p) + more else For(p)
    {
      var pick := (p: Proof) => if p in proofs then For(p) + more else For(p);
      Book(pick(ReleasePack), pick(VendorPack), pick(NativePack), pick(Sandbox), pick(Provider), pick(PiAi), pick(NativeWindows))
    }
  }

  const ALL_PROOFS: set<Proof> := {ReleasePack, VendorPack, NativePack, Sandbox, Provider, PiAi, NativeWindows}

  /** Pushes the reasons of one path, rule by rule; `known` is toggled as rules recognise it. */
  method AddReasons(r: Rules, path: string, before: Book) returns (book: Book)
    ensures forall p: Proof :: book.For(p) == before.For(p) + PathReasons(r, path, p)
  {
    var listed := before.AddToEach(r.owned, [WorkflowInput(path)]);
    var known := r.explained;
    var shared := listed;
    if r.shared {
      shared := shared.AddToEach(ALL_PROOFS, [SharedRuntimeInput(path)]);
      known := true;
    }
    var special, recognised := AddSpecial(r, path, shared);
    known := known || recognised;
    book := special;
    if !known { book := book.AddToEach(ALL_PROOFS, [UnknownImpact(path)]); }
    forall p: Proof ensures book.For(p) == before.For(p) + PathReasons(r, path, p) {
      Chain(before.For(p), If(p in r.owned, WorkflowInput(path)), If(r.shared, SharedRuntimeInput(path)),
            SpecialReasons(r, path, p), If(!Known(r), UnknownImpact(path)));
    }
  }

  lemma Chain(a: seq<Reason>, b: seq<Reason>, c: seq<Reason>, d: seq<Reason>, e: seq<Reason>)
    ensures a + b + c + d + e == a + (b + c + d + e)
    ensures b == [] ==> a + b == a
    ensures c == [] ==> a + b + c == a + b
    ensures e == [] ==> a + b + c + d + e == a + b + c + d
  {
  }

  method AddSpecial(r: Rules, path: string, before: Book) returns (book: Book, recognised: bool)
    ensures forall p: Proof :: book.For(p) == before.For(p) + SpecialReasons(r, path, p)
    ensures recognised <==> r.native || r.provider || r.providerWorkflow || r.piAiWorkflow || r.placed
  {
    var windows, sandbox, provider, piAi := before.nativeWindows, before.sandbox, before.provider, before.piAi;
    recognised := r.placed;
    if r.native {
      windows := windows + [NativeRuntime(path)];
      if !r.files { sandbox := sandbox + [ConfinementConsumer(path)]; }
      recognised := true;
    }
    if r.provider { provider := provider + [ProviderConsumer(path)]; recognised := true; }
    if r.protocol { piAi := piAi + [ProtocolConsumer(path)]; }
    if r.providerWorkflow { provider := provider + [ProofOwner(path)]; recognised := true; }
    if r.piAiWorkflow { piAi := piAi + [ProofOwner(path)]; recognised := true; }
    book := before.(nativeWindows := windows, sandbox := sandbox, provider := provider, piAi := piAi);
    assert windows == before.nativeWindows + SpecialReasons(r, path, NativeWindows);
    assert sandbox == before.sandbox + SpecialReasons(r, path, Sandbox);
    assert provider == before.provider + SpecialReasons(r, path, Provider);
    assert piAi == before.piAi + SpecialReasons(r, path, PiAi);
  }

  method CollectReasons(c: Config, changed: seq<string>) returns (book: Book)
    ensures forall p: Proof :: book.For(p) == AllReasons(c, changed, p) + If(changed == [], UnknownOrEmptyDiff)
  {
    book := Book([], [], [], [], [], [], []);
    for k := 0 to |changed|
      invariant forall p: Proof :: book.For(p) == AllReasons(c, changed[..k], p)
    {
      assert changed[..k + 1][..k] == changed[..k];
      if c.runtimeInput(changed[k]) {
        book := AddReasons(c.rules(changed[k]), changed[k], book);
      }
    }
    assert changed[..|changed|] == changed;
    if changed == [] { book := book.AddToEach(ALL_PROOFS, [UnknownOrEmptyDiff]); }
  }

  function RequiredBy(book: Book, azureOpenai: Acceptance, untrustedActor: bool): (r: set<Proof>)
    ensures forall p: Proof :: p in r <==>
              && book.For(p) != []
              && (p.Provider? || p.PiAi? ==> !untrustedActor)
              && (p.PiAi? ==> azureOpenai == Required)
  {
    (set p | p in {ReleasePack, VendorPack, NativePack, Sandbox, NativeWindows} && book.For(p) != [])
    + (if !untrustedActor && book.provider != [] then {Provider} else {})
    + (if !untrustedActor && azureOpenai == Required && book.piAi != [] then {PiAi} else {})
  }

  function Only(condition: bool, u: Unsatisfied): (r: seq<Unsatisfied>)
    ensures forall v :: v in r <==> condition && v == u
  {
    if condition then [u] else []
  }

  function NotRequired(book: Book, azureOpenai: Acceptance, untrustedActor: bool): (r: seq<Unsatisfied>)
    ensures forall u | u in r :: u.reasons == book.For(u.proof) && (u.affected <==> u.reasons != [])
  {
    Only(azureOpenai == Unsupported, Unsatisfied(PiAi, NotSupported, book.piAi != [], book.piAi))
    + Only(untrustedActor && book.provider != [], Unsatisfied(Provider, Withheld, true, book.provider))
    + Only(untrustedActor && book.piAi != [], Unsatisfied(PiAi, Withheld, true, book.piAi))
  }

  /** Required proofs with their reasons, and the provider impact that is not required. */
  method ClassifyCiPrProofs(c: Config, paths: seq<string>, untrustedActor: bool, unitOrder: (string, string) -> bool)
      returns (r: Proofs)
    ensures forall p: Proof :: r.reasons.For(p) == ReasonsFor(c, paths, unitOrder, p)
    ensures r.required == RequiredBy(r.reasons, c.azureOpenai, untrustedActor)
    ensures r.unsupported == NotRequired(r.reasons, c.azureOpenai, untrustedActor)
    ensures Unsupports(r.unsupported, r.reasons, c.azureOpenai, untrustedActor)
    ensures NothingLost(r)
  {
    hide Unsupports, NotRequired, ListedAs;
    ChangedMembers(paths, unitOrder);
    var book := CollectReasons(c, Changed(paths, unitOrder));
    UnsupportsExactly(book, c.azureOpenai, untrustedActor);
    r := Proofs(RequiredBy(book, c.azureOpenai, untrustedActor), book, NotRequired(book, c.azureOpenai, untrustedActor));
    forall p: Proof { NothingIsLost(book, c.azureOpenai, untrustedActor, p); }
  }

  /** The entries beside the required proofs: the second provider proof when it is not accepted, and what an untrusted
      actor's diff affects of the two provider proofs. */
  ghost predicate Unsupports(us: seq<Unsatisfied>, book: Book, azureOpenai: Acceptance, untrustedActor: bool) {
    forall u :: u in us <==>
      || (azureOpenai == Unsupported && u == Unsatisfied(PiAi, NotSupported, book.piAi != [], book.piAi))
      || (untrustedActor && book.provider != [] && u == Unsatisfied(Provider, Withheld, true, book.provider))
      || (untrustedActor && book.piAi != [] && u == Unsatisfied(PiAi, Withheld, true, book.piAi))
  }

  lemma UnsupportsExactly(book: Book, azureOpenai: Acceptance, untrustedActor: bool)
    ensures Unsupports(NotRequired(book, azureOpenai, untrustedActor), book, azureOpenai, untrustedActor)
  {
  }

  /** Some entry lists the proof as affected but unsupported or withheld. */
  ghost predicate ListedAs(unsupported: seq<Unsatisfied>, p: Proof) {
    exists u | u in unsupported :: u.proof == p && u.affected
  }

  /** A proof has a reason exactly when it is required, or listed as affected but unsupported or withheld. */
  ghost predicate NothingLost(r: Proofs) {
    forall p: Proof :: r.reasons.For(p) != [] <==> p in r.required || ListedAs(r.unsupported, p)
  }

  lemma NothingIsLost(book: Book, azureOpenai: Acceptance, untrustedActor: bool, p: Proof)
    ensures book.For(p) != [] <==>
            p in RequiredBy(book, azureOpenai, untrustedActor) || ListedAs(NotRequired(book, azureOpenai, untrustedActor), p)
  {
    var us := NotRequired(book, azureOpenai, untrustedActor);
    if p == PiAi && azureOpenai == Unsupported {
      assert Unsatisfied(PiAi, NotSupported, book.piAi != [], book.piAi) in us;
    } else if (p == PiAi || p == Provider) && untrustedActor && book.For(p) != [] {
      assert Unsatisfied(p, Withheld, true, book.For(p)) in us;
    }
  }

  // ----- what the selection guarantees

  predicate Affects(c: Config, path: string, proof: Proof) {
    c.runtimeInput(path) && PathReasons(c.rules(path), path, proof) != []
  }

  lemma {:induction false} ReasonsCome(c: Config, paths: seq<string>, proof: Proof)
    ensures AllReasons(c, paths, proof) != [] <==>
              exists p | p in paths :: Affects(c, p, proof)
  {
    if paths != [] {
      var k := |paths| - 1;
      ReasonsCome(c, paths[..k], proof);
      assert forall p :: p in paths <==> p == paths[k] || p in paths[..k];
      assert AllReasons(c, paths, proof) != [] <==> AllReasons(c, paths[..k], proof) != [] || Affects(c, paths[k], proof);
    }
  }

  /** Reasons exist for exactly the proofs that some changed runtime input affects, or for all on an empty diff. */
  lemma AffectedIff(c: Config, paths: seq<string>, unitOrder: (string, string) -> bool, proof: Proof)
    ensures ReasonsFor(c, paths, unitOrder, proof) != [] <==>
              paths == [] || exists p | p in paths :: Affects(c, Slashes(p), proof)
  {
    ChangedMembers(paths, unitOrder);
    ReasonsCome(c, Changed(paths, unitOrder), proof);
    if p :| p in paths && Affects(c, Slashes(p), proof) {
      assert Slashes(p) in Changed(paths, unitOrder);
    }
  }

  /** A runtime input that no rule recognises affects every proof. */
  lemma UnknownAffectsAll(c: Config, paths: seq<string>, unitOrder: (string, string) -> bool, path: string, proof: Proof)
    requires path in paths && c.runtimeInput(Slashes(path)) && !Known(c.rules(Slashes(path)))
    ensures ReasonsFor(c, paths, unitOrder, proof) != []
  {
    AffectedIff(c, paths, unitOrder, proof);
    assert UnknownImpact(Slashes(path)) in PathReasons(c.rules(Slashes(path)), Slashes(path), proof);
  }

  /** Growing a non-empty diff never drops a proof's last reason. */
  lemma ReasonsGrow(c: Config, ps: seq<string>, qs: seq<string>, unitOrder: (string, string) -> bool, proof: Proof)
    requires ps != [] && forall p | p in ps :: p in qs
    ensures ReasonsFor(c, ps, unitOrder, proof) != [] ==> ReasonsFor(c, qs, unitOrder, proof) != []
  {
    AffectedIff(c, ps, unitOrder, proof);
    AffectedIff(c, qs, unitOrder, proof);
  }

  /** For the same actor and acceptance a larger diff requires at least the same proofs, and lists at least the same
      proofs as affected but not required. */
  lemma RequiredGrows(c: Config, ps: seq<string>, qs: seq<string>, unitOrder: (string, string) -> bool, untrustedActor: bool,
                      few: Book, more: Book)
    requires ps != [] && forall p | p in ps :: p in qs
    requires forall p: Proof :: few.For(p) == ReasonsFor(c, ps, unitOrder, p) && more.For(p) == ReasonsFor(c, qs, unitOrder, p)
    ensures RequiredBy(few, c.azureOpenai, untrustedActor) <= RequiredBy(more, c.azureOpenai, untrustedActor)
    ensures forall p: Proof | ListedAs(NotRequired(few, c.azureOpenai, untrustedActor), p) ::
              ListedAs(NotRequired(more, c.azureOpenai, untrustedActor), p)
  {
    hide ReasonsFor, ListedAs;
    forall p: Proof ensures few.For(p) != [] ==> more.For(p) != [] {
      ReasonsGrow(c, ps, qs, unitOrder, p);
    }
    forall p: Proof | ListedAs(NotRequired(few, c.azureOpenai, untrustedActor), p)
      ensures ListedAs(NotRequired(more, c.azureOpenai, untrustedActor), p)
    {
      NothingIsLost(few, c.azureOpenai, untrustedActor, p);
      NothingIsLost(more, c.azureOpenai, untrustedActor, p);
      NeverBoth(few, c.azureOpenai, untrustedActor, p);
      NeverBoth(more, c.azureOpenai, untrustedActor, p);
    }
  }

  /** Which proofs are withheld or unsupported does not depend on the diff. */
  predicate Barred(azureOpenai: Acceptance, untrustedActor: bool, p: Proof) {
    (untrustedActor && (p == Provider || p == PiAi)) || (azureOpenai == Unsupported && p == PiAi)
  }

  lemma NeverBoth(book: Book, azureOpenai: Acceptance, untrustedActor: bool, p: Proof)
    ensures Barred(azureOpenai, untrustedActor, p) ==> p !in RequiredBy(book, azureOpenai, untrustedActor)
    ensures !Barred(azureOpenai, untrustedActor, p) ==> !ListedAs(NotRequired(book, azureOpenai, untrustedActor), p)
  {
  }

  /** Some rule says what the path is for. */
  predicate Recognised(policy: Policy, path: string) {
    || SharedInput(policy, path) || NativeInput(path) || ProviderInput(path)
    || path == ".github/workflows/e2e.yml" || path == ".github/workflows/pi-ai-provider-e2e.yml"
    || ScopedGroup(policy, path) || IndependentTree(path)
    || exists proof :: ExplainedBy(policy, path, proof)
  }

  /** A workflow with push paths lists the path; the release workflow explains none below packages, apps and plugins. */
  predicate ExplainedBy(policy: Policy, path: string, proof: Proof) {
    && proof in {ReleasePack, VendorPack, NativePack, Sandbox}
    && proof in policy.workflows && Selected(policy, path, policy.workflows[proof])
    && (proof == ReleasePack ==> !StartsWith(path, "packages/") && !StartsWith(path, "apps/") && !StartsWith(path, "plugins/"))
  }

  lemma ExplainsIff(path: string, proof: Proof)
    ensures WorkflowExplains(path, proof) <==>
              (proof == ReleasePack ==> !StartsWith(path, "packages/") && !StartsWith(path, "apps/") && !StartsWith(path, "plugins/"))
  {
    var trees := ["packages/", "apps/", "plugins/"];
    assert forall tree :: tree in trees <==> tree == "packages/" || tree == "apps/" || tree == "plugins/";
  }

  /** The proofs that a runtime input concerns: all of them for shared and unrecognised inputs, else those whose workflow
      lists it, the Windows proof and outside packages/fs the sandbox proof for native code, and the two provider proofs
      for their consumers, protocol and own workflows. */
  function Audience(policy: Policy, path: string): set<Proof> {
    if SharedInput(policy, path) || !Recognised(policy, path) then ALL_PROOFS
    else
      (set proof | proof in {ReleasePack, VendorPack, NativePack, Sandbox}
                   && proof in policy.workflows && Selected(policy, path, policy.workflows[proof]))
      + (if !NativeInput(path) then {} else if StartsWith(path, "packages/fs/") then {NativeWindows} else {NativeWindows, Sandbox})
      + (if ProviderInput(path) || path == ".github/workflows/e2e.yml" then {Provider} else {})
      + (if ProtocolInput(path) || path == ".github/workflows/pi-ai-provider-e2e.yml" then {PiAi} else {})
  }

  lemma KnownIff(policy: Policy, path: string)
    ensures Known(RulesOn(policy, path)) <==> Recognised(policy, path)
  {
    hide SharedInput, NativeInput, ProviderInput, ProtocolInput, ScopedGroup, IndependentTree, WorkflowExplains, StartsWith, Selected;
    forall proof ensures ExplainedBy(policy, path, proof) <==>
        proof in RulesOn(policy, path).owned && WorkflowExplains(path, proof)
    {
      ExplainsIff(path, proof);
    }
  }

  lemma AudienceIsReasoned(policy: Policy, path: string, proof: Proof)
    ensures proof in Audience(policy, path) <==> PathReasons(RulesOn(policy, path), path, proof) != []
  {
    hide SharedInput, NativeInput, ProviderInput, ProtocolInput, ScopedGroup, IndependentTree, WorkflowExplains, StartsWith, Selected;
    KnownIff(policy, path);
    assert proof in ALL_PROOFS;
  }

  /** A non-empty diff affects exactly the proofs that its runtime inputs concern. */
  lemma AffectedIsAudience(policy: Policy, azureOpenai: Acceptance, paths: seq<string>, unitOrder: (string, string) -> bool,
                           proof: Proof)
    requires paths != []
    ensures ReasonsFor(Configure(policy, azureOpenai), paths, unitOrder, proof) != [] <==>
            exists p | p in paths :: RuntimeInput(policy, Slashes(p)) && proof in Audience(policy, Slashes(p))
  {
    hide RuntimeInput, RulesOn, PathReasons, ReasonsFor, Audience, Known, Slashes;
    var c := Configure(policy, azureOpenai);
    AffectedIff(c, paths, unitOrder, proof);
    forall p | p in paths
      ensures Affects(c, Slashes(p), proof) <==> RuntimeInput(policy, Slashes(p)) && proof in Audience(policy, Slashes(p))
    {
      AudienceIsReasoned(policy, Slashes(p), proof);
    }
  }

  /** A proof is required by a non-empty diff exactly when some runtime input concerns it; the provider proofs only for a trusted
      actor, and the second one only when it is accepted. */
  lemma RequiredIff(policy: Policy, azureOpenai: Acceptance, paths: seq<string>, unitOrder: (string, string) -> bool,
                    untrustedActor: bool, book: Book, proof: Proof)
    requires paths != []
    requires forall p: Proof :: book.For(p) == ReasonsFor(Configure(policy, azureOpenai), paths, unitOrder, p)
    ensures proof in RequiredBy(book, Configure(policy, azureOpenai).azureOpenai, untrustedActor) <==>
              && (exists p | p in paths :: RuntimeInput(policy, Slashes(p)) && proof in Audience(policy, Slashes(p)))
              && (proof in {Provider, PiAi} ==> !untrustedActor)
              && (proof == PiAi ==> azureOpenai == Required)
  {
    hide ReasonsFor, Audience, RuntimeInput, Slashes;
    AffectedIsAudience(policy, azureOpenai, paths, unitOrder, proof);
  }

  /** And an empty diff requires every proof that it may. */
  lemma EmptyRequires(c: Config, unitOrder: (string, string) -> bool, untrustedActor: bool, book: Book, proof: Proof)
    requires forall p: Proof :: book.For(p) == ReasonsFor(c, [], unitOrder, p)
    ensures proof in RequiredBy(book, c.azureOpenai, untrustedActor) <==>
              (proof in {Provider, PiAi} ==> !untrustedActor) && (proof == PiAi ==> c.azureOpenai == Required)
  {
    hide ReasonsFor;
    AffectedIff(c, [], unitOrder, proof);
  }
}
