/** Path predicates of the pull-request lane selector, over its declarative policy. */
module ScopePolicy {
  import opened Optional
  import opened PathText

  datatype Policy = Policy(
    inertPrefixes: seq<string>,
    fullRuntimePrefixes: seq<string>,
    fullRuntimePackagePrefixes: seq<string>,
    scopedPackageGroups: seq<string>,
    modelInputPrefixes: seq<string>,
    modelInputSuffixes: seq<string>,
    gatewayPrefixes: seq<string>,
    adminUiPrefix: string)

  /** packages/<group>/<name>/(src|tests)/...  gives  <group>/<name>. */
  function ScopedPackage(path: string): Option<string> {
    var parts := Split(path);
    if |parts| >= 5 && parts[0] == "packages" && parts[1] != "" && parts[2] != "" && parts[3] in ["src", "tests"]
    then Some(parts[1] + "/" + parts[2])
    else None
  }

  predicate PlainText(text: string) {
    forall c | c in text :: c !in "*?{}[]"
  }

  /** A TypeScript file below such a directory whose remaining name holds no glob character. */
  predicate IsScopedPath(path: string) {
    && ScopedPackage(path).Some?
    && (EndsWith(path, ".ts") || EndsWith(path, ".tsx"))
    && var rest := Split(path)[4..];
       rest != [".ts"] && rest != [".tsx"] && forall part | part in rest :: PlainText(part)
  }

  /** Lockfile and build configuration, on which every lane depends. */
  predicate IsDependencyPath(path: string) {
    var name := LastSegment(path);
    || name in ["package.json", "pnpm-lock.yaml", "pnpm-workspace.yaml", ".npmrc"]
    || (StartsWith(name, "tsconfig") && EndsWith(name[8..], ".json"))
  }

  /** Test data: below a snapshot tree, or named as an expected output. */
  predicate IsGolden(path: string) {
    || StartsWith(path, "snapshots/") || Contains(path, "/snapshots/")
    || EndsWithAny(path, [".expected.md", ".expected.json", ".expected.jsonl", ".expected.txt", ".expected.html"])
  }

  predicate IsInertPath(policy: Policy, path: string) {
    !IsGolden(path) && (StartsWithAny(path, policy.inertPrefixes) || EndsWithAny(path, [".md", ".mdx", ".i18n.yaml"]))
  }

  predicate IsFullRuntimePath(policy: Policy, path: string) {
    StartsWithAny(path, policy.fullRuntimePrefixes) || StartsWithAny(path, policy.fullRuntimePackagePrefixes)
  }

  predicate IsKnownScopedPackagePath(policy: Policy, path: string) {
    var parts := Split(path);
    |parts| >= 3 && parts[0] == "packages" && parts[1] != "" && parts[1] in policy.scopedPackageGroups
  }

  predicate IsModelInputPath(policy: Policy, path: string) {
    StartsWithAny(path, policy.modelInputPrefixes) || EndsWithAny(path, policy.modelInputSuffixes)
  }

  predicate IsInertProsePath(policy: Policy, path: string) {
    IsInertPath(policy, path) && !IsModelInputPath(policy, path) && EndsWithAny(path, [".md", ".mdx", ".i18n.yaml"])
  }

  predicate IsAdminUiPath(policy: Policy, path: string) {
    StartsWith(path, policy.adminUiPrefix)
  }

  predicate IsGatewayPath(policy: Policy, path: string) {
    !IsAdminUiPath(policy, path) && StartsWithAny(path, policy.gatewayPrefixes)
  }

  predicate IsPythonPath(path: string) {
    StartsWith(path, "python/")
  }

  predicate ConfigName(path: string) {
    && EndsWith(path, ".config.ts") && |path| > 10
    && forall i | 0 <= i < |path| - 10 :: 'a' <= path[i] <= 'z' || '0' <= path[i] <= '9' || path[i] in ".-"
  }

  predicate IsWebIrrelevantPath(policy: Policy, path: string) {
    || IsInertPath(policy, path)
    || StartsWithAny(path, ["python/", "native/", "examples/", "apps/cli/", "apps/android-shell/", ".github/", "scripts/"])
    || ('/' !in path
        && (ConfigName(path) || EndsWithAny(path, [".json", ".yaml", ".yml", ".toml", ".mjs", ".cjs"]) || StartsWith(path, ".")))
  }

  // ----- what the checked-in policy guarantees

  /** No inert tree and no Admin tree overlaps the package tree. */
  ghost predicate Separated(policy: Policy) {
    && (forall prefix | prefix in policy.inertPrefixes :: Diverge(prefix, "packages/"))
    && Diverge(policy.adminUiPrefix, "packages/")
  }

  lemma {:induction false} FirstSegment(path: string, name: string)
    requires Split(path)[0] == name && |Split(path)| > 1
    ensures StartsWith(path, name + "/")
  {
    if path[0] != '/' {
      FirstSegment(path[1..], name[1..]);
      assert name + "/" == [path[0]] + (name[1..] + "/");
    } else {
      assert name + "/" == "/";
    }
  }

  /** A scoped source path is neither inert nor under the Python or Admin trees, and it belongs to a package. */
  lemma ScopedPathsAreSource(policy: Policy, path: string)
    requires Separated(policy) && IsScopedPath(path)
    ensures !IsInertPath(policy, path) && !IsPythonPath(path) && !IsAdminUiPath(policy, path)
    ensures ScopedPackage(path).Some?
  {
    FirstSegment(path, "packages");
    assert "packages" + "/" == "packages/";
    assert Diverge("python/", "packages/") by { assert "python/"[1] != "packages/"[1]; }
    if IsPythonPath(path) { DivergentPrefixes(path, "python/", "packages/"); }
    if IsAdminUiPath(policy, path) { DivergentPrefixes(path, policy.adminUiPrefix, "packages/"); }
    if prefix :| prefix in policy.inertPrefixes && StartsWith(path, prefix) {
      DivergentPrefixes(path, prefix, "packages/");
    }
    NotProse(path);
  }

  lemma LastTwo(s: string, suffix: string)
    requires EndsWith(s, suffix) && |suffix| >= 2
    ensures s[|s| - 1] == suffix[|suffix| - 1] && s[|s| - 2] == suffix[|suffix| - 2]
  {
    var tail := s[|s| - |suffix|..];
    assert tail[|suffix| - 1] == s[|s| - 1] && tail[|suffix| - 2] == s[|s| - 2];
  }

  lemma Excludes(s: string, a: string, b: string)
    requires EndsWith(s, a) && |a| >= 2 && |b| >= 2
    requires a[|a| - 1] != b[|b| - 1] || a[|a| - 2] != b[|b| - 2]
    ensures !EndsWith(s, b)
  {
    LastTwo(s, a);
    if EndsWith(s, b) { LastTwo(s, b); }
  }

  lemma ProseEnds(path: string)
    requires path != "" && path[|path| - 1] !in "dxl"
    ensures !EndsWithAny(path, [".md", ".mdx", ".i18n.yaml"])
  {
    forall suffix | suffix in [".md", ".mdx", ".i18n.yaml"] && EndsWith(path, suffix) ensures false {
      LastTwo(path, suffix);
    }
  }

  lemma NotProse(path: string)
    requires EndsWith(path, ".ts") || EndsWith(path, ".tsx")
    ensures !EndsWithAny(path, [".md", ".mdx", ".i18n.yaml"])
  {
    var suffix := if EndsWith(path, ".ts") then ".ts" else ".tsx";
    Excludes(path, suffix, ".md");
    Excludes(path, suffix, ".mdx");
    Excludes(path, suffix, ".i18n.yaml");
  }

  /** The policy checked in as ci-scope-policy.json. */
  const CHECKED_IN := Policy(
    [".agents/", "docs/", "engineering/", "upgrades/", "website/"],
    ["vendor/", "gateway/", "native/"],
    ["packages/client/connection/", "packages/host/apiproxy/"],
    ["acp", "attachment", "compaction", "context", "credentials", "feedback", "fs", "goal", "guard", "hooks", "identity",
     "interaction", "jobs", "lsp", "mcp", "plan", "preset", "runtime-diagnostics", "schedule", "sdk", "session-query",
     "settings", "skill", "spill", "storage", "test-support", "todo", "util", "web", "workflow", "workspace", "client"],
    ["apps/cli/config/", "packages/skill/skill-badge/assets/"],
    ["/AGENTS.md", "/SKILL.md"],
    ["gateway/", "plugins/dsh-directory-guard/", "plugins/dsh-model-governance/", "plugins/dsh-steward-tools/",
     "packages/api/", "packages/host/apiproxy/"],
    "gateway/admin-ui/")

  lemma CheckedInIsSeparated()
    ensures Separated(CHECKED_IN)
  {
    assert ".agents/"[0] != "packages/"[0] && "docs/"[0] != "packages/"[0] && "engineering/"[0] != "packages/"[0];
    assert "upgrades/"[0] != "packages/"[0] && "website/"[0] != "packages/"[0] && "gateway/admin-ui/"[0] != "packages/"[0];
  }

  /** The path packages/fs/a/src/a.ts. */
  const SAMPLE_SOURCE: string := "packages" + "/" + SAMPLE_TAIL
  const SAMPLE_TAIL: string := "fs" + "/" + ("a" + "/" + ("src" + "/" + "a.ts"))

  lemma SampleSegments()
    ensures Split(SAMPLE_SOURCE) == ["packages", "fs", "a", "src", "a.ts"]
  {
    SplitName("a.ts");
    SplitAfterSlash("src", "a.ts");
    SplitAfterSlash("a", "src" + "/" + "a.ts");
    SplitAfterSlash("fs", "a" + "/" + ("src" + "/" + "a.ts"));
    SplitAfterSlash("packages", SAMPLE_TAIL);
  }

  lemma SampleEnds()
    ensures EndsWith(SAMPLE_SOURCE, ".ts") && StartsWith(SAMPLE_SOURCE, "packages/fs")
  {
  }

  /** The checked-in policy knows packages whose sources are scoped. */
  lemma SampleIsNarrow()
    ensures IsScopedPath(SAMPLE_SOURCE) && IsKnownScopedPackagePath(CHECKED_IN, SAMPLE_SOURCE)
  {
    SampleSegments();
    SampleEnds();
    assert Split(SAMPLE_SOURCE)[4..] == ["a.ts"];
    assert CHECKED_IN.scopedPackageGroups[6] == "fs";
  }

  lemma NoneStart(p: string, head: string, prefixes: seq<string>)
    requires StartsWith(p, head) && forall prefix | prefix in prefixes :: Diverge(head, prefix)
    ensures !StartsWithAny(p, prefixes)
  {
    forall prefix | prefix in prefixes ensures !StartsWith(p, prefix) {
      DivergentPrefixes(p, head, prefix);
    }
  }

  lemma SampleIsOrdinary()
    ensures !IsFullRuntimePath(CHECKED_IN, SAMPLE_SOURCE) && !IsModelInputPath(CHECKED_IN, SAMPLE_SOURCE)
  {
    SampleEnds();
    var head := "packages/fs";
    assert head[0] == 'p' && head[9] == 'f';
    assert Diverge(head, "vendor/") && Diverge(head, "gateway/") && Diverge(head, "native/");
    NoneStart(SAMPLE_SOURCE, head, CHECKED_IN.fullRuntimePrefixes);
    assert "packages/client/connection/"[9] == 'c' && "packages/host/apiproxy/"[9] == 'h';
    NoneStart(SAMPLE_SOURCE, head, CHECKED_IN.fullRuntimePackagePrefixes);
    assert "apps/cli/config/"[0] == 'a' && "packages/skill/skill-badge/assets/"[9] == 's';
    NoneStart(SAMPLE_SOURCE, head, CHECKED_IN.modelInputPrefixes);
    Excludes(SAMPLE_SOURCE, ".ts", "/AGENTS.md");
    Excludes(SAMPLE_SOURCE, ".ts", "/SKILL.md");
  }

  lemma SampleProse()
    ensures IsInertProsePath(CHECKED_IN, "docs/a.md") && !IsAdminUiPath(CHECKED_IN, "docs/a.md")
  {
    var p := "docs/a.md";
    assert |p| == 9 && p[0] == 'd' && p[4] == '/';
    assert EndsWith(p, ".md");
    assert !StartsWith(p, "snapshots/") && !Contains(p, "/snapshots/");
    assert !EndsWithAny(p, [".expected.md", ".expected.json", ".expected.jsonl", ".expected.txt", ".expected.html"]);
    assert !EndsWith(p, "/AGENTS.md") && !EndsWith(p, "/SKILL.md");
    assert "apps/cli/config/"[0] == 'a' && "packages/skill/skill-badge/assets/"[0] == 'p' && "gateway/admin-ui/"[0] == 'g';
  }
}
