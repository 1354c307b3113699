/** The path tests of the selectors, as the sets of strings that their regular expressions match. */
module PathShapes {
  import opened Optional
  import opened PathText
  import S = ScopePolicy
  import C = ConsumerRelations
  import P = PrProofs
  import T = TimingStore

  // ----- strings around a slash

  lemma PrefixIff(s: string, prefix: string)
    ensures StartsWith(s, prefix) <==> exists rest :: s == prefix + rest
  {
    if StartsWith(s, prefix) { assert s == prefix + s[|prefix|..]; }
  }

  lemma SuffixIff(s: string, suffix: string)
    ensures EndsWith(s, suffix) <==> exists stem :: s == stem + suffix
  {
    if EndsWith(s, suffix) { assert s == s[..|s| - |suffix|] + suffix; }
  }

  lemma StartsAnyIff(s: string, prefixes: seq<string>)
    ensures StartsWithAny(s, prefixes) <==> exists prefix, rest :: prefix in prefixes && s == prefix + rest
  {
    forall prefix { PrefixIff(s, prefix); }
  }

  lemma EndsAnyIff(s: string, suffixes: seq<string>)
    ensures EndsWithAny(s, suffixes) <==> exists stem, suffix :: suffix in suffixes && s == stem + suffix
  {
    forall suffix { SuffixIff(s, suffix); }
  }

  lemma SplitHead(path: string) returns (rest: string)
    requires |Split(path)| > 1
    ensures path == Split(path)[0] + "/" + rest && Split(path) == [Split(path)[0]] + Split(rest) && '/' !in Split(path)[0]
  {
    hide Split;
    var name := Split(path)[0];
    S.FirstSegment(path, name);
    SegmentHasNoSlash(path, 0);
    rest := path[|name| + 1..];
    assert path == name + "/" + rest;
    SplitAfterSlash(name, rest);
  }

  lemma SplitWhole(path: string)
    requires |Split(path)| == 1
    ensures Split(path)[0] == path && '/' !in path
  {
    SingleSegment(path);
    SegmentHasNoSlash(path, 0);
  }

  lemma {:induction false} SingleSegment(path: string)
    requires |Split(path)| == 1
    ensures Split(path)[0] == path
  {
    if path != "" { SingleSegment(path[1..]); }
  }

  /** The last segment is what follows the last slash. */
  lemma {:induction false} LastSegmentIff(path: string, name: string)
    ensures LastSegment(path) == name <==> '/' !in name && (path == name || exists dir :: path == dir + "/" + name)
    decreases |path|
  {
    hide Split;
    if |Split(path)| == 1 {
      SplitWhole(path);
      forall dir { HasSlash(dir, name); }
    } else {
      var rest := SplitHead(path);
      var head := Split(path)[0];
      LastSegmentIff(rest, name);
      assert LastSegment(path) == LastSegment(rest);
      if rest == name { assert path == head + "/" + name; }
      if dir :| rest == dir + "/" + name { assert path == (head + "/" + dir) + "/" + name; }
      if '/' !in name {
        assert path[|head|] == '/';
        if dir :| path == dir + "/" + name && rest != name {
          assert path[|dir|] == '/';
          AfterFirstSlash(path, head, rest, dir, name);
        }
      }
    }
  }

  lemma HasSlash(dir: string, name: string)
    ensures '/' in dir + "/" + name
  {
    assert (dir + "/" + name)[|dir|] == '/';
  }

  lemma AfterFirstSlash(path: string, head: string, rest: string, dir: string, name: string)
    requires path == head + "/" + rest == dir + "/" + name && '/' !in head && '/' !in name && rest != name
    ensures exists deeper :: rest == deeper + "/" + name
  {
    assert path[|dir|] == '/' && path[|head|] == '/';
    assert path[|head| + 1..] == rest && path[|dir| + 1..] == name;
    var deeper := dir[|head| + 1..];
    assert rest == path[|head| + 1..] == deeper + "/" + name;
  }

  lemma InTreeIff(path: string, prefix: string)
    ensures InTree(path, prefix) <==> path == prefix || exists rest :: path == prefix + "/" + rest
  {
    PrefixIff(path, prefix + "/");
  }

  // ----- packages

  ghost predicate IsSegment(name: string) {
    name != "" && '/' !in name
  }

  /** ^packages/([^/]+/[^/]+)/(?:src|tests)/ */
  ghost predicate InPackage(path: string, key: string, rest: string) {
    exists group, name, dir :: IsSegment(group) && IsSegment(name) && dir in {"src", "tests"}
      && path == "packages/" + (group + "/" + (name + "/" + (dir + "/" + rest))) && key == group + "/" + name
  }

  lemma FourHeads(path: string) returns (a: string, b: string, c: string, d: string, rest: string)
    requires |Split(path)| >= 5
    ensures path == a + "/" + (b + "/" + (c + "/" + (d + "/" + rest)))
    ensures Split(path) == [a, b, c, d] + Split(rest) && '/' !in a && '/' !in b && '/' !in c && '/' !in d
  {
    hide Split;
    var r1 := SplitHead(path);
    var r2 := SplitHead(r1);
    var r3 := SplitHead(r2);
    rest := SplitHead(r3);
    a, b, c, d := Split(path)[0], Split(r1)[0], Split(r2)[0], Split(r3)[0];
    assert Split(r3) == [d] + Split(rest);
    assert Split(r2) == [c, d] + Split(rest);
    assert Split(r1) == [b, c, d] + Split(rest);
  }

  lemma JoinedSegments(a: string, b: string, c: string, d: string, rest: string)
    requires '/' !in a && '/' !in b && '/' !in c && '/' !in d
    ensures Split(a + "/" + (b + "/" + (c + "/" + (d + "/" + rest)))) == [a, b, c, d] + Split(rest)
  {
    hide Split;
    SplitAfterSlash(d, rest);
    SplitAfterSlash(c, d + "/" + rest);
    SplitAfterSlash(b, c + "/" + (d + "/" + rest));
    SplitAfterSlash(a, b + "/" + (c + "/" + (d + "/" + rest)));
  }

  lemma InPackageSegments(path: string, key: string, rest: string)
    requires InPackage(path, key, rest)
    ensures S.ScopedPackage(path) == Some(key) && Split(path)[4..] == Split(rest)
    ensures exists head :: path == head + "/" + rest
  {
    hide Split;
    var group, name, dir :| IsSegment(group) && IsSegment(name) && dir in {"src", "tests"}
      && path == "packages/" + (group + "/" + (name + "/" + (dir + "/" + rest))) && key == group + "/" + name;
    assert path == "packages" + "/" + (group + "/" + (name + "/" + (dir + "/" + rest)));
    JoinedSegments("packages", group, name, dir, rest);
    assert path == ("packages/" + (group + "/" + (name + "/" + dir))) + "/" + rest;
  }

  lemma ScopedPackageIff(path: string, key: string)
    ensures S.ScopedPackage(path) == Some(key) <==> exists rest :: InPackage(path, key, rest)
  {
    hide Split, InPackage;
    if S.ScopedPackage(path) == Some(key) { var rest := PackageRest(path, key); }
    if rest :| InPackage(path, key, rest) { InPackageSegments(path, key, rest); }
  }

  lemma PackageRest(path: string, key: string) returns (rest: string)
    requires S.ScopedPackage(path) == Some(key)
    ensures InPackage(path, key, rest)
  {
    hide Split;
    var a, b, c, d, r := FourHeads(path);
    rest := r;
    assert path == "packages/" + (b + "/" + (c + "/" + (d + "/" + rest)));
    assert IsSegment(b) && IsSegment(c) && d in {"src", "tests"};
  }

  /** ^packages/[^/]+/[^/]+/(?:src|tests)/[^*?{}[\]]+\.(?:ts|tsx)$ */
  ghost predicate SourceShape(path: string) {
    exists key, stem, extension :: InPackage(path, key, stem + extension) && stem != "" && extension in {".ts", ".tsx"}
      && forall c | c in stem :: c !in "*?{}[]"
  }

  lemma {:induction false} PlainSegments(text: string)
    ensures (forall part | part in Split(text) :: S.PlainText(part)) <==> S.PlainText(text)
  {
    if text != "" {
      PlainSegments(text[1..]);
      var rest := Split(text[1..]);
      assert rest == [rest[0]] + rest[1..];
      if text[0] == '/' {
        assert Split(text) == [""] + rest;
        assert forall part :: part in Split(text) <==> part == "" || part in rest;
      } else {
        assert Split(text) == [[text[0]] + rest[0]] + rest[1..];
        assert forall part :: part in Split(text) <==> part == [text[0]] + rest[0] || part in rest[1..];
        assert S.PlainText([text[0]] + rest[0]) <==> text[0] !in "*?{}[]" && S.PlainText(rest[0]);
      }
      assert S.PlainText(text) <==> text[0] !in "*?{}[]" && S.PlainText(text[1..]);
    }
  }

  lemma ScopedPathIff(path: string)
    ensures S.IsScopedPath(path) <==> SourceShape(path)
  {
    hide S.IsScopedPath;
    if S.IsScopedPath(path) { ScopedHasShape(path); }
    if SourceShape(path) {
      var key, stem, extension :|
        InPackage(path, key, stem + extension) && stem != "" && extension in {".ts", ".tsx"} && forall c | c in stem :: c !in "*?{}[]";
      ShapeIsScoped(path, key, stem, extension);
    }
  }

  lemma ScopedHasShape(path: string)
    requires S.IsScopedPath(path)
    ensures SourceShape(path)
  {
    hide Split, InPackage, S.ScopedPackage;
    var key := S.ScopedPackage(path).value;
    var rest := PackageRest(path, key);
    InPackageSegments(path, key, rest);
    var head :| path == head + "/" + rest;
    var extension := if EndsWith(path, ".ts") then ".ts" else ".tsx";
    TailFits(path, head, rest, extension);
    var stem := rest[..|rest| - |extension|];
    PlainSegments(rest);
    assert rest == stem + extension;
    if stem == "" { SplitName(rest); }
    assert forall c | c in stem :: c in rest;
  }

  lemma ShapeIsScoped(path: string, key: string, stem: string, extension: string)
    requires InPackage(path, key, stem + extension) && stem != "" && extension in {".ts", ".tsx"}
    requires forall c | c in stem :: c !in "*?{}[]"
    ensures S.IsScopedPath(path)
  {
    hide Split, InPackage, S.ScopedPackage;
    var rest := stem + extension;
    InPackageSegments(path, key, rest);
    var head :| path == head + "/" + rest;
    assert path == (head + "/" + stem) + extension;
    assert EndsWith(path, extension);
    PlainSegments(rest);
    OneExtension(stem, extension);
    if |Split(rest)| == 1 { SplitWhole(rest); }
  }

  lemma OneExtension(stem: string, extension: string)
    requires stem != "" && extension in {".ts", ".tsx"}
    ensures stem + extension != ".ts" && stem + extension != ".tsx"
  {
    var s := stem + extension;
    assert s[|stem|] == '.';
  }

  lemma TailFits(path: string, head: string, rest: string, extension: string)
    requires path == head + "/" + rest && EndsWith(path, extension) && '/' !in extension
    ensures |extension| <= |rest| && rest[|rest| - |extension|..] == extension
  {
    assert path[|head|] == '/';
  }

  /** ^packages/([^/]+)/ with a listed group */
  lemma KnownGroupIff(policy: S.Policy, path: string)
    ensures S.IsKnownScopedPackagePath(policy, path) <==> GroupShape(policy.scopedPackageGroups, path)
  {
    hide Split;
    GroupSegments(policy.scopedPackageGroups, path);
  }

  ghost predicate GroupShape(groups: seq<string>, path: string) {
    exists group, rest :: IsSegment(group) && group in groups && path == "packages/" + (group + "/" + rest)
  }

  lemma GroupSegments(groups: seq<string>, path: string)
    ensures GroupShape(groups, path) <==>
            var parts := Split(path); |parts| >= 3 && parts[0] == "packages" && parts[1] != "" && parts[1] in groups
  {
    hide Split;
    var parts := Split(path);
    if |parts| >= 3 && parts[0] == "packages" && parts[1] != "" && parts[1] in groups {
      var r1 := SplitHead(path);
      var rest := SplitHead(r1);
      assert path == "packages/" + (parts[1] + "/" + rest) && IsSegment(parts[1]);
    }
    if group, rest :| IsSegment(group) && group in groups && path == "packages/" + (group + "/" + rest) {
      assert path == "packages" + "/" + (group + "/" + rest);
      SplitAfterSlash("packages", group + "/" + rest);
      SplitAfterSlash(group, rest);
    }
  }

  /** The same expression in the proof selector. */
  lemma ScopedGroupIff(policy: P.Policy, path: string)
    ensures P.ScopedGroup(policy, path) <==> GroupShape(policy.scopedPackageGroups, path)
  {
    GroupSegments(policy.scopedPackageGroups, path);
  }

  // ----- file names

  /** (^|/)name$ */
  ghost predicate IsNamed(path: string, name: string) {
    '/' !in name && (path == name || exists dir :: path == dir + "/" + name)
  }

  /** (^|/)(?:package\.json|pnpm-lock\.yaml|pnpm-workspace\.yaml|\.npmrc|tsconfig[^/]*\.json)$ */
  lemma DependencyPathIff(path: string)
    ensures S.IsDependencyPath(path) <==>
              || (exists name :: name in ["package.json", "pnpm-lock.yaml", "pnpm-workspace.yaml", ".npmrc"] && IsNamed(path, name))
              || exists middle :: IsNamed(path, "tsconfig" + middle + ".json")
  {
    hide LastSegment;
    var name := LastSegment(path);
    LastSegmentIff(path, name);
    forall other | IsNamed(path, other) ensures other == name { LastSegmentIff(path, other); }
    MiddleOf(name, "tsconfig", ".json");
    assert |"tsconfig"| == 8;
    if StartsWith(name, "tsconfig") && EndsWith(name[8..], ".json") {
      var middle :| name == "tsconfig" + middle + ".json";
    }
  }

  /** (?:^|/)cordis[^/]*\.ya?ml$ */
  ghost predicate CordisFile(path: string) {
    exists middle, extension :: extension in {".yml", ".yaml"} && IsNamed(path, "cordis" + middle + extension)
  }

  /** /(?:worker|subprocess)[^/]*\.[cm]?ts$ */
  ghost predicate LauncherFile(path: string) {
    exists dir, stem, middle, extension ::
      && stem in {"worker", "subprocess"} && extension in {".ts", ".cts", ".mts"}
      && '/' !in middle && path == dir + "/" + (stem + middle + extension)
  }

  lemma MiddleOf(name: string, stem: string, extension: string)
    ensures StartsWith(name, stem) && EndsWith(name[|stem|..], extension) <==> exists middle :: name == stem + middle + extension
  {
    if StartsWith(name, stem) && EndsWith(name[|stem|..], extension) {
      var middle := name[|stem|..][..|name| - |stem| - |extension|];
      assert name == stem + middle + extension;
    }
    if middle :| name == stem + middle + extension { assert name[|stem|..] == middle + extension; }
  }

  lemma YamlNameIff(name: string, stem: string)
    ensures C.YamlName(name, stem) <==> exists middle, extension :: extension in {".yml", ".yaml"} && name == stem + middle + extension
  {
    MiddleOf(name, stem, ".yml");
    MiddleOf(name, stem, ".yaml");
    if C.YamlName(name, stem) {
      assert exists extension | extension in [".yml", ".yaml"] :: EndsWith(name[|stem|..], extension);
    }
    if middle, extension :| extension in {".yml", ".yaml"} && name == stem + middle + extension {
      assert extension in [".yml", ".yaml"] && EndsWith(name[|stem|..], extension);
    }
  }

  lemma ModuleNameIff(name: string, stem: string)
    ensures C.ModuleName(name, stem) <==>
            exists middle, extension :: extension in {".ts", ".cts", ".mts"} && name == stem + middle + extension
  {
    MiddleOf(name, stem, ".ts");
    MiddleOf(name, stem, ".cts");
    MiddleOf(name, stem, ".mts");
    if C.ModuleName(name, stem) {
      assert exists extension | extension in [".ts", ".cts", ".mts"] :: EndsWith(name[|stem|..], extension);
    }
    if middle, extension :| extension in {".ts", ".cts", ".mts"} && name == stem + middle + extension {
      assert extension in [".ts", ".cts", ".mts"] && EndsWith(name[|stem|..], extension);
    }
  }

  /** Overlays, workers and launchers outside the Android shell. */
  lemma DynamicCompositionIff(path: string)
    ensures C.DynamicComposition(path) <==> !StartsWith(path, "apps/android-shell/") && (CordisFile(path) || LauncherFile(path))
  {
    hide LastSegment, C.YamlName, C.ModuleName;
    var name := LastSegment(path);
    LastSegmentIff(path, name);
    YamlNameIff(name, "cordis");
    CordisFileIff(path, name);
    LauncherFileIff(path, name);
  }

  lemma CordisFileIff(path: string, name: string)
    requires name == LastSegment(path)
    ensures CordisFile(path) <==> C.YamlName(name, "cordis")
  {
    hide LastSegment, C.YamlName;
    LastSegmentIff(path, name);
    YamlNameIff(name, "cordis");
    forall other | IsNamed(path, other) ensures other == name { LastSegmentIff(path, other); }
  }

  lemma LauncherFileIff(path: string, name: string)
    requires name == LastSegment(path)
    ensures LauncherFile(path) <==> '/' in path && (C.ModuleName(name, "worker") || C.ModuleName(name, "subprocess"))
  {
    hide LastSegment, C.ModuleName;
    LastSegmentIff(path, name);
    ModuleNameIff(name, "worker");
    ModuleNameIff(name, "subprocess");
    forall dir, stem, middle, extension | stem in {"worker", "subprocess"} && extension in {".ts", ".cts", ".mts"}
                                          && '/' !in middle && path == dir + "/" + (stem + middle + extension)
      ensures name == stem + middle + extension && '/' in path
    {
      LastSegmentIff(path, stem + middle + extension);
      HasSlash(dir, stem + middle + extension);
    }
    if '/' in path {
      var dir :| path == dir + "/" + name;
      forall stem, middle, extension | stem in {"worker", "subprocess"} && extension in {".ts", ".cts", ".mts"} && name == stem + middle + extension
        ensures LauncherFile(path)
      {
        assert forall c | c in middle :: c in name;
        assert path == dir + "/" + (stem + middle + extension);
      }
    }
  }

  /** (?:^|/)[^/]*cordis[^/]*\.ya?ml$ */
  lemma CordisOverlayIff(path: string)
    ensures P.CordisOverlay(LastSegment(path)) <==>
            exists before, middle, extension :: extension in [".yml", ".yaml"] && IsNamed(path, before + "cordis" + middle + extension)
  {
    hide LastSegment, P.CordisOverlay;
    var name := LastSegment(path);
    LastSegmentIff(path, name);
    forall other | IsNamed(path, other) ensures other == name { LastSegmentIff(path, other); }
    OverlayNameIff(name);
  }

  lemma OverlayNameIff(name: string)
    ensures P.CordisOverlay(name) <==>
            exists before, middle, extension :: extension in [".yml", ".yaml"] && name == before + "cordis" + middle + extension
  {
    hide StartsWith, EndsWithAny;
    if P.CordisOverlay(name) {
      var i :| 0 <= i <= |name| - 6 && StartsWith(name[i..], "cordis") && EndsWithAny(name[i + 6..], [".yml", ".yaml"]);
      EndsAnyIff(name[i + 6..], [".yml", ".yaml"]);
      var middle, extension :| extension in [".yml", ".yaml"] && name[i + 6..] == middle + extension;
      OverlayAt(name, i, middle, extension);
    }
    forall before, middle, extension | extension in [".yml", ".yaml"] && name == before + "cordis" + middle + extension
      ensures P.CordisOverlay(name)
    {
      OverlayFound(name, before, middle, extension);
    }
  }

  lemma OverlayAt(name: string, i: nat, middle: string, extension: string)
    requires i + 6 <= |name| && StartsWith(name[i..], "cordis") && name[i + 6..] == middle + extension
    ensures name == name[..i] + "cordis" + middle + extension
  {
    assert |"cordis"| == 6 && name[i..][..6] == "cordis" && name[i..][6..] == name[i + 6..];
  }

  lemma OverlayFound(name: string, before: string, middle: string, extension: string)
    requires extension in [".yml", ".yaml"] && name == before + "cordis" + middle + extension
    ensures P.CordisOverlay(name)
  {
    hide EndsWithAny;
    var i := |before|;
    assert |"cordis"| == 6 && name[i..] == "cordis" + (middle + extension) && name[i + 6..] == middle + extension;
    EndsAnyIff(name[i + 6..], [".yml", ".yaml"]);
  }

  // ----- documentation and goldens

  /** (?:^|/)snapshots/ or \.expected\.(?:md|jsonl?|txt|html)$ */
  ghost predicate GoldenShape(path: string) {
    || (exists rest :: path == "snapshots/" + rest)
    || (exists before, rest :: path == before + "/snapshots/" + rest)
    || exists stem, ending :: ending in EXPECTED && path == stem + ending
  }

  const EXPECTED := [".expected.md", ".expected.json", ".expected.jsonl", ".expected.txt", ".expected.html"]

  lemma ContainsIff(s: string, part: string)
    ensures Contains(s, part) <==> exists before, rest :: s == before + part + rest
  {
    if Contains(s, part) {
      var i :| 0 <= i <= |s| && StartsWith(s[i..], part);
      assert s == s[..i] + part + s[i..][|part|..];
    }
    if before, rest :| s == before + part + rest { assert s[|before|..] == part + rest; }
  }

  lemma GoldenIff(path: string)
    ensures S.IsGolden(path) <==> GoldenShape(path)
  {
    hide EndsWithAny, Contains, StartsWith;
    PrefixIff(path, "snapshots/");
    ContainsIff(path, "/snapshots/");
    EndsAnyIff(path, EXPECTED);
  }

  ghost predicate ProseName(path: string) {
    exists stem :: path == stem + ".md" || path == stem + ".mdx" || path == stem + ".i18n.yaml"
  }

  lemma ProseNameIff(path: string)
    ensures EndsWithAny(path, [".md", ".mdx", ".i18n.yaml"]) <==> ProseName(path)
  {
    SuffixIff(path, ".md");
    SuffixIff(path, ".mdx");
    SuffixIff(path, ".i18n.yaml");
    assert forall suffix :: suffix in [".md", ".mdx", ".i18n.yaml"] <==> suffix == ".md" || suffix == ".mdx" || suffix == ".i18n.yaml";
  }

  /** Documentation: below an inert tree or named as prose, and no golden.  Prose that no model reads is what accompanies a diff. */
  lemma DocumentationIff(policy: S.Policy, path: string)
    ensures S.IsInertPath(policy, path) <==>
              !GoldenShape(path) && ((exists prefix | prefix in policy.inertPrefixes :: StartsWith(path, prefix)) || ProseName(path))
    ensures S.IsModelInputPath(policy, path) <==>
              || (exists prefix | prefix in policy.modelInputPrefixes :: StartsWith(path, prefix))
              || exists suffix | suffix in policy.modelInputSuffixes :: EndsWith(path, suffix)
    ensures S.IsInertProsePath(policy, path) <==> !GoldenShape(path) && ProseName(path) && !S.IsModelInputPath(policy, path)
  {
    hide GoldenShape, ProseName, S.IsGolden;
    GoldenIff(path);
    ProseNameIff(path);
  }

  // ----- the browser lane's irrelevant paths

  /** ^[a-z0-9.-]+\.config\.ts$ */
  ghost predicate ConfigShape(path: string) {
    exists stem :: stem != "" && path == stem + ".config.ts" && forall c | c in stem :: 'a' <= c <= 'z' || '0' <= c <= '9' || c == '.' || c == '-'
  }

  lemma ConfigIff(path: string)
    ensures S.ConfigName(path) <==> ConfigShape(path)
  {
    if S.ConfigName(path) {
      var stem := path[..|path| - 10];
      assert path == stem + ".config.ts";
    }
    if stem :| stem != "" && path == stem + ".config.ts" && forall c | c in stem :: 'a' <= c <= 'z' || '0' <= c <= '9' || c == '.' || c == '-' {
      assert forall i | 0 <= i < |stem| :: path[i] == stem[i] && stem[i] in stem;
    }
  }

  const HOST_TREES := ["python/", "native/", "examples/", "apps/cli/", "apps/android-shell/", ".github/", "scripts/"]

  ghost predicate HostTree(path: string) {
    exists tree, rest :: tree in HOST_TREES && path == tree + rest
  }

  /** A file at the root that configures tooling. */
  ghost predicate RootTooling(path: string) {
    && '/' !in path
    && (ConfigShape(path) || (path != "" && path[0] == '.')
        || exists stem, extension :: extension in [".json", ".yaml", ".yml", ".toml", ".mjs", ".cjs"] && path == stem + extension)
  }

  lemma WebIrrelevantIff(policy: S.Policy, path: string)
    ensures S.IsWebIrrelevantPath(policy, path) <==> S.IsInertPath(policy, path) || HostTree(path) || RootTooling(path)
  {
    hide S.IsInertPath, S.ConfigName, ConfigShape, StartsWithAny, EndsWithAny;
    StartsAnyIff(path, HOST_TREES);
    ConfigIff(path);
    EndsAnyIff(path, [".json", ".yaml", ".yml", ".toml", ".mjs", ".cjs"]);
    assert path != "" ==> path[..1] == [path[0]];
  }

  // ----- the proof selector's inputs

  ghost predicate Under(path: string, trees: seq<string>) {
    exists tree, rest :: tree in trees && path == tree + rest
  }

  /** ^tsconfig.*\.json$ */
  ghost predicate RootTsconfig(path: string) {
    exists middle :: path == "tsconfig" + middle + ".json" && forall c | c in middle :: c !in {'\n', '\r', '\U{2028}', '\U{2029}'}
  }

  lemma RootTsconfigIff(path: string)
    ensures StartsWith(path, "tsconfig") && EndsWith(path[8..], ".json") && P.OneLine(path) <==> RootTsconfig(path)
  {
    assert |"tsconfig"| == 8;
    MiddleOf(path, "tsconfig", ".json");
    forall c ensures c in "\n\r\U{2028}\U{2029}" <==> c in {'\n', '\r', '\U{2028}', '\U{2029}'} {}
    forall middle | path == "tsconfig" + middle + ".json"
      ensures P.OneLine(path) <==> forall c | c in middle :: c !in "\n\r\U{2028}\U{2029}"
    {
      assert P.OneLine("tsconfig") && P.OneLine(".json");
      assert forall c :: c in path <==> c in "tsconfig" || c in middle || c in ".json";
    }
  }

  lemma SharedInputIff(policy: P.Policy, path: string)
    ensures P.SharedInput(policy, path) <==>
              || Under(path, ["vendor/", "packages/api/", "packages/core/", "packages/session/", "packages/sdk/", "packages/boot/",
                              "packages/bundle/", "packages/preset/", "packages/typert/", "packages/host/apiproxy/", "apps/cli/"])
              || path in ["packages/host/apiproxy", "apps/cli", "package.json", "pnpm-lock.yaml", "pnpm-workspace.yaml"]
              || P.CordisOverlay(LastSegment(path)) || RootTsconfig(path) || P.ModelInput(policy, path)
  {
    hide P.CordisOverlay, LastSegment, P.ModelInput, P.OneLine, RootTsconfig, StartsWithAny, EndsWith;
    RootTsconfigIff(path);
    var nine := ["vendor/", "packages/api/", "packages/core/", "packages/session/", "packages/sdk/", "packages/boot/",
                 "packages/bundle/", "packages/preset/", "packages/typert/"];
    var eleven := ["vendor/", "packages/api/", "packages/core/", "packages/session/", "packages/sdk/", "packages/boot/",
                   "packages/bundle/", "packages/preset/", "packages/typert/", "packages/host/apiproxy/", "apps/cli/"];
    StartsAnyIff(path, nine);
    assert "packages/host/apiproxy" + "/" == "packages/host/apiproxy/" && "apps/cli" + "/" == "apps/cli/";
    PrefixIff(path, "packages/host/apiproxy/");
    PrefixIff(path, "apps/cli/");
    assert eleven == nine + ["packages/host/apiproxy/", "apps/cli/"];
    assert forall tree :: tree in eleven <==> tree in nine || tree == "packages/host/apiproxy/" || tree == "apps/cli/";
  }

  lemma ConsumerInputsIff(path: string)
    ensures P.NativeInput(path) <==>
              Under(path, ["packages/sandbox/", "packages/shell/", "packages/subprocess/", "packages/terminal/", "packages/fs/", "native/"])
    ensures P.ProviderInput(path) <==>
              || Under(path, ["packages/llm/", "packages/credentials/", "packages/settings/", "packages/compaction/", "packages/subagent/"])
              || InTree(path, "plugins/dsh-model-governance")
    ensures P.ProtocolInput(path) <==>
              exists tree | tree in ["packages/llm/llm-pi-ai", "packages/llm/llm", "packages/credentials", "packages/settings",
                                     "plugins/dsh-model-governance"] :: InTree(path, tree)
    ensures P.IndependentTree(path) <==>
              exists tree | tree in ["python", "gateway", "apps/web", "apps/android-shell"] :: InTree(path, tree)
  {
    hide InTree, StartsWithAny;
    StartsAnyIff(path, ["packages/sandbox/", "packages/shell/", "packages/subprocess/", "packages/terminal/", "packages/fs/", "native/"]);
    StartsAnyIff(path, ["packages/llm/", "packages/credentials/", "packages/settings/", "packages/compaction/", "packages/subagent/"]);
  }

  /** A runtime input: whatever a model reads, the vendor read-me, a golden, and everything else but prose and the inert trees. */
  lemma RuntimeInputIff(policy: P.Policy, path: string)
    ensures P.RuntimeInput(policy, path) <==>
              || P.ModelInput(policy, path) || path == "vendor/README.md"
              || (exists rest :: path == "snapshots/" + rest) || (exists before, rest :: path == before + "/snapshots/" + rest)
              || (exists stem, ending :: ending in [".expected.md", ".expected.json", ".expected.txt", ".expected.html"] && path == stem + ending)
              || (!ProseName(path) && !StartsWithAny(path, policy.inertPrefixes))
    ensures P.ModelInput(policy, path) <==>
              || (exists prefix | prefix in policy.modelInputPrefixes :: StartsWith(path, prefix))
              || exists suffix | suffix in policy.modelInputSuffixes :: EndsWith(path, suffix)
  {
    hide StartsWith, EndsWith, Contains, ProseName;
    PrefixIff(path, "snapshots/");
    ContainsIff(path, "/snapshots/");
    EndsAnyIff(path, [".expected.md", ".expected.json", ".expected.txt", ".expected.html"]);
    ProseNameIff(path);
  }

  // ----- spec files with a recorded duration

  lemma {:induction false} SplitConcat(a: string, b: string)
    ensures Split(a + "/" + b) == Split(a) + Split(b)
  {
    var path := a + "/" + b;
    if a == "" {
      assert path[1..] == b;
    } else {
      assert path[1..] == a[1..] + "/" + b;
      SplitConcat(a[1..], b);
      var rest := Split(a[1..]);
      assert path[0] == a[0];
    }
  }

  /** `name` stands between two slashes or ends of the path. */
  ghost predicate SegmentOf(path: string, name: string) {
    '/' !in name && exists before, after :: path == before + name + after && OpensSegment(before) && ClosesSegment(after)
  }

  ghost predicate OpensSegment(before: string) {
    before == "" || before[|before| - 1] == '/'
  }

  ghost predicate ClosesSegment(after: string) {
    after == "" || after[0] == '/'
  }

  lemma {:induction false} SegmentOfIff(path: string, name: string)
    ensures name in Split(path) <==> SegmentOf(path, name)
    decreases |path|
  {
    hide Split;
    if name in Split(path) { SplitIsSegment(path, name); }
    forall before, after | '/' !in name && path == before + name + after && OpensSegment(before) && ClosesSegment(after)
      ensures name in Split(path)
    {
      SegmentIsSplit(before, name, after);
    }
  }

  lemma SegmentIsSplit(before: string, name: string, after: string)
    requires '/' !in name && OpensSegment(before) && ClosesSegment(after)
    ensures name in Split(before + name + after)
  {
    hide Split;
    var tail := name + after;
    if after == "" {
      assert tail == name;
      SplitName(name);
    } else {
      assert tail == name + "/" + after[1..];
      SplitAfterSlash(name, after[1..]);
    }
    assert name in Split(tail);
    if before == "" {
      assert before + name + after == tail;
    } else {
      var head := before[..|before| - 1];
      assert before + name + after == head + "/" + tail;
      SplitConcat(head, tail);
    }
  }

  lemma {:induction false} SplitIsSegment(path: string, name: string)
    requires name in Split(path)
    ensures SegmentOf(path, name)
    decreases |path|
  {
    hide Split;
    if |Split(path)| == 1 {
      SplitWhole(path);
      assert path == "" + name + "" && OpensSegment("") && ClosesSegment("");
    } else {
      var rest := SplitHead(path);
      var head := Split(path)[0];
      if name == head {
        assert path == "" + name + ("/" + rest) && OpensSegment("") && ClosesSegment("/" + rest);
      } else {
        SplitIsSegment(rest, name);
        var before, after :| rest == before + name + after && OpensSegment(before) && ClosesSegment(after);
        assert path == (head + "/" + before) + name + after && OpensSegment(head + "/" + before);
      }
    }
  }

  /** A normalised relative path of a spec file. */
  lemma TimingPathIff(path: string)
    ensures T.ValidTimingPath(path) <==>
              && '\\' !in path && ':' !in path
              && (forall name | SegmentOf(path, name) :: name !in {"", ".", ".."})
              && exists stem :: path == stem + ".spec.ts" || path == stem + ".spec.tsx"
  {
    hide Split, SegmentOf, EndsWith;
    forall name { SegmentOfIff(path, name); }
    SuffixIff(path, ".spec.ts");
    SuffixIff(path, ".spec.tsx");
    if "/" <= path {
      assert path == "" + "/" + path[1..];
      SplitConcat("", path[1..]);
      SplitName("");
      assert "" in Split(path);
    }
  }
}
