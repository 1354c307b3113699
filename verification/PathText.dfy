/** String tests on repository-relative paths. */
module PathText {

  /** The segments between slashes; always at least one. */
  function Split(path: string): (parts: seq<string>)
    ensures parts != []
  {
    if path == "" then [""]
    else
      var rest := Split(path[1..]);
      if path[0] == '/' then [""] + rest else [[path[0]] + rest[0]] + rest[1..]
  }

  function LastSegment(path: string): string {
    var parts := Split(path);
    parts[|parts| - 1]
  }

  /** The path with forward slashes only. */
  function Slashes(path: string): (r: string)
    ensures |r| == |path|
    ensures '\\' !in r
    ensures '\\' !in path <==> r == path
  {
    if path == [] then [] else [if path[0] == '\\' then '/' else path[0]] + Slashes(path[1..])
  }

  /** Character by character, a backslash becomes a slash. */
  lemma {:induction false} SlashesAt(path: string, i: nat)
    requires i < |path|
    ensures Slashes(path)[i] == if path[i] == '\\' then '/' else path[i]
  {
    if i > 0 { SlashesAt(path[1..], i - 1); }
  }

  lemma {:induction false} SlashesConcat(a: string, b: string)
    ensures Slashes(a + b) == Slashes(a) + Slashes(b)
  {
    if a == [] {
      assert a + b == b;
    } else {
      assert (a + b)[1..] == a[1..] + b;
      SlashesConcat(a[1..], b);
    }
  }

  predicate StartsWith(s: string, prefix: string) {
    prefix <= s
  }

  predicate EndsWith(s: string, suffix: string) {
    |suffix| <= |s| && s[|s| - |suffix|..] == suffix
  }

  predicate Contains(s: string, part: string) {
    exists i | 0 <= i <= |s| :: StartsWith(s[i..], part)
  }

  predicate StartsWithAny(s: string, prefixes: seq<string>) {
    exists prefix | prefix in prefixes :: StartsWith(s, prefix)
  }

  predicate EndsWithAny(s: string, suffixes: seq<string>) {
    exists suffix | suffix in suffixes :: EndsWith(s, suffix)
  }

  /** `path` is `prefix` or lies below it. */
  predicate InTree(path: string, prefix: string) {
    path == prefix || StartsWith(path, prefix + "/")
  }

  /** Neither string is a prefix of the other. */
  predicate Diverge(a: string, b: string) {
    exists i :: 0 <= i < |a| && i < |b| && a[i] != b[i]
  }

  lemma DivergentPrefixes(s: string, a: string, b: string)
    requires StartsWith(s, a) && Diverge(a, b)
    ensures !StartsWith(s, b)
  {
    var i :| 0 <= i < |a| && i < |b| && a[i] != b[i];
    assert s[i] == a[i];
  }

  lemma {:induction false} SplitAfterSlash(name: string, rest: string)
    requires '/' !in name
    ensures Split(name + "/" + rest) == [name] + Split(rest)
  {
    var path := name + "/" + rest;
    if name == "" {
      assert path[1..] == rest;
    } else {
      assert path[1..] == name[1..] + "/" + rest;
      assert [name[0]] + name[1..] == name;
      SplitAfterSlash(name[1..], rest);
    }
  }

  lemma {:induction false} SegmentHasNoSlash(path: string, k: nat)
    requires k < |Split(path)|
    ensures '/' !in Split(path)[k]
  {
    if path != "" {
      var rest := Split(path[1..]);
      if path[0] == '/' {
        if k > 0 { SegmentHasNoSlash(path[1..], k - 1); }
      } else {
        SegmentHasNoSlash(path[1..], k);
      }
    }
  }

  lemma {:induction false} SplitName(name: string)
    requires '/' !in name
    ensures Split(name) == [name]
  {
    if name != "" {
      SplitName(name[1..]);
      assert [name[0]] + name[1..] == name;
    }
  }
}
