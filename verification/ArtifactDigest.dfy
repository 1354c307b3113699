/** The length-prefixed digest stream over client artifacts, and the build record bound to it. */
module ArtifactDigest {
  import opened Optional
  import opened Decimal
  import Sorting

  /** A path as its UTF-8 bytes. */
  type Path = Bytes

  const COLON: byte := 0x3a

  datatype Artifact = Artifact(path: Path, content: Bytes)

  // ----- the stream fed to the hash

  function Frame(a: Artifact): Bytes {
    Digits(|a.path|) + [COLON] + (a.path + (Digits(|a.content|) + [COLON] + a.content))
  }

  function Stream(artifacts: seq<Artifact>): Bytes {
    if artifacts == [] then [] else Frame(artifacts[0]) + Stream(artifacts[1..])
  }

  /** A length prefix can be read off in only one way. */
  lemma LengthPrefix(m: nat, n: nat, x: Bytes, y: Bytes)
    requires Digits(m) + [COLON] + x == Digits(n) + [COLON] + y
    ensures m == n && x == y
  {
    hide Digits, DigitRun, Value;
    var s, t := Digits(m) + [COLON] + x, Digits(n) + [COLON] + y;
    assert s == Digits(m) + ([COLON] + x) && t == Digits(n) + ([COLON] + y);
    DigitRunStops(Digits(m), [COLON] + x);
    DigitRunStops(Digits(n), [COLON] + y);
    assert s[..|Digits(m)|] == Digits(m) && t[..|Digits(n)|] == Digits(n);
    ValueOfDigits(m);
    ValueOfDigits(n);
    assert s[|Digits(m)| + 1..] == x && t[|Digits(n)| + 1..] == y;
  }

  lemma SameLengthPrefix(a: Bytes, b: Bytes, x: Bytes, y: Bytes)
    requires |a| == |b| && a + x == b + y
    ensures a == b && x == y
  {
    assert (a + x)[..|a|] == a && (b + y)[..|b|] == b;
    assert (a + x)[|a|..] == x && (b + y)[|b|..] == y;
  }

  lemma FramePrefix(a: Artifact, b: Artifact, x: Bytes, y: Bytes)
    requires Frame(a) + x == Frame(b) + y
    ensures a == b && x == y
  {
    var c, d := Digits(|a.content|) + [COLON] + (a.content + x), Digits(|b.content|) + [COLON] + (b.content + y);
    assert Frame(a) + x == Digits(|a.path|) + [COLON] + (a.path + c);
    assert Frame(b) + y == Digits(|b.path|) + [COLON] + (b.path + d);
    LengthPrefix(|a.path|, |b.path|, a.path + c, b.path + d);
    SameLengthPrefix(a.path, b.path, c, d);
    LengthPrefix(|a.content|, |b.content|, a.content + x, b.content + y);
    SameLengthPrefix(a.content, b.content, x, y);
  }

  /** The frame of a file "a" with content "bc" is 1:a2:bc. */
  lemma FrameExample()
    ensures Frame(Artifact([0x61], [0x62, 0x63])) == [0x31, 0x3a, 0x61, 0x32, 0x3a, 0x62, 0x63]
  {
    assert Digits(1) == [0x31] && Digits(2) == [0x32];
  }

  /** Different artifact lists never feed the same bytes to the hash. */
  lemma {:induction false} StreamIsInjective(xs: seq<Artifact>, ys: seq<Artifact>)
    requires Stream(xs) == Stream(ys)
    ensures xs == ys
  {
    if xs != [] && ys != [] {
      FramePrefix(xs[0], ys[0], Stream(xs[1..]), Stream(ys[1..]));
      StreamIsInjective(xs[1..], ys[1..]);
    }
  }

  lemma {:induction false} StreamSnoc(xs: seq<Artifact>, a: Artifact)
    ensures Stream(xs + [a]) == Stream(xs) + Frame(a)
  {
    if xs == [] {
      assert xs + [a] == [a] && [a][1..] == [];
    } else {
      assert (xs + [a])[1..] == xs[1..] + [a];
      StreamSnoc(xs[1..], a);
      assert Frame(xs[0]) + (Stream(xs[1..]) + Frame(a)) == (Frame(xs[0]) + Stream(xs[1..])) + Frame(a);
    }
  }

  lemma StreamOfNone()
    ensures Stream([]) == []
  {
  }

  // ----- what the disk holds

  datatype Node = File(content: Bytes) | Directory

  /** The build tree below the root, by raw path. */
  type Disk = map<Path, Node>

  datatype Error = Missing(path: Path) | NoArtifacts | Unstamped(path: Path) | ForeignEnvironment | ArtifactsDiffer

  datatype Result<+T> = Ok(value: T) | Err(error: Error)

  datatype Digest = Digest(fileCount: nat, sha256: string)

  /** What the build environment supplies: the artifact patterns, the hash, the path order, and whether a bundle's content
      stamp matches its chunks. */
  datatype Tools = Tools(matches: Path -> bool, hash: Bytes -> string, order: (Path, Path) -> bool,
                         stamped: (seq<Artifact>, Path) -> bool)

  /** What the patterns find: every matching file and directory once, in any order. */
  ghost predicate Lists(tools: Tools, listed: seq<Path>, disk: Disk) {
    Sorting.Distinct(listed) && forall p :: p in listed <==> p in disk && tools.matches(p)
  }

  /** The artifacts that a record is about: the matching files. */
  ghost function Tree(tools: Tools, disk: Disk): map<Path, Bytes> {
    map p | p in disk && tools.matches(p) && disk[p].File? :: disk[p].content
  }

  const BACKSLASH: byte := 0x5c
  const SLASH: byte := 0x2f

  /** The path with forward slashes only. */
  function Slashed(p: Path): (r: Path)
    ensures BACKSLASH !in r
    ensures BACKSLASH !in p <==> r == p
  {
    if p == [] then [] else [if p[0] == BACKSLASH then SLASH else p[0]] + Slashed(p[1..])
  }

  /** Byte for byte, a backslash becomes a slash. */
  lemma {:induction false} SlashedAt(p: Path, i: nat)
    requires i < |p|
    ensures |Slashed(p)| == |p| && Slashed(p)[i] == if p[i] == 0x5c then 0x2f else p[i]
  {
    if |p| > 1 { SlashedAt(p[1..], if i > 0 then i - 1 else 0); }
  }

  predicate IsFile(disk: Disk, p: Path) {
    p in disk && disk[p].File?
  }

  /** Every listed path still exists after its backslashes were replaced. */
  predicate AllFound(disk: Disk, listed: seq<Path>) {
    forall p | p in listed :: Slashed(p) in disk
  }

  /** The replaced paths that are files. */
  function Kept(disk: Disk, listed: seq<Path>): (r: seq<Path>)
    ensures forall p | p in r :: IsFile(disk, p)
  {
    if listed == [] then []
    else
      var k := |listed| - 1;
      Kept(disk, listed[..k]) + if IsFile(disk, Slashed(listed[k])) then [Slashed(listed[k])] else []
  }

  predicate AreFiles(disk: Disk, paths: seq<Path>) {
    forall i | 0 <= i < |paths| :: IsFile(disk, paths[i])
  }

  function ArtifactsAt(disk: Disk, paths: seq<Path>): (r: seq<Artifact>)
    requires AreFiles(disk, paths)
    ensures |r| == |paths| && forall i | 0 <= i < |r| :: r[i] == Artifact(paths[i], disk[paths[i]].content)
  {
    seq(|paths|, i requires 0 <= i < |paths| => Artifact(paths[i], disk[paths[i]].content))
  }

  lemma SortedPaths(tools: Tools, disk: Disk, listed: seq<Path>)
    ensures var kept, sorted := Kept(disk, listed), Sorting.SortBy(Kept(disk, listed), tools.order);
            multiset(sorted) == multiset(kept) && |sorted| == |kept| && (forall p :: p in sorted <==> p in kept) && AreFiles(disk, sorted)
  {
    hide Kept;
    var kept := Kept(disk, listed);
    var sorted := Sorting.SortBy(kept, tools.order);
    Sorting.SortPermutes(kept, tools.order);
    forall p ensures p in sorted <==> p in kept {
      assert p in sorted <==> p in multiset(sorted);
      assert p in kept <==> p in multiset(kept);
    }
  }

  /** What the digest sees of a disk: the kept files in path order. */
  ghost function View(tools: Tools, disk: Disk, listed: seq<Path>): seq<Artifact> {
    SortedPaths(tools, disk, listed);
    ArtifactsAt(disk, Sorting.SortBy(Kept(disk, listed), tools.order))
  }

  // ----- the digest

  method KeepFiles(disk: Disk, listed: seq<Path>) returns (r: Result<seq<Path>>)
    ensures r.Ok? <==> AllFound(disk, listed)
    ensures r.Ok? ==> r.value == Kept(disk, listed)
    ensures r.Err? ==> r.error.Missing? && r.error.path !in disk && exists p | p in listed :: Slashed(p) == r.error.path
  {
    hide Slashed;
    var kept: seq<Path> := [];
    for i := 0 to |listed|
      invariant kept == Kept(disk, listed[..i])
      invariant forall j | 0 <= j < i :: Slashed(listed[j]) in disk
    {
      var path := Slashed(listed[i]);
      if path !in disk { return Err(Missing(path)); }
      assert listed[..i + 1][..i] == listed[..i];
      if disk[path].File? { kept := kept + [path]; }
    }
    assert listed[..|listed|] == listed;
    r := Ok(kept);
  }

  ghost predicate AllStamped(tools: Tools, artifacts: seq<Artifact>) {
    forall a | a in artifacts :: tools.stamped(artifacts, a.path)
  }

  /** Feeds the hash file by file; stops at a bundle without its stamp. */
  method FeedAll(tools: Tools, artifacts: seq<Artifact>) returns (r: Result<Bytes>)
    ensures r.Ok? <==> AllStamped(tools, artifacts)
    ensures r.Ok? ==> r.value == Stream(artifacts)
    ensures r.Err? ==> r.error.Unstamped? && !tools.stamped(artifacts, r.error.path)
  {
    hide Stream, Frame;
    StreamOfNone();
    var fed: Bytes := [];
    for i := 0 to |artifacts|
      invariant fed == Stream(artifacts[..i])
      invariant forall j | 0 <= j < i :: tools.stamped(artifacts, artifacts[j].path)
    {
      if !tools.stamped(artifacts, artifacts[i].path) { return Err(Unstamped(artifacts[i].path)); }
      StreamSnoc(artifacts[..i], artifacts[i]);
      assert artifacts[..i + 1] == artifacts[..i] + [artifacts[i]];
      fed := fed + Frame(artifacts[i]);
    }
    assert artifacts[..|artifacts|] == artifacts;
    r := Ok(fed);
  }

  /** Every listed path resolves, there are artifacts, and every bundle carries its stamp. */
  ghost predicate Buildable(tools: Tools, disk: Disk, listed: seq<Path>) {
    AllFound(disk, listed) && View(tools, disk, listed) != [] && AllStamped(tools, View(tools, disk, listed))
  }

  ghost function DigestOf(tools: Tools, disk: Disk, listed: seq<Path>): Digest {
    Digest(|View(tools, disk, listed)|, tools.hash(Stream(View(tools, disk, listed))))
  }

  /** Digest of the listed files, in path order. */
  method ClientArtifactDigest(tools: Tools, disk: Disk, listed: seq<Path>) returns (r: Result<Digest>)
    ensures r.Ok? <==> Buildable(tools, disk, listed)
    ensures r.Ok? ==> r.value == DigestOf(tools, disk, listed)
    ensures r.Err? ==> (r.error.Missing? <==> !AllFound(disk, listed))
    ensures r.Err? ==> (r.error == NoArtifacts <==> AllFound(disk, listed) && View(tools, disk, listed) == [])
    ensures r.Err? ==> r.error.Missing? || r.error == NoArtifacts || r.error.Unstamped?
  {
    hide AllStamped;
    var kept := KeepFiles(disk, listed);
    if kept.Err? { return Err(kept.error); }
    SortedPaths(tools, disk, listed);
    var artifacts := ArtifactsAt(disk, Sorting.SortBy(kept.value, tools.order));
    if |artifacts| == 0 { return Err(NoArtifacts); }
    var fed := FeedAll(tools, artifacts);
    if fed.Err? { return Err(fed.error); }
    r := Ok(Digest(|artifacts|, tools.hash(fed.value)));
  }

  // ----- the record

  const CLIENT_BUILD_ENV_PREFIX := "DSH_CLIENT_"

  datatype BuildRecord = BuildRecord(environment: map<string, string>, artifacts: Digest)

  function Public(environment: map<string, string>): map<string, string> {
    map name | name in environment && CLIENT_BUILD_ENV_PREFIX <= name :: environment[name]
  }

  /** Exactly the variables that the bundlers may inline. */
  lemma PublicIff(environment: map<string, string>, name: string, value: string)
    ensures name in Public(environment) && Public(environment)[name] == value <==>
              name in environment && environment[name] == value && exists rest :: name == "DSH_CLIENT_" + rest
  {
    if "DSH_CLIENT_" <= name { assert name == "DSH_CLIENT_" + name[11..]; }
  }

  method WriteClientBuildRecord(tools: Tools, disk: Disk, listed: seq<Path>, environment: map<string, string>)
      returns (r: Result<BuildRecord>)
    ensures r.Ok? <==> Buildable(tools, disk, listed)
    ensures r.Ok? ==> r.value == BuildRecord(Public(environment), DigestOf(tools, disk, listed))
  {
    var digest := ClientArtifactDigest(tools, disk, listed);
    if digest.Err? { return Err(digest.error); }
    r := Ok(BuildRecord(Public(environment), digest.value));
  }

  /** `expected` is the exact public environment a consumer requires, if any. */
  method ReadClientBuildRecord(tools: Tools, record: BuildRecord, disk: Disk, listed: seq<Path>,
                               expected: Option<map<string, string>>) returns (r: Result<BuildRecord>)
    ensures r.Ok? <==>
              && (forall name | name in record.environment :: CLIENT_BUILD_ENV_PREFIX <= name)
              && (expected.Some? ==> Public(record.environment) == expected.value)
              && Buildable(tools, disk, listed)
              && record.artifacts == DigestOf(tools, disk, listed)
    ensures r.Ok? ==> r.value == record
  {
    hide Buildable;
    if exists name | name in record.environment :: !(CLIENT_BUILD_ENV_PREFIX <= name) { return Err(ForeignEnvironment); }
    if expected.Some? && Public(record.environment) != expected.value { return Err(ForeignEnvironment); }
    var current := ClientArtifactDigest(tools, disk, listed);
    if current.Err? { return Err(current.error); }
    if current.value.fileCount != record.artifacts.fileCount || current.value.sha256 != record.artifacts.sha256 {
      return Err(ArtifactsDiffer);
    }
    r := Ok(record);
  }

  // ----- what the digest sees

  lemma {:induction false} KeptHas(disk: Disk, listed: seq<Path>, q: Path)
    ensures q in Kept(disk, listed) <==> IsFile(disk, q) && exists p | p in listed :: Slashed(p) == q
  {
    hide Slashed;
    if listed != [] {
      var k := |listed| - 1;
      KeptHas(disk, listed[..k], q);
      assert listed[k] in listed && forall p :: p in listed <==> p in listed[..k] || p == listed[k];
      assert q in Kept(disk, listed) <==> q in Kept(disk, listed[..k]) || (IsFile(disk, q) && Slashed(listed[k]) == q);
    }
  }

  lemma {:induction false} KeptTwice(disk: Disk, listed: seq<Path>, i: nat, j: nat)
    requires i < j < |listed| && Slashed(listed[i]) == Slashed(listed[j]) && IsFile(disk, Slashed(listed[i]))
    ensures multiset(Kept(disk, listed))[Slashed(listed[i])] >= 2
  {
    hide Slashed;
    var k := |listed| - 1;
    if j < k {
      KeptTwice(disk, listed[..k], i, j);
    } else {
      KeptHas(disk, listed[..k], Slashed(listed[i]));
      assert listed[i] in listed[..k];
      assert Slashed(listed[i]) in multiset(Kept(disk, listed[..k]));
    }
  }

  /** The replaced path was the raw one, or it names no file. */
  predicate KeepsItself(disk: Disk, p: Path) {
    BACKSLASH in p ==> !IsFile(disk, Slashed(p))
  }

  lemma {:induction false} KeptOnce(disk: Disk, listed: seq<Path>, q: Path)
    requires Sorting.Distinct(listed) && forall p | p in listed :: KeepsItself(disk, p)
    ensures multiset(Kept(disk, listed))[q] <= 1
    ensures q in Kept(disk, listed) ==> q in listed
  {
    if listed != [] {
      var k := |listed| - 1;
      KeptOnce(disk, listed[..k], q);
      assert KeepsItself(disk, listed[k]);
      assert q == listed[k] ==> q !in Kept(disk, listed[..k]);
      assert q !in Kept(disk, listed[..k]) ==> multiset(Kept(disk, listed[..k]))[q] == 0;
    }
  }

  ghost predicate SameContent(d: Disk, l: seq<Path>, e: Disk, m: seq<Path>) {
    forall q | q in Kept(d, l) && q in Kept(e, m) :: d[q].content == e[q].content
  }

  /** Two disks look the same exactly when the same files are kept, equally often and with the same content. */
  lemma ViewsAgree(tools: Tools, d: Disk, l: seq<Path>, e: Disk, m: seq<Path>)
    requires Sorting.TotalOrder(tools.order)
    ensures View(tools, d, l) == View(tools, e, m) <==>
              multiset(Kept(d, l)) == multiset(Kept(e, m)) && SameContent(d, l, e, m)
  {
    hide Kept, SameContent, View;
    if View(tools, d, l) == View(tools, e, m) { SameLooks(tools, d, l, e, m); }
    if multiset(Kept(d, l)) == multiset(Kept(e, m)) && SameContent(d, l, e, m) { SameFiles(tools, d, l, e, m); }
  }

  lemma SameLooks(tools: Tools, d: Disk, l: seq<Path>, e: Disk, m: seq<Path>)
    requires View(tools, d, l) == View(tools, e, m)
    ensures multiset(Kept(d, l)) == multiset(Kept(e, m)) && SameContent(d, l, e, m)
  {
    hide Kept;
    SortedPaths(tools, d, l);
    SortedPaths(tools, e, m);
    var s, t := Sorting.SortBy(Kept(d, l), tools.order), Sorting.SortBy(Kept(e, m), tools.order);
    var v, w := View(tools, d, l), View(tools, e, m);
    forall i | 0 <= i < |s| ensures s[i] == t[i] && d[s[i]].content == e[s[i]].content {
      assert v[i] == w[i];
    }
    assert s == t;
    forall q | q in Kept(d, l) && q in Kept(e, m) ensures d[q].content == e[q].content {
      assert q in s;
    }
  }

  lemma SameFiles(tools: Tools, d: Disk, l: seq<Path>, e: Disk, m: seq<Path>)
    requires Sorting.TotalOrder(tools.order)
    requires multiset(Kept(d, l)) == multiset(Kept(e, m)) && SameContent(d, l, e, m)
    ensures View(tools, d, l) == View(tools, e, m)
  {
    hide Kept;
    var s, t := Sorting.SortBy(Kept(d, l), tools.order), Sorting.SortBy(Kept(e, m), tools.order);
    SameSorted(Kept(d, l), Kept(e, m), tools.order);
    SortedPaths(tools, d, l);
    SortedPaths(tools, e, m);
    forall i | 0 <= i < |s| ensures d[s[i]].content == e[s[i]].content {
      assert s[i] in s && s[i] in t;
    }
    assert ArtifactsAt(d, s) == ArtifactsAt(e, t);
  }

  lemma SameSorted(s: seq<Path>, t: seq<Path>, order: (Path, Path) -> bool)
    requires Sorting.TotalOrder(order) && multiset(s) == multiset(t)
    ensures Sorting.SortBy(s, order) == Sorting.SortBy(t, order)
  {
    Sorting.SortPermutes(s, order);
    Sorting.SortPermutes(t, order);
    Sorting.SortOrders(s, order, order);
    Sorting.SortOrders(t, order, order);
    Sorting.SortedIsCanonical(Sorting.SortBy(s, order), Sorting.SortBy(t, order), order);
  }

  /** The disks agree on every path without a backslash. */
  ghost predicate AgreeOnPlain(d: Disk, e: Disk) {
    forall q | BACKSLASH !in q :: (q in d <==> q in e) && (q in d ==> d[q] == e[q])
  }

  lemma {:induction false} SameKept(d: Disk, e: Disk, listed: seq<Path>)
    requires AgreeOnPlain(d, e)
    ensures Kept(d, listed) == Kept(e, listed)
  {
    hide Slashed;
    if listed != [] { SameKept(d, e, listed[..|listed| - 1]); }
  }

  /** Such disks look the same. */
  lemma SameView(tools: Tools, d: Disk, e: Disk, listed: seq<Path>)
    requires Sorting.TotalOrder(tools.order) && AgreeOnPlain(d, e)
    ensures View(tools, d, listed) == View(tools, e, listed) && AllFound(d, listed) == AllFound(e, listed)
  {
    hide View, Slashed;
    SameKept(d, e, listed);
    forall q | q in Kept(d, listed) ensures d[q].content == e[q].content {
      KeptHas(d, listed, q);
    }
    ViewsAgree(tools, d, listed, e, listed);
  }

  // ----- the record binds the artifacts

  ghost predicate Injective(hash: Bytes -> string) {
    forall x, y :: hash(x) == hash(y) ==> x == y
  }

  /** No listed path holds a backslash. */
  predicate Plain(listed: seq<Path>) {
    forall p | p in listed :: BACKSLASH !in p
  }

  /** A matching file that the digest overlooks, because its replaced path is a directory. */
  ghost predicate Hides(tools: Tools, disk: Disk) {
    exists p | p in disk :: Overlooked(tools, disk, p)
  }

  predicate Overlooked(tools: Tools, disk: Disk, p: Path) {
    tools.matches(p) && IsFile(disk, p) && BACKSLASH in p && Slashed(p) in disk && disk[Slashed(p)].Directory?
  }

  /** Only directories have a backslash in their path, and the replaced path is a directory too. */
  predicate Harmless(disk: Disk, listed: seq<Path>) {
    forall p | p in listed && BACKSLASH in p :: !IsFile(disk, p) && !IsFile(disk, Slashed(p))
  }

  /** A harmless disk and one that hides nothing look the same only if they hold the same artifacts. */
  lemma LooksDetermineTree(tools: Tools, d: Disk, l: seq<Path>, e: Disk, m: seq<Path>)
    requires Sorting.TotalOrder(tools.order) && Lists(tools, l, d) && Lists(tools, m, e)
    requires Harmless(d, l) && !Hides(tools, e) && AllFound(e, m) && View(tools, d, l) == View(tools, e, m)
    ensures Tree(tools, d) == Tree(tools, e)
  {
    hide View, Slashed;
    ViewsAgree(tools, d, l, e, m);
    forall q ensures q in Kept(d, l) <==> q in Kept(e, m) {
      assert q in Kept(d, l) <==> q in multiset(Kept(d, l));
      assert q in Kept(e, m) <==> q in multiset(Kept(e, m));
    }
    forall p | p in Tree(tools, d) ensures p in Tree(tools, e) && Tree(tools, d)[p] == Tree(tools, e)[p] {
      assert Slashed(p) == p;
      KeptHas(d, l, p);
      KeptHas(e, m, p);
    }
    forall p | p in Tree(tools, e) ensures p in Tree(tools, d) {
      NoBackslashLeft(tools, d, l, e, m, p);
      KeptHas(e, m, p);
      KeptOnce(d, l, p);
    }
  }

  lemma NoBackslashLeft(tools: Tools, d: Disk, l: seq<Path>, e: Disk, m: seq<Path>, p: Path)
    requires Lists(tools, l, d) && Lists(tools, m, e)
    requires Harmless(d, l) && !Hides(tools, e) && AllFound(e, m)
    requires multiset(Kept(d, l)) == multiset(Kept(e, m)) && p in Tree(tools, e)
    ensures BACKSLASH !in p && Slashed(p) == p
  {
    hide Kept, Slashed;
    if BACKSLASH in p {
      var q := Slashed(p);
      assert !Overlooked(tools, e, p);
      KeptHas(e, m, q);
      assert q in multiset(Kept(d, l));
      KeptOnce(d, l, q);
      assert q in m;
      var i :| 0 <= i < |m| && m[i] == p;
      var j :| 0 <= j < |m| && m[j] == q;
      assert Slashed(q) == q;
      if i < j { KeptTwice(e, m, i, j); } else { KeptTwice(e, m, j, i); }
    }
  }

  /** Without backslashes what the digest sees determines the artifacts, and they determine it whatever the listing order. */
  lemma FedDeterminesTree(tools: Tools, d: Disk, l: seq<Path>, e: Disk, m: seq<Path>)
    requires Sorting.TotalOrder(tools.order) && Lists(tools, l, d) && Lists(tools, m, e) && Plain(l) && Plain(m)
    ensures Stream(View(tools, d, l)) == Stream(View(tools, e, m)) <==> Tree(tools, d) == Tree(tools, e)
  {
    hide View, Stream, Kept, Slashed;
    if Stream(View(tools, d, l)) == Stream(View(tools, e, m)) {
      StreamIsInjective(View(tools, d, l), View(tools, e, m));
      LooksDetermineTree(tools, d, l, e, m);
    }
    if Tree(tools, d) == Tree(tools, e) {
      forall q ensures multiset(Kept(d, l))[q] == multiset(Kept(e, m))[q] {
        PlainKept(tools, d, l, q);
        PlainKept(tools, e, m, q);
      }
      forall q | q in Kept(d, l) && q in Kept(e, m) ensures d[q].content == e[q].content {
        PlainKept(tools, d, l, q);
        assert Tree(tools, d)[q] == Tree(tools, e)[q];
      }
      ViewsAgree(tools, d, l, e, m);
    }
  }

  lemma PlainKept(tools: Tools, disk: Disk, listed: seq<Path>, q: Path)
    requires Lists(tools, listed, disk) && Plain(listed)
    ensures multiset(Kept(disk, listed))[q] == if q in Tree(tools, disk) then 1 else 0
    ensures q in Kept(disk, listed) <==> q in Tree(tools, disk)
  {
    hide Slashed, Kept;
    KeptOnce(disk, listed, q);
    KeptHas(disk, listed, q);
    assert q in Kept(disk, listed) <==> q in multiset(Kept(disk, listed));
    if q in Tree(tools, disk) { assert Slashed(q) == q; }
  }

  /** A record of `d` would be accepted for `e`. */
  ghost predicate Accepts(tools: Tools, d: Disk, l: seq<Path>, e: Disk, m: seq<Path>) {
    AllFound(e, m) && View(tools, e, m) == View(tools, d, l)
  }

  /** A record written for one disk is accepted for another exactly when that one resolves and looks the same (with a
      collision-free hash).  Where no path holds a backslash, that is when the artifacts are the same, file for file and
      byte for byte, whatever the listing order. */
  method RecordBindsArtifacts(tools: Tools, d: Disk, l: seq<Path>, environment: map<string, string>, e: Disk, m: seq<Path>)
      returns (accepted: bool)
    requires Sorting.TotalOrder(tools.order) && Injective(tools.hash)
    requires Lists(tools, l, d) && Lists(tools, m, e) && Buildable(tools, d, l)
    ensures accepted <==> Accepts(tools, d, l, e, m)
    ensures Plain(l) && Plain(m) ==> (accepted <==> Tree(tools, d) == Tree(tools, e))
  {
    hide View, Stream, Slashed, Lists, AllFound, Tree;
    var written := WriteClientBuildRecord(tools, d, l, environment);
    var read := ReadClientBuildRecord(tools, written.value, e, m, Some(Public(environment)));
    accepted := read.Ok?;
    assert Public(Public(environment)) == Public(environment);
    if Stream(View(tools, d, l)) == Stream(View(tools, e, m)) { StreamIsInjective(View(tools, d, l), View(tools, e, m)); }
    if Plain(l) && Plain(m) {
      FedDeterminesTree(tools, d, l, e, m);
      PlainIsFound(tools, m, e);
    }
  }

  lemma PlainIsFound(tools: Tools, listed: seq<Path>, disk: Disk)
    requires Lists(tools, listed, disk) && Plain(listed)
    ensures AllFound(disk, listed)
  {
    hide Slashed;
  }

  /** Whatever hides nothing and is accepted for a record of `d` holds the artifacts of `d`. */
  ghost predicate Binds(tools: Tools, d: Disk, l: seq<Path>) {
    forall e, m | Lists(tools, m, e) && !Hides(tools, e) && Accepts(tools, d, l, e, m) :: Tree(tools, e) == Tree(tools, d)
  }

  /** A record binds the artifacts exactly when no backslash is in the path of a file, or of a directory that is taken for a file. */
  lemma BindsIff(tools: Tools, d: Disk, l: seq<Path>)
    requires Sorting.TotalOrder(tools.order) && Lists(tools, l, d) && Buildable(tools, d, l)
    ensures Binds(tools, d, l) <==> Harmless(d, l)
  {
    hide View, Slashed, Tree, Lists, AllStamped;
    if Harmless(d, l) {
      forall e, m | Lists(tools, m, e) && !Hides(tools, e) && Accepts(tools, d, l, e, m) ensures Tree(tools, e) == Tree(tools, d) {
        LooksDetermineTree(tools, d, l, e, m);
      }
    } else {
      var p :| p in l && BACKSLASH in p && (IsFile(d, p) || IsFile(d, Slashed(p)));
      var e := Forged(tools, d, l, p);
      SameView(tools, d, e, l);
      assert Accepts(tools, d, l, e, l);
    }
  }

  /** Another disk with the same paths that looks the same, hides nothing, and differs in the artifact `p`. */
  lemma Forged(tools: Tools, d: Disk, l: seq<Path>, p: Path) returns (e: Disk)
    requires Lists(tools, l, d) && AllFound(d, l)
    requires p in l && BACKSLASH in p && (IsFile(d, p) || IsFile(d, Slashed(p)))
    ensures AgreeOnPlain(d, e)
    ensures Lists(tools, l, e) && !Hides(tools, e) && Tree(tools, e) != Tree(tools, d)
  {
    hide Slashed;
    e := map q | q in d :: if Overlooked(tools, d, q) then Directory else d[q];
    if IsFile(d, Slashed(p)) {
      var other := if IsFile(d, p) && d[p].content == [] then [BACKSLASH] else [];
      e := e[p := File(other)];
      assert p in Tree(tools, e) && Tree(tools, e)[p] == other;
      assert p in Tree(tools, d) ==> Tree(tools, d)[p] != other;
    } else {
      assert p in Tree(tools, d) && p !in Tree(tools, e);
    }
  }

  /** Without the restriction to disks that hide nothing no record would bind: adding a file whose replaced path is a
      directory goes unnoticed. */
  lemma OverlookedIsFree(tools: Tools, d: Disk, l: seq<Path>, p: Path, content: Bytes)
    requires Sorting.TotalOrder(tools.order) && Lists(tools, l, d) && Buildable(tools, d, l)
    requires p !in d && tools.matches(p) && BACKSLASH in p && Slashed(p) in d && d[Slashed(p)].Directory?
    ensures var e := d[p := File(content)];
            Lists(tools, l + [p], e) && Hides(tools, e) && Accepts(tools, d, l, e, l + [p]) && Tree(tools, e) != Tree(tools, d)
  {
    hide View, Slashed, AllStamped;
    var e := d[p := File(content)];
    assert AgreeOnPlain(d, e);
    SameView(tools, d, e, l);
    assert (l + [p])[..|l|] == l && p !in l;
    assert Kept(e, l + [p]) == Kept(e, l);
    ViewsAgree(tools, e, l, e, l + [p]);
    assert Overlooked(tools, e, p);
    assert p in Tree(tools, e) && p !in Tree(tools, d);
  }

  /** The files a\b.js and a/b.js. */
  const TWIN: Path := [0x61] + ([BACKSLASH] + TAIL)
  const ORIGINAL: Path := [0x61] + ([SLASH] + TAIL)
  const TAIL: Path := [0x62, 0x2e, 0x6a, 0x73]

  lemma SlashedCons(b: byte, p: Path)
    ensures Slashed([b] + p) == [if b == BACKSLASH then SLASH else b] + Slashed(p)
  {
    assert ([b] + p)[1..] == p;
  }

  lemma TwinIsReplaced()
    ensures Slashed(TWIN) == ORIGINAL && BACKSLASH in TWIN && BACKSLASH !in ORIGINAL && TWIN != ORIGINAL
  {
    hide Slashed;
    assert Slashed(TAIL) == TAIL;
    SlashedCons(BACKSLASH, TAIL);
    SlashedCons(0x61, [BACKSLASH] + TAIL);
    assert TWIN[1] == BACKSLASH && ORIGINAL[1] == SLASH;
  }

  /** A record of both files is accepted after the content of the first one changed: the second was read twice. */
  lemma TwinExample(tools: Tools, x: Bytes, y: Bytes, z: Bytes)
    requires Sorting.TotalOrder(tools.order) && tools.matches(TWIN) && tools.matches(ORIGINAL) && x != z
    ensures var l := [TWIN, ORIGINAL];
            var d, e := map[TWIN := File(x), ORIGINAL := File(y)], map[TWIN := File(z), ORIGINAL := File(y)];
            && Lists(tools, l, d) && Lists(tools, l, e) && Accepts(tools, d, l, e, l) && !Hides(tools, e)
            && Tree(tools, d) != Tree(tools, e)
  {
    hide View, Slashed;
    var d: Disk, e: Disk := map[TWIN := File(x), ORIGINAL := File(y)], map[TWIN := File(z), ORIGINAL := File(y)];
    TwinIsReplaced();
    assert Slashed(ORIGINAL) == ORIGINAL;
    SameView(tools, d, e, [TWIN, ORIGINAL]);
    assert Tree(tools, d)[TWIN] == x && Tree(tools, e)[TWIN] == z;
  }
}
