/** The sealed manifest of archived notes: paths and content hashes that later revisions must keep. */
module ArchiveManifest {
  import opened ObjectMembers
  import Sorting

  type Path = string
  type Hash = string
  type Files = map<Path, Hash>

  /** An authorised replacement of one sealed hash. */
  datatype Change = Change(path: Path, before: Hash, after: Hash)

  const FIGMA_LINK_REMOVALS: seq<Change> := [
    Change("feature/2026-08-10-durable-workflow-runs-in-chat.md",
           "sha256:f9f5290cd880908d17b1080ae5776f22e182f5253471f90cf8bead418b33b502",
           "sha256:6018de4a89ca99d6cbfd618aff1c8136b23d8e4854a30f7b12a602f0417cbdc2"),
    Change("feature/2026-08-10-durable-workflow-runs-in-chat.zh.md",
           "sha256:f4ffd2700bc9c2a0cc4b9d90f84e1d0a576939e2e6f0b130c5b142fd8cd518b0",
           "sha256:0080859221773122022d5880efa3d52f29c0872b52d63e170250d94f214ff37a"),
    Change("feature/2026-08-10-durable-workflow-runs-in-chat.i18n.yaml",
           "sha256:0db3c21a3c8785e56d5d7b90df990b158069cd1cea664e62fc4786c6d7588450",
           "sha256:03eadb60c8ba4fde262cd61e3f911d8cd68ea4a58f57adeb8dd7bb9a97d08ca2")
  ]

  // ----- the validator

  datatype Fault = EntryMissing(path: Path) | HashChanged(path: Path) | ArtifactMissing(path: Path) | ContentChanged(path: Path)

  predicate Kept(table: seq<Change>, baseline: Files, current: Files, p: Path)
    requires p in baseline
  {
    p in current && (current[p] == baseline[p] || Change(p, baseline[p], current[p]) in table)
  }

  /** Every sealed entry is still there with its hash, or with the authorised replacement of it. */
  ghost predicate Extends(table: seq<Change>, baseline: Files, current: Files) {
    forall p | p in baseline :: Kept(table, baseline, current, p)
  }

  /** What is wrong with an entry that was not kept.  The table is a plain object: where an inherited member answers for an
      absent path, the entry counts as changed. */
  function Offence(current: Files, p: Path): Fault {
    if p in current || Inherited(p) then HashChanged(p) else EntryMissing(p)
  }

  method ValidateArchiveManifestExtension(table: seq<Change>, baseline: Files, current: Files) returns (errors: seq<Fault>)
    ensures errors == [] <==> Extends(table, baseline, current)
    ensures forall e | e in errors :: e.path in baseline && !Kept(table, baseline, current, e.path)
                                      && e == Offence(current, e.path)
    ensures forall p | p in baseline && !Kept(table, baseline, current, p) :: exists e | e in errors :: e.path == p
  {
    errors := [];
    var todo := baseline.Keys;
    while todo != {}
      invariant todo <= baseline.Keys
      invariant forall e | e in errors :: e.path in baseline && !Kept(table, baseline, current, e.path)
                                          && e == Offence(current, e.path)
      invariant forall p | p in baseline && p !in todo && !Kept(table, baseline, current, p) :: exists e | e in errors :: e.path == p
    {
      var p :| p in todo;
      ghost var before := errors;
      if p !in current {
        errors := errors + [if Inherited(p) then HashChanged(p) else EntryMissing(p)];
      } else if current[p] != baseline[p] && Change(p, baseline[p], current[p]) !in table {
        errors := errors + [HashChanged(p)];
      }
      assert forall e | e in before :: e in errors;
      assert !Kept(table, baseline, current, p) ==> errors[|errors| - 1].path == p;
      todo := todo - {p};
    }
    assert errors != [] ==> errors[0] in errors;
  }

  // ----- the relation that the validator decides

  lemma ExtendsIsReflexive(table: seq<Change>, m: Files)
    ensures Extends(table, m, m)
  {
  }

  /** No authorised replacement starts where another one of the same path ends. */
  ghost predicate NoChains(table: seq<Change>) {
    forall c, d | c in table && d in table && c.path == d.path :: c.after != d.before
  }

  lemma FigmaTableHasNoChains()
    ensures NoChains(FIGMA_LINK_REMOVALS)
  {
    var t := FIGMA_LINK_REMOVALS;
    assert |t[0].path| < |t[1].path| < |t[2].path|;
    assert t[0].after[69] == 'c' && t[0].before[69] == '0';
    assert t[1].after[70] == 'a' && t[1].before[70] == '0';
    assert t[2].after[70] == '2' && t[2].before[70] == '0';
  }

  /** Where one replacement ends and another starts, the table also has the way from one end to the other. */
  ghost predicate ChainsClosed(table: seq<Change>) {
    forall c, d | c in table && d in table && c.path == d.path && c.after == d.before ::
      c.before == d.after || Change(c.path, c.before, d.after) in table
  }

  ghost predicate Composes(table: seq<Change>) {
    forall a, b, c | Extends(table, a, b) && Extends(table, b, c) :: Extends(table, a, c)
  }

  lemma ExtendsIsTransitive(table: seq<Change>, a: Files, b: Files, c: Files)
    requires ChainsClosed(table) && Extends(table, a, b) && Extends(table, b, c)
    ensures Extends(table, a, c)
  {
    forall p | p in a ensures Kept(table, a, c, p) {
      assert Kept(table, a, b, p) && Kept(table, b, c, p);
    }
  }

  /** Validated steps compose exactly when the exception table closes its chains; a table without chains does. */
  lemma ComposesIff(table: seq<Change>)
    ensures Composes(table) <==> ChainsClosed(table)
    ensures NoChains(table) ==> ChainsClosed(table)
  {
    hide Extends;
    if ChainsClosed(table) {
      forall a, b, c | Extends(table, a, b) && Extends(table, b, c) ensures Extends(table, a, c) {
        ExtendsIsTransitive(table, a, b, c);
      }
    }
    if Composes(table) {
      forall c, d | c in table && d in table && c.path == d.path && c.after == d.before
        ensures c.before == d.after || Change(c.path, c.before, d.after) in table
      {
        SingleStep(table, c.path, c.before, c.after);
        SingleStep(table, c.path, c.after, d.after);
        SingleStep(table, c.path, c.before, d.after);
        assert Change(c.path, c.before, c.after) == c && Change(c.path, c.after, d.after) == d;
      }
    }
  }

  lemma SingleStep(table: seq<Change>, p: Path, before: Hash, after: Hash)
    ensures Extends(table, map[p := before], map[p := after]) <==> before == after || Change(p, before, after) in table
  {
    assert Extends(table, map[p := before], map[p := after]) ==> Kept(table, map[p := before], map[p := after], p);
  }

  // ----- extension

  ghost predicate Lists(listed: seq<Path>, artifacts: map<Path, seq<bv8>>) {
    Sorting.Distinct(listed) && forall p :: p in listed <==> p in artifacts
  }

  /** An artifact whose path spells an inherited object member looks sealed already and is never added. */
  ghost function Extended(existing: Files, artifacts: map<Path, seq<bv8>>, hash: seq<bv8> -> Hash): Files {
    existing + (map p | p in artifacts && p !in existing && !Inherited(p) :: hash(artifacts[p]))
  }

  predicate Intact(existing: Files, artifacts: map<Path, seq<bv8>>, hash: seq<bv8> -> Hash, p: Path)
    requires p in existing
  {
    p in artifacts && hash(artifacts[p]) == existing[p]
  }

  /** What is wrong with a sealed artifact that is not intact. */
  function Damage(artifacts: map<Path, seq<bv8>>, p: Path): Fault {
    if p in artifacts then ContentChanged(p) else ArtifactMissing(p)
  }

  /** The faults are those of the damaged ones among `paths`, each with its kind. */
  ghost predicate Reports(errors: seq<Fault>, paths: set<Path>, existing: Files, artifacts: map<Path, seq<bv8>>, hash: seq<bv8> -> Hash) {
    && (forall e | e in errors :: e.path in paths && e.path in existing && !Intact(existing, artifacts, hash, e.path)
                                  && e == Damage(artifacts, e.path))
    && (forall p | p in paths && p in existing && !Intact(existing, artifacts, hash, p) :: Damage(artifacts, p) in errors)
  }

  method CheckSealed(existing: Files, artifacts: map<Path, seq<bv8>>, hash: seq<bv8> -> Hash) returns (errors: seq<Fault>)
    ensures Reports(errors, existing.Keys, existing, artifacts, hash)
    ensures errors == [] <==> forall p | p in existing :: Intact(existing, artifacts, hash, p)
  {
    errors := [];
    var todo := existing.Keys;
    while todo != {}
      invariant todo <= existing.Keys
      invariant Reports(errors, existing.Keys - todo, existing, artifacts, hash)
    {
      var p :| p in todo;
      ghost var before := errors;
      if p !in artifacts {
        errors := errors + [ArtifactMissing(p)];
      } else if hash(artifacts[p]) != existing[p] {
        errors := errors + [ContentChanged(p)];
      }
      assert forall e :: e in errors <==> e in before || (!Intact(existing, artifacts, hash, p) && e == Damage(artifacts, p));
      todo := todo - {p};
    }
    assert errors != [] ==> errors[0] in errors;
  }

  /** Seals the listed artifacts that are not sealed yet. */
  method AppendNew(existing: Files, artifacts: map<Path, seq<bv8>>, paths: seq<Path>, hash: seq<bv8> -> Hash)
      returns (files: Files, added: seq<Path>)
    requires Lists(paths, artifacts)
    ensures files == Extended(existing, artifacts, hash)
    ensures forall p :: p in added <==> p in artifacts && p !in existing && !Inherited(p)
    ensures Sorting.Distinct(added)
  {
    hide Extended, Inherited;
    files, added := existing, [];
    for i := 0 to |paths|
      invariant existing.Keys <= files.Keys <= existing.Keys + artifacts.Keys
      invariant forall j | 0 <= j < i :: paths[j] in files || Inherited(paths[j])
      invariant forall p | p in files && Inherited(p) :: p in existing
      invariant forall p | p in files :: files[p] == if p in existing then existing[p] else hash(artifacts[p])
      invariant forall p :: p in added <==> p in files && p !in existing
      invariant Sorting.Distinct(added)
    {
      var path := paths[i];
      assert path in artifacts;
      if path !in files && !Inherited(path) {
        files := files[path := hash(artifacts[path])];
        added := added + [path];
      }
    }
    assert forall p | p in artifacts :: p in paths;
    IsExtended(existing, artifacts, hash, files);
  }

  lemma IsExtended(existing: Files, artifacts: map<Path, seq<bv8>>, hash: seq<bv8> -> Hash, files: Files)
    requires forall p :: p in files <==> p in existing || (p in artifacts && !Inherited(p))
    requires forall p | p in files :: files[p] == if p in existing then existing[p] else hash(artifacts[p])
    ensures files == Extended(existing, artifacts, hash)
  {
  }

  /** Keeps every sealed path and hash and appends the hashes of newly archived artifacts, in path order. */
  method ExtendArchiveManifest(existing: Files, artifacts: map<Path, seq<bv8>>, listed: seq<Path>,
                               hash: seq<bv8> -> Hash, collate: (Path, Path) -> bool)
      returns (files: Files, added: seq<Path>, errors: seq<Fault>)
    requires Lists(listed, artifacts)
    ensures files == Extended(existing, artifacts, hash)
    ensures forall p :: p in added <==> p in artifacts && p !in existing && !Inherited(p)
    ensures Sorting.Distinct(added)
    ensures Reports(errors, existing.Keys, existing, artifacts, hash)
    ensures errors == [] <==> forall p | p in existing :: Intact(existing, artifacts, hash, p)
  {
    errors := CheckSealed(existing, artifacts, hash);
    var paths := Sorting.SortBy(listed, collate);
    Sorting.SortPermutes(listed, collate);
    Sorting.DistinctPermutation(listed, paths);
    files, added := AppendNew(existing, artifacts, paths, hash);
  }

  // ----- extension against validation

  /** What an extension produces always passes the validator, even when it reported errors. */
  lemma ExtensionValidates(table: seq<Change>, existing: Files, artifacts: map<Path, seq<bv8>>, hash: seq<bv8> -> Hash)
    ensures Extends(table, existing, Extended(existing, artifacts, hash))
  {
  }

  /** Extending twice adds nothing. */
  lemma ExtendIsIdempotent(existing: Files, artifacts: map<Path, seq<bv8>>, hash: seq<bv8> -> Hash)
    ensures var once := Extended(existing, artifacts, hash);
            Extended(once, artifacts, hash) == once && forall p | p in artifacts && !Inherited(p) :: p in once
  {
    hide Inherited;
  }

  ghost predicate IsHistory(table: seq<Change>, history: seq<Files>) {
    history != [] && forall i | 0 < i < |history| :: Extends(table, history[i - 1], history[i])
  }

  /** Over any validated history every sealed path stays sealed, with its hash or the authorised replacement. */
  lemma {:induction false} HistoryKeepsSeals(table: seq<Change>, history: seq<Files>, i: nat, j: nat)
    requires ChainsClosed(table) && IsHistory(table, history) && i <= j < |history|
    ensures Extends(table, history[i], history[j])
  {
    if i == j {
      ExtendsIsReflexive(table, history[i]);
    } else {
      HistoryKeepsSeals(table, history, i, j - 1);
      ExtendsIsTransitive(table, history[i], history[j - 1], history[j]);
    }
  }

  /** A sealed hash changes at most once in a history: after an authorised replacement it is final. */
  lemma ReplacedIsFinal(table: seq<Change>, history: seq<Files>, i: nat, j: nat, k: nat, p: Path)
    requires NoChains(table) && IsHistory(table, history) && i <= j <= k < |history| && p in history[i]
    ensures p in history[j] && p in history[k]
    ensures history[j][p] != history[i][p] ==> history[k][p] == history[j][p]
  {
    ComposesIff(table);
    HistoryKeepsSeals(table, history, i, j);
    HistoryKeepsSeals(table, history, j, k);
    assert Kept(table, history[i], history[j], p);
    assert Kept(table, history[j], history[k], p);
  }

  // ----- the closed JSON schema

  datatype Json = Object(members: map<string, Json>) | Text(text: string) | Number(value: int) | OtherJson

  datatype Parsed = Ok(files: Files) | Rejected

  predicate HexDigit(c: char) {
    '0' <= c <= '9' || 'a' <= c <= 'f'
  }

  predicate ValidHash(h: Hash) {
    |h| == 71 && h[..7] == "sha256:" && forall i | 7 <= i < 71 :: HexDigit(h[i])
  }

  /** ^sha256:[0-9a-f]{64}$ */
  lemma ValidHashIff(h: Hash)
    ensures ValidHash(h) <==> exists hex :: |hex| == 64 && h == "sha256:" + hex && forall c | c in hex :: c in "0123456789abcdef"
  {
    assert |"sha256:"| == 7;
    forall c ensures HexDigit(c) <==> c in "0123456789abcdef" { HexDigitIff(c); }
    if ValidHash(h) {
      var hex := h[7..];
      assert h == "sha256:" + hex;
    }
    if hex :| |hex| == 64 && h == "sha256:" + hex && forall c | c in hex :: c in "0123456789abcdef" {
      assert forall i | 7 <= i < 71 :: h[i] == hex[i - 7] && hex[i - 7] in hex;
    }
  }

  lemma HexDigitIff(c: char)
    ensures HexDigit(c) <==> c in "0123456789abcdef"
  {
  }

  function RenderArchiveManifest(files: Files): Json {
    Object(map["version" := Number(1), "files" := Object(map p | p in files :: Text(files[p]))])
  }

  const PROTO := "__proto__"

  /** An entry named `__proto__` is checked, but assigning it to the result sets no property. */
  function ParseArchiveManifest(value: Json): Parsed {
    if !value.Object? || value.members.Keys != {"files", "version"} then Rejected
    else if value.members["version"] != Number(1) || !value.members["files"].Object? then Rejected
    else
      var entries := value.members["files"].members;
      if exists p | p in entries :: !entries[p].Text? || !ValidHash(entries[p].text) then Rejected
      else Ok(map p | p in entries && p != PROTO :: entries[p].text)
  }

  ghost predicate ValidFiles(files: Files) {
    forall p | p in files :: ValidHash(files[p])
  }

  /** `value` renders `files`, or `files` with an entry that parsing drops. */
  ghost predicate Renders(value: Json, files: Files) {
    value == RenderArchiveManifest(files) || exists h :: ValidHash(h) && value == RenderArchiveManifest(files[PROTO := h])
  }

  /** Parsing accepts exactly what rendering a manifest of well-formed hashes produces, and returns that manifest, except
      that it drops an entry named `__proto__`. */
  lemma ParseInvertsRender(value: Json, files: Files)
    ensures ParseArchiveManifest(value) == Ok(files) <==> ValidFiles(files) && PROTO !in files && Renders(value, files)
  {
    hide ValidHash, ParseArchiveManifest, RenderArchiveManifest;
    if ValidFiles(files) && PROTO !in files {
      if value == RenderArchiveManifest(files) {
        ParseRendered(files, files);
      } else if h :| ValidHash(h) && value == RenderArchiveManifest(files[PROTO := h]) {
        ParseRendered(files[PROTO := h], files);
      }
    }
    if ParseArchiveManifest(value) == Ok(files) { ParsedIsRendered(value, files); }
  }

  lemma ParseRendered(all: Files, files: Files)
    requires ValidFiles(all) && PROTO !in files && (all == files || (PROTO in all && files == all - {PROTO}))
    ensures ParseArchiveManifest(RenderArchiveManifest(all)) == Ok(files)
  {
    hide ValidHash;
    var value := RenderArchiveManifest(all);
    assert value.members.Keys == {"files", "version"};
    assert value.members["files"].members == map p | p in all :: Text(all[p]);
    assert files == map p | p in all && p != PROTO :: all[p];
  }

  lemma ParsedIsRendered(value: Json, files: Files)
    requires ParseArchiveManifest(value) == Ok(files)
    ensures ValidFiles(files) && PROTO !in files && Renders(value, files)
  {
    hide ValidHash;
    var entries := value.members["files"].members;
    assert value.members == map["version" := Number(1), "files" := Object(entries)];
    if PROTO in entries {
      var h := entries[PROTO].text;
      var all := files[PROTO := h];
      assert entries == map p | p in all :: Text(all[p]);
      assert value == RenderArchiveManifest(files[PROTO := h]);
    } else {
      assert entries == map p | p in files :: Text(files[p]);
    }
  }
}
