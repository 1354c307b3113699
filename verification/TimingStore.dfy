/** The persisted duration history that weights the next coverage run. */
module TimingStore {
  import opened Optional
  import opened PathText

  type Path = string

  datatype Number = Finite(value: real) | NonFinite

  /** A JSON value as far as the reader distinguishes it. */
  datatype Value = Numeric(number: Number) | Text(text: string) | Other

  /** The file's content: absent, corrupt or not an object; or an object with these members. */
  datatype Stored =
    | Unreadable
    | Record(version: Value, identity: Value, recordedAt: Value, durations: Option<map<Path, Value>>)

  const TIMING_CACHE_VERSION := Numeric(Finite(1.0))
  const TIMING_CACHE_MAX_AGE_MS := 14.0 * 24.0 * 60.0 * 60.0 * 1000.0

  // ----- admissible entries

  predicate ValidTimingPath(path: Path) {
    && !("/" <= path) && '\\' !in path && ':' !in path
    && (forall part | part in Split(path) :: part != "" && part != "." && part != "..")
    && (EndsWith(path, ".spec.ts") || EndsWith(path, ".spec.tsx"))
  }

  predicate ValidDuration(n: Number) {
    n.Finite? && n.value >= 0.0
  }

  predicate ValidEntry(path: Path, v: Value) {
    ValidTimingPath(path) && v.Numeric? && ValidDuration(v.number)
  }

  // ----- what a stored file means

  predicate Current(store: Stored, identity: string, now: real) {
    && store.Record? && store.version == TIMING_CACHE_VERSION && store.identity == Text(identity)
    && store.recordedAt.Numeric? && store.recordedAt.number.Finite?
    && store.recordedAt.number.value <= now
    && now - store.recordedAt.number.value <= TIMING_CACHE_MAX_AGE_MS
    && store.durations.Some?
  }

  /** The durations that a reader with this identity and clock may use; one bad entry voids them all. */
  ghost function Readable(store: Stored, identity: string, now: real): map<Path, real> {
    if Current(store, identity, now) && forall f | f in store.durations.value :: ValidEntry(f, store.durations.value[f])
    then map f | f in store.durations.value :: store.durations.value[f].number.value
    else map[]
  }

  ghost function Valid(durations: map<Path, Number>): map<Path, real> {
    map f | f in durations && ValidTimingPath(f) && ValidDuration(durations[f]) :: durations[f].value
  }

  predicate Present(current: Option<seq<Path>>, f: Path) {
    current.Some? ==> f in current.value
  }

  ghost function Restrict(durations: map<Path, real>, current: Option<seq<Path>>): map<Path, real> {
    map f | f in durations && Present(current, f) :: durations[f]
  }

  ghost function Encode(durations: map<Path, real>): map<Path, Value> {
    map f | f in durations :: Numeric(Finite(durations[f]))
  }

  /** One write: who writes, when, what was measured and which files still exist. */
  datatype Write = Write(identity: string, now: real, durations: map<Path, Number>, current: Option<seq<Path>>)

  ghost function Merged(store: Stored, write: Write): map<Path, real> {
    Restrict(Readable(store, write.identity, write.now) + Valid(write.durations), write.current)
  }

  ghost function Written(store: Stored, write: Write): Stored {
    if write.durations == map[] then store
    else Record(TIMING_CACHE_VERSION, Text(write.identity), Numeric(Finite(write.now)), Some(Encode(Merged(store, write))))
  }

  // ----- the code

  method ReadPersistedDurations(store: Stored, identity: string, now: real) returns (r: map<Path, real>)
    ensures r == Readable(store, identity, now)
  {
    if !Current(store, identity, now) { return map[]; }
    r := map[];
    var todo := store.durations.value.Keys;
    while todo != {}
      invariant todo <= store.durations.value.Keys && r.Keys == store.durations.value.Keys - todo
      invariant forall f | f in r :: ValidEntry(f, store.durations.value[f]) && r[f] == store.durations.value[f].number.value
    {
      var f :| f in todo;
      var v := store.durations.value[f];
      if !ValidEntry(f, v) { return map[]; }
      r, todo := r[f := v.number.value], todo - {f};
    }
  }

  /** Fresh valid measurements overwrite earlier ones. */
  method Overlay(old': map<Path, real>, durations: map<Path, Number>) returns (merged: map<Path, real>)
    ensures merged == old' + Valid(durations)
  {
    merged := old';
    var todo := durations.Keys;
    while todo != {}
      invariant todo <= durations.Keys
      invariant merged.Keys == old'.Keys + (Valid(durations).Keys - todo)
      invariant forall f | f in merged :: merged[f] == if f in Valid(durations) && f !in todo then durations[f].value else old'[f]
    {
      var f :| f in todo;
      if ValidTimingPath(f) && ValidDuration(durations[f]) {
        merged := merged[f := durations[f].value];
      }
      todo := todo - {f};
    }
  }

  /** Entries of files that no longer exist go. */
  method DropAbsent(all: map<Path, real>, current: seq<Path>) returns (merged: map<Path, real>)
    ensures merged == Restrict(all, Some(current))
  {
    merged := all;
    var todo := all.Keys;
    while todo != {}
      invariant todo <= all.Keys
      invariant forall f :: f in merged <==> f in all && (f in todo || f in current)
      invariant forall f | f in merged :: merged[f] == all[f]
    {
      var f :| f in todo;
      if f !in current { merged := merged - {f}; }
      todo := todo - {f};
    }
  }

  class TimingFile {
    var store: Stored

    constructor (store: Stored)
      ensures this.store == store
    {
      this.store := store;
    }

    method WriteFileDurations(write: Write)
      modifies this
      ensures store == Written(old(store), write)
    {
      if write.durations == map[] { return; }
      var readable := ReadPersistedDurations(store, write.identity, write.now);
      var overlaid := Overlay(readable, write.durations);
      var merged := overlaid;
      if write.current.Some? { merged := DropAbsent(overlaid, write.current.value); }
      assert merged == Merged(store, write);
      store := Record(TIMING_CACHE_VERSION, Text(write.identity), Numeric(Finite(write.now)),
                      Some(map f | f in merged :: Numeric(Finite(merged[f]))));
    }
  }

  // ----- one write

  lemma ReadableIsValid(store: Stored, identity: string, now: real, f: Path)
    requires f in Readable(store, identity, now)
    ensures ValidTimingPath(f) && Readable(store, identity, now)[f] >= 0.0
  {
    assert ValidEntry(f, store.durations.value[f]);
  }

  predicate Reads(write: Write, identity: string, now: real) {
    write.identity == identity && write.now <= now <= write.now + 1_209_600_000.0   // fourteen days
  }

  /** A non-empty write leaves a store that its own identity can read for fourteen days, holding the
      readable old entries overridden by the valid new ones, restricted to the current files;
      to everybody else it reads as empty. */
  lemma WriteThenRead(store: Stored, write: Write, identity: string, now: real)
    requires write.durations != map[]
    ensures Readable(Written(store, write), identity, now) == if Reads(write, identity, now) then Merged(store, write) else map[]
  {
    var merged := Merged(store, write);
    forall f | f in merged ensures ValidEntry(f, Encode(merged)[f]) {
      if f in Readable(store, write.identity, write.now) && f !in Valid(write.durations) {
        ReadableIsValid(store, write.identity, write.now, f);
      }
    }
  }

  /** What makes an entry readable: a record of version 1 of the same identity, at most fourteen days old and not from the
      future, in which every entry is a finite duration of a spec file, zero or more. */
  lemma ReadableIff(store: Stored, identity: string, now: real, f: Path, d: real)
    ensures HasEntry(Readable(store, identity, now), f, d) <==>
              && store.Record? && store.version == Numeric(Finite(1.0)) && store.identity == Text(identity)
              && (exists at :: store.recordedAt == Numeric(Finite(at)) && at <= now <= at + 1_209_600_000.0)
              && store.durations.Some? && f in store.durations.value && store.durations.value[f] == Numeric(Finite(d))
              && forall g | g in store.durations.value ::
                   ValidTimingPath(g) && exists x :: x >= 0.0 && store.durations.value[g] == Numeric(Finite(x))
  {
    hide ValidTimingPath;
    assert forall v: Value :: v.Numeric? && ValidDuration(v.number) <==> exists x :: x >= 0.0 && v == Numeric(Finite(x)) by {
      forall v: Value | v.Numeric? && ValidDuration(v.number) ensures exists x :: x >= 0.0 && v == Numeric(Finite(x)) {
        assert v == Numeric(Finite(v.number.value));
      }
    }
    if store.Record? && store.recordedAt.Numeric? && store.recordedAt.number.Finite? {
      assert store.recordedAt == Numeric(Finite(store.recordedAt.number.value));
    }
  }

  // ----- any sequence of writes

  ghost function After(store: Stored, writes: seq<Write>): Stored {
    if writes == [] then store else Written(After(store, writes[..|writes| - 1]), writes[|writes| - 1])
  }

  ghost function NonEmpty(writes: seq<Write>): seq<Write> {
    if writes == [] then []
    else NonEmpty(writes[..|writes| - 1]) + if writes[|writes| - 1].durations == map[] then [] else [writes[|writes| - 1]]
  }

  /** Runs without measurements leave no trace, so a sequence of writes is that of its non-empty ones. */
  lemma {:induction false} EmptyWritesVanish(store: Stored, writes: seq<Write>)
    ensures After(store, writes) == After(store, NonEmpty(writes))
  {
    hide Merged;
    if writes != [] {
      var k := |writes| - 1;
      EmptyWritesVanish(store, writes[..k]);
      var kept := NonEmpty(writes);
      if writes[k].durations != map[] {
        assert kept[..|kept| - 1] == NonEmpty(writes[..k]);
      } else {
        assert kept == NonEmpty(writes[..k]);
      }
    }
  }

  ghost predicate Sets(write: Write, f: Path, d: real) {
    f in Valid(write.durations) && Valid(write.durations)[f] == d
  }

  /** From write `i` on, no write drops `f` as absent, re-measures it, or comes under another
      identity, before its predecessor or more than fourteen days after it. */
  ghost predicate Kept(writes: seq<Write>, i: nat, f: Path) {
    && (forall j | i <= j < |writes| :: Present(writes[j].current, f))
    && (forall j | i < j < |writes| :: f !in Valid(writes[j].durations)
                                       && Reads(writes[j - 1], writes[j].identity, writes[j].now))
  }

  /** Where the entry (f, d) of a store comes from: write `i` of the run, or the store before it. */
  ghost predicate Origin(store: Stored, writes: seq<Write>, i: int, f: Path, d: real) {
    if i < 0 then
      && writes != [] && f !in Valid(writes[0].durations) && Kept(writes, 0, f)
      && f in Readable(store, writes[0].identity, writes[0].now)
      && Readable(store, writes[0].identity, writes[0].now)[f] == d
    else i < |writes| && Sets(writes[i], f, d) && Kept(writes, i, f)
  }

  ghost predicate HasEntry(m: map<Path, real>, f: Path, d: real) {
    f in m && m[f] == d
  }

  lemma MergedEntry(store: Stored, write: Write, f: Path, d: real)
    ensures HasEntry(Merged(store, write), f, d) <==>
              && Present(write.current, f)
              && (Sets(write, f, d)
                  || (f !in Valid(write.durations) && HasEntry(Readable(store, write.identity, write.now), f, d)))
  {
  }

  ghost predicate HasOrigin(store: Stored, writes: seq<Write>, f: Path, d: real) {
    exists i :: Origin(store, writes, i, f, d)
  }

  /** After any non-empty writes the store reads as exactly the entries that have an origin. */
  lemma {:induction false} EntriesHaveOrigins(store: Stored, writes: seq<Write>, identity: string, now: real, f: Path, d: real)
    requires writes != [] && forall i | 0 <= i < |writes| :: writes[i].durations != map[]
    ensures HasEntry(Readable(After(store, writes), identity, now), f, d)
       <==> Reads(writes[|writes| - 1], identity, now) && HasOrigin(store, writes, f, d)
  {
    var k := |writes| - 1;
    var earlier, last := writes[..k], writes[k];
    WriteThenRead(After(store, earlier), last, identity, now);
    MergedEntry(After(store, earlier), last, f, d);
    OriginOfLast(store, writes, f, d);
    if k == 0 {
      OriginsOfOne(store, writes, f, d);
    } else {
      EntriesHaveOrigins(store, earlier, last.identity, last.now, f, d);
      OriginsExtend(store, writes, f, d);
    }
  }

  lemma OriginsOfOne(store: Stored, writes: seq<Write>, f: Path, d: real)
    requires |writes| == 1
    ensures HasOrigin(store, writes, f, d) <==> HasEntry(Merged(store, writes[0]), f, d)
  {
    hide Readable, Merged, Valid;
    MergedEntry(store, writes[0], f, d);
    assert Origin(store, writes, -1, f, d) || Origin(store, writes, 0, f, d) ==> HasOrigin(store, writes, f, d);
  }

  lemma OriginsExtend(store: Stored, writes: seq<Write>, f: Path, d: real)
    requires |writes| > 1
    ensures var k := |writes| - 1;
            HasOrigin(store, writes, f, d) <==>
              || (Sets(writes[k], f, d) && Present(writes[k].current, f))
              || (HasOrigin(store, writes[..k], f, d) && Carries(writes[k - 1], writes[k], f))
  {
    var k := |writes| - 1;
    OriginOfLast(store, writes, f, d);
    if HasOrigin(store, writes, f, d) {
      var i :| Origin(store, writes, i, f, d);
      if i < k { OriginExtends(store, writes, i, f, d); }
    }
    if HasOrigin(store, writes[..k], f, d) && Carries(writes[k - 1], writes[k], f) {
      var i :| Origin(store, writes[..k], i, f, d);
      OriginExtends(store, writes, i, f, d);
    }
  }

  /** `last` takes the entry for `f` over from a store that `previous` wrote. */
  ghost predicate Carries(previous: Write, last: Write, f: Path) {
    Present(last.current, f) && f !in Valid(last.durations) && Reads(previous, last.identity, last.now)
  }

  lemma OriginExtends(store: Stored, writes: seq<Write>, i: int, f: Path, d: real)
    requires |writes| > 1 && i < |writes| - 1
    ensures var k := |writes| - 1;
            Origin(store, writes, i, f, d) <==> Origin(store, writes[..k], i, f, d) && Carries(writes[k - 1], writes[k], f)
  {
    var k := |writes| - 1;
    KeptExtends(writes, if i < 0 then 0 else i, f);
    assert writes[..k][0] == writes[0];
  }

  lemma KeptExtends(writes: seq<Write>, i: nat, f: Path)
    requires i < |writes| - 1
    ensures var k := |writes| - 1; Kept(writes, i, f) <==> Kept(writes[..k], i, f) && Carries(writes[k - 1], writes[k], f)
  {
    var k := |writes| - 1;
    if Kept(writes[..k], i, f) && Carries(writes[k - 1], writes[k], f) {
      forall j | i <= j < |writes| ensures Present(writes[j].current, f) {
        if j < k { assert writes[..k][j] == writes[j]; }
      }
      forall j | i < j < |writes|
        ensures f !in Valid(writes[j].durations) && Reads(writes[j - 1], writes[j].identity, writes[j].now)
      {
        if j < k { assert writes[..k][j] == writes[j] && writes[..k][j - 1] == writes[j - 1]; }
      }
    }
  }

  lemma OriginOfLast(store: Stored, writes: seq<Write>, f: Path, d: real)
    requires writes != []
    ensures var k := |writes| - 1;
            Origin(store, writes, k, f, d) <==> Sets(writes[k], f, d) && Present(writes[k].current, f)
  {
  }
}
