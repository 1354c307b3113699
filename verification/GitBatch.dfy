/** Reader of the `git cat-file --batch` stream: "oid type size LF content LF" per object. */
module GitBatch {
  import opened Decimal

  type Path = string

  const LF: byte := 0x0a
  const SPACE: byte := 0x20
  const MAX_SAFE_INTEGER: nat := 0x1F_FFFF_FFFF_FFFF
  /** " missing" */
  const MISSING: Bytes := [0x20, 0x6d, 0x69, 0x73, 0x73, 0x69, 0x6e, 0x67]

  datatype Error = NoHeader | Missing | InvalidSize | Truncated

  datatype Result<+T> = Ok(value: T) | Err(error: Error, at: nat)

  // ----- text of a header

  function IndexOf(s: Bytes, b: byte): (k: nat)
    ensures k <= |s| && (forall i | 0 <= i < k :: s[i] != b) && (k < |s| ==> s[k] == b)
  {
    if s == [] || s[0] == b then 0
    else
      var k := IndexOf(s[1..], b);
      assert forall i | 0 < i < k + 1 :: s[i] == s[1..][i - 1];
      k + 1
  }

  lemma IndexOfFirst(head: Bytes, b: byte, tail: Bytes)
    requires b !in head
    ensures IndexOf(head + [b] + tail, b) == |head|
  {
    var s := head + [b] + tail;
    assert s[|head|] == b && forall i | 0 <= i < |head| :: s[i] == head[i];
  }

  predicate EndsWith(s: Bytes, suffix: Bytes) {
    |suffix| <= |s| && s[|s| - |suffix|..] == suffix
  }

  /** The k-th space-separated field, empty when there are fewer. */
  function Field(header: Bytes, k: nat): Bytes {
    var i := IndexOf(header, SPACE);
    if k == 0 then header[..i]
    else if i == |header| then []
    else Field(header[i + 1..], k - 1)
  }

  predicate IsSpace(b: byte) {
    9 <= b <= 13 || b == SPACE
  }

  function TrimStart(s: Bytes): Bytes {
    if s != [] && IsSpace(s[0]) then TrimStart(s[1..]) else s
  }

  /** `Number.parseInt(text, 10)` when that is a safe non-negative integer: optional sign, longest run of
      digits, anything after it ignored. */
  function ParseSize(text: Bytes): (r: int)
    ensures -1 <= r <= MAX_SAFE_INTEGER
  {
    var trimmed := TrimStart(text);
    var negative := trimmed != [] && trimmed[0] == 0x2d;
    ParseDigits(if trimmed != [] && (trimmed[0] == 0x2d || trimmed[0] == 0x2b) then trimmed[1..] else trimmed, negative)
  }

  function ParseDigits(body: Bytes, negative: bool): (r: int)
    ensures -1 <= r <= MAX_SAFE_INTEGER
  {
    var run := DigitRun(body);
    if run == 0 then -1
    else
      var n := Value(body[..run]);
      if n > MAX_SAFE_INTEGER || (negative && n != 0) then -1 else n
  }

  lemma DigitsParse(digits: Bytes, junk: Bytes, negative: bool)
    requires digits != [] && NoDigitFirst(junk) && forall i | 0 <= i < |digits| :: 48 <= digits[i] <= 57
    ensures ParseDigits(digits + junk, negative) ==
            if Value(digits) <= 9007199254740991 && (!negative || Value(digits) == 0) then Value(digits) else -1
  {
    hide Value, DigitRun;
    DigitRunStops(digits, junk);
    assert (digits + junk)[..|digits|] == digits;
  }

  predicate NoDigitFirst(text: Bytes) {
    text == [] || !(48 <= text[0] <= 57)
  }

  lemma {:induction false} TrimBlank(blank: Bytes, text: Bytes)
    requires forall i | 0 <= i < |blank| :: 9 <= blank[i] <= 13 || blank[i] == 32
    requires text == [] || !(9 <= text[0] <= 13 || text[0] == 32)
    ensures TrimStart(blank + text) == text
  {
    if blank == [] {
      assert blank + text == text;
    } else {
      assert (blank + text)[1..] == blank[1..] + text;
      TrimBlank(blank[1..], text);
    }
  }

  /** A size is a decimal numeral after white space and a sign, with anything after it; negative and unsafe ones are refused. */
  lemma SizeIsNumeral(blank: Bytes, sign: Bytes, digits: Bytes, junk: Bytes)
    requires forall i | 0 <= i < |blank| :: 9 <= blank[i] <= 13 || blank[i] == 32
    requires sign in {[], [0x2b], [0x2d]} && digits != [] && NoDigitFirst(junk)
    requires forall i | 0 <= i < |digits| :: 48 <= digits[i] <= 57
    ensures ParseSize(blank + (sign + (digits + junk))) ==
            if Value(digits) <= 9007199254740991 && (sign != [0x2d] || Value(digits) == 0) then Value(digits) else -1
  {
    hide Value, ParseDigits, TrimStart;
    var text := sign + (digits + junk);
    assert text[0] == if sign == [] then digits[0] else sign[0];
    TrimBlank(blank, text);
    DigitsParse(digits, junk, sign == [0x2d]);
    if sign == [] {
      assert text == digits + junk;
    } else {
      assert text[1..] == digits + junk;
    }
  }

  /** Anything else is refused. */
  lemma SizeNeedsDigits(blank: Bytes, sign: Bytes, junk: Bytes)
    requires forall i | 0 <= i < |blank| :: 9 <= blank[i] <= 13 || blank[i] == 32
    requires sign in {[], [0x2b], [0x2d]} && NoDigitFirst(junk)
    requires sign == [] ==> junk == [] || junk[0] !in {9, 10, 11, 12, 13, 32, 0x2b, 0x2d}
    ensures ParseSize(blank + (sign + junk)) == -1
  {
    hide Value;
    var text := sign + junk;
    TrimBlank(blank, text);
    DigitRunStops([], junk);
    assert [] + junk == junk;
    var body := if sign == [] then text else text[1..];
    assert body == junk;
  }

  // ----- one record

  datatype Record = Record(oid: Bytes, kind: Bytes, content: Bytes)

  ghost predicate Printable(r: Record) {
    && SPACE !in r.oid && LF !in r.oid && SPACE !in r.kind && LF !in r.kind
    && |r.content| <= MAX_SAFE_INTEGER
  }

  function Header(r: Record): Bytes {
    r.oid + [SPACE] + (r.kind + [SPACE] + Digits(|r.content|))
  }

  function Print(r: Record): Bytes {
    Header(r) + [LF] + (r.content + [LF])
  }

  datatype Read = Read(content: Bytes, rest: Bytes)

  /** One record, given its header line and everything after it. */
  function ReadBody(header: Bytes, body: Bytes): Result<Read> {
    var size := ParseSize(Field(header, 2));
    if EndsWith(header, MISSING) then Err(Missing, 0)
    else if size < 0 then Err(InvalidSize, 0)
    else if size >= |body| || body[size] != LF then Err(Truncated, 0)
    else Ok(Read(body[..size], body[size + 1..]))
  }

  /** What one iteration of the reader does at the front of the remaining stream. */
  function ReadOne(stream: Bytes): Result<Read> {
    var end := IndexOf(stream, LF);
    if end == |stream| then Err(NoHeader, 0) else ReadBody(stream[..end], stream[end + 1..])
  }

  /** The errors of one record in the order in which they are noticed. */
  lemma ReadOneCases(header: Bytes, body: Bytes)
    requires LF !in header
    ensures var r, size := ReadOne(header + [LF] + body), ParseSize(Field(header, 2));
            && ((exists name :: header == name + [0x20, 0x6d, 0x69, 0x73, 0x73, 0x69, 0x6e, 0x67]) ==> r == Err(Missing, 0))
            && (!(exists name :: header == name + [0x20, 0x6d, 0x69, 0x73, 0x73, 0x69, 0x6e, 0x67]) ==>
                  r == (if size < 0 then Err(InvalidSize, 0)
                        else if size >= |body| || body[size] != 0x0a then Err(Truncated, 0)
                        else Ok(Read(body[..size], body[size + 1..]))))
    ensures ReadOne(header) == Err(NoHeader, 0)
  {
    hide ParseSize, Field;
    var stream := header + [LF] + body;
    IndexOfFirst(header, LF, body);
    assert stream[..|header|] == header && stream[|header| + 1..] == body;
    if EndsWith(header, MISSING) { assert header == header[..|header| - 8] + MISSING; }
    if name :| header == name + MISSING { assert header[|header| - 8..] == MISSING; }
  }

  lemma FieldAfter(head: Bytes, tail: Bytes, k: nat)
    requires SPACE !in head
    ensures Field(head + [SPACE] + tail, k + 1) == Field(tail, k)
  {
    var text := head + [SPACE] + tail;
    IndexOfFirst(head, SPACE, tail);
    assert text[|head| + 1..] == tail;
  }

  /** Fields are what stands between single spaces; beyond the last one there is nothing. */
  lemma FieldCases(head: Bytes, tail: Bytes, k: nat)
    requires SPACE !in head
    ensures Field(head, 0) == head && Field(head, k + 1) == []
    ensures Field(head + [0x20] + tail, 0) == head && Field(head + [0x20] + tail, k + 1) == Field(tail, k)
  {
    assert IndexOf(head, SPACE) == |head| && head[..|head|] == head;
    IndexOfFirst(head, SPACE, tail);
    FieldAfter(head, tail, k);
    assert (head + [SPACE] + tail)[..|head|] == head;
  }

  lemma SizeField(r: Record)
    requires Printable(r)
    ensures Field(Header(r), 2) == Digits(|r.content|)
  {
    var digits := Digits(|r.content|);
    FieldAfter(r.oid, r.kind + [SPACE] + digits, 1);
    FieldAfter(r.kind, digits, 0);
    assert IndexOf(digits, SPACE) == |digits|;
    assert digits[..|digits|] == digits;
  }

  lemma HeaderIsOneLine(r: Record)
    requires Printable(r)
    ensures LF !in Header(r) && !EndsWith(Header(r), MISSING)
  {
    var digits, header := Digits(|r.content|), Header(r);
    assert LF !in digits;
    assert header[|header| - 1] == digits[|digits| - 1];
    assert |header| >= 8 ==> header[|header| - 8..][7] == header[|header| - 1];
  }

  lemma SizeOfDigits(n: nat)
    requires n <= MAX_SAFE_INTEGER
    ensures ParseSize(Digits(n)) == n
  {
    ValueOfDigits(n);
    DigitRunStops(Digits(n), []);
    assert Digits(n) + [] == Digits(n);
    assert Digits(n)[..|Digits(n)|] == Digits(n);
  }

  /** Reading undoes printing and leaves exactly what follows the record. */
  lemma ReadPrinted(r: Record, rest: Bytes)
    requires Printable(r)
    ensures ReadOne(Print(r) + rest) == Ok(Read(r.content, rest))
  {
    hide Field, ParseSize, Digits, Header, IndexOf;
    SizeField(r);
    HeaderIsOneLine(r);
    SizeOfDigits(|r.content|);
    var body := r.content + [LF] + rest;
    assert Print(r) + rest == Header(r) + [LF] + body;
    IndexOfFirst(Header(r), LF, body);
    var stream := Print(r) + rest;
    assert stream[..|Header(r)|] == Header(r);
    assert stream[|Header(r)| + 1..] == body;
    assert body[..|r.content|] == r.content && body[|r.content| + 1..] == rest;
  }

  /** Whatever is accepted is framed by its own header: nothing is skipped and no content byte is
      mistaken for structure. */
  lemma AcceptedIsFramed(stream: Bytes)
    requires ReadOne(stream).Ok?
    ensures var read, header := ReadOne(stream).value, stream[..IndexOf(stream, LF)];
            && stream == header + [LF] + (read.content + [LF]) + read.rest
            && LF !in header && ParseSize(Field(header, 2)) == |read.content| && !EndsWith(header, MISSING)
  {
    hide Field, ParseSize, EndsWith;
    var end := IndexOf(stream, LF);
    var header, body, read := stream[..end], stream[end + 1..], ReadOne(stream).value;
    assert stream == header + [LF] + body;
    assert body == read.content + [LF] + read.rest;
  }

  // ----- the whole stream

  /** The contents of the first `count` records and what follows them; an error names its record. */
  function ReadAll(stream: Bytes, count: nat): Result<(seq<Bytes>, Bytes)> {
    if count == 0 then Ok(([], stream))
    else
      var before := ReadAll(stream, count - 1);
      if before.Err? then before
      else
        var last := ReadOne(before.value.1);
        if last.Err? then Err(last.error, count - 1)
        else Ok((before.value.0 + [last.value.content], last.value.rest))
  }

  function PrintAll(records: seq<Record>): Bytes {
    if records == [] then [] else PrintAll(records[..|records| - 1]) + Print(records[|records| - 1])
  }

  function Contents(records: seq<Record>): (r: seq<Bytes>)
    ensures |r| == |records| && forall i | 0 <= i < |r| :: r[i] == records[i].content
  {
    seq(|records|, i requires 0 <= i < |records| => records[i].content)
  }

  ghost predicate AllPrintable(records: seq<Record>) {
    forall i | 0 <= i < |records| :: Printable(records[i])
  }

  /** Any printed records are read back, in order, with arbitrary content bytes. */
  lemma {:induction false} ReadAllPrinted(records: seq<Record>, rest: Bytes)
    requires AllPrintable(records)
    ensures ReadAll(PrintAll(records) + rest, |records|) == Ok((Contents(records), rest))
  {
    hide ReadOne, Print;
    if records == [] {
      assert PrintAll(records) + rest == rest;
    } else {
      var k := |records| - 1;
      var tail := Print(records[k]) + rest;
      assert PrintAll(records) + rest == PrintAll(records[..k]) + tail;
      ReadAllPrinted(records[..k], tail);
      ReadPrinted(records[k], rest);
      assert Contents(records) == Contents(records[..k]) + [records[k].content];
    }
  }

  lemma ErrorNext(stream: Bytes, count: nat)
    requires ReadAll(stream, count).Err?
    ensures ReadAll(stream, count + 1) == ReadAll(stream, count)
  {
  }

  lemma {:induction false} ErrorStays(stream: Bytes, i: nat, count: nat)
    requires i <= count && ReadAll(stream, i).Err?
    ensures ReadAll(stream, count) == ReadAll(stream, i)
    decreases count - i
  {
    if i < count {
      ErrorNext(stream, i);
      ErrorStays(stream, i + 1, count);
    }
  }

  lemma MissingLine(name: Bytes, rest: Bytes)
    requires LF !in name
    ensures ReadOne(name + MISSING + [LF] + rest) == Err(Missing, 0)
  {
    var header := name + MISSING;
    assert LF !in header;
    IndexOfFirst(header, LF, rest);
    var line := header + [LF] + rest;
    assert line[..|header|] == header;
    assert header[|header| - 8..] == MISSING;
  }

  /** An object that git does not have is reported for its own path, whatever precedes and follows it. */
  lemma MissingIsReported(records: seq<Record>, name: Bytes, rest: Bytes, count: nat)
    requires AllPrintable(records) && LF !in name && count > |records|
    ensures ReadAll(PrintAll(records) + (name + MISSING + [LF] + rest), count) == Err(Missing, |records|)
  {
    var line := name + MISSING + [LF] + rest;
    ReadAllPrinted(records, line);
    MissingLine(name, rest);
    ErrorStays(PrintAll(records) + line, |records| + 1, count);
  }

  // ----- the loop

  function Assign(paths: seq<Path>, contents: seq<Bytes>): map<Path, Bytes>
    requires |paths| == |contents|
  {
    if paths == [] then map[]
    else Assign(paths[..|paths| - 1], contents[..|paths| - 1])[paths[|paths| - 1] := contents[|paths| - 1]]
  }

  /** One iteration at `offset` of the output buffer. */
  method ReadRecord(output: Bytes, offset: nat) returns (r: Result<Bytes>, next: nat)
    requires offset <= |output|
    ensures r.Err? ==> ReadOne(output[offset..]) == Err(r.error, 0)
    ensures r.Ok? ==> next <= |output| && ReadOne(output[offset..]) == Ok(Read(r.value, output[next..]))
  {
    hide ReadBody;
    next := offset;
    var headerEnd := offset + IndexOf(output[offset..], LF);
    if headerEnd == |output| { return Err(NoHeader, 0), next; }
    SliceOfSlice(output, offset, headerEnd);
    r, next := ReadContent(output, output[offset..headerEnd], headerEnd + 1);
  }

  method ReadContent(output: Bytes, header: Bytes, contentStart: nat) returns (r: Result<Bytes>, next: nat)
    requires contentStart <= |output|
    ensures r.Err? ==> ReadBody(header, output[contentStart..]) == Err(r.error, 0)
    ensures r.Ok? ==> next <= |output| && ReadBody(header, output[contentStart..]) == Ok(Read(r.value, output[next..]))
  {
    next := contentStart;
    if EndsWith(header, MISSING) { return Err(Missing, 0), next; }
    var size := ParseSize(Field(header, 2));
    if size < 0 { return Err(InvalidSize, 0), next; }
    var contentEnd := contentStart + size;
    if contentEnd >= |output| || output[contentEnd] != LF { return Err(Truncated, 0), next; }
    r, next := Ok(output[contentStart..contentEnd]), contentEnd + 1;
    ghost var body := output[contentStart..];
    assert body[..size] == output[contentStart..contentEnd] && body[size + 1..] == output[next..];
  }

  lemma SliceOfSlice(output: Bytes, offset: nat, end: nat)
    requires offset <= end < |output|
    ensures output[offset..][..end - offset] == output[offset..end]
    ensures output[offset..][end - offset + 1..] == output[end + 1..]
  {
  }

  /** The reader over one output buffer: advances an offset and fills a map, path by path. */
  method ReadGitFiles(output: Bytes, paths: seq<Path>) returns (r: Result<map<Path, Bytes>>, offset: nat)
    ensures offset <= |output|
    ensures var all := ReadAll(output, |paths|);
            if all.Err? then r == Err(all.error, all.at)
            else |all.value.0| == |paths| && r == Ok(Assign(paths, all.value.0)) && output[offset..] == all.value.1
  {
    var contents: map<Path, Bytes> := map[];
    ghost var got: seq<Bytes> := [];
    offset := 0;
    for i := 0 to |paths|
      invariant offset <= |output| && |got| == i
      invariant ReadAll(output, i) == Ok((got, output[offset..]))
      invariant contents == Assign(paths[..i], got)
    {
      var read, next := ReadRecord(output, offset);
      if read.Err? {
        ErrorStays(output, i + 1, |paths|);
        return Err(read.error, i), offset;
      }
      assert paths[..i + 1][..i] == paths[..i] && (got + [read.value])[..i] == got;
      got := got + [read.value];
      contents := contents[paths[i] := read.value];
      offset := next;
    }
    assert paths[..|paths|] == paths;
    r := Ok(contents);
  }

  lemma {:induction false} LastAssignmentWins(paths: seq<Path>, contents: seq<Bytes>, i: nat)
    requires |paths| == |contents| && i < |paths|
    requires forall j | i < j < |paths| :: paths[j] == paths[i] ==> contents[j] == contents[i]
    ensures paths[i] in Assign(paths, contents) && Assign(paths, contents)[paths[i]] == contents[i]
  {
    var k := |paths| - 1;
    if i < k {
      LastAssignmentWins(paths[..k], contents[..k], i);
    }
  }

  /** Parsing inverts printing: for any paths and their objects the reader returns each path's own bytes
      and consumes the whole stream. */
  method RoundTrip(paths: seq<Path>, objectOf: map<Path, Record>) returns (r: Result<map<Path, Bytes>>, offset: nat)
    requires forall p | p in paths :: p in objectOf && Printable(objectOf[p])
    ensures r.Ok? && r.value.Keys == (set p | p in paths)
    ensures forall p | p in paths :: r.value[p] == objectOf[p].content
    ensures offset == |PrintAll(ObjectsOf(paths, objectOf))|
  {
    var records := ObjectsOf(paths, objectOf);
    var stream := PrintAll(records);
    r, offset := ReadGitFiles(stream, paths);
    ReadAllPrinted(records, []);
    assert stream + [] == stream;
    forall i | 0 <= i < |paths| ensures paths[i] in r.value && r.value[paths[i]] == objectOf[paths[i]].content {
      LastAssignmentWins(paths, Contents(records), i);
    }
    AssignKeys(paths, Contents(records));
  }

  function ObjectsOf(paths: seq<Path>, objectOf: map<Path, Record>): (r: seq<Record>)
    requires forall p | p in paths :: p in objectOf
    ensures |r| == |paths| && forall i | 0 <= i < |r| :: r[i] == objectOf[paths[i]]
  {
    seq(|paths|, i requires 0 <= i < |paths| => objectOf[paths[i]])
  }

  lemma {:induction false} AssignKeys(paths: seq<Path>, contents: seq<Bytes>)
    requires |paths| == |contents|
    ensures Assign(paths, contents).Keys == set p | p in paths
  {
    if paths != [] {
      var k := |paths| - 1;
      AssignKeys(paths[..k], contents[..k]);
      assert forall p :: p in paths <==> p in paths[..k] || p == paths[k];
    }
  }
}
