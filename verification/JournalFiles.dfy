/** Journal segments: written by the sink (crates/bowst-journal/src/journal.rs:309-456) and read back
    (crates/bowst-journal/src/reader.rs). A segment file is its bytes. */
module JournalFiles {
  import opened Common
  import opened ByteCodec
  import opened JournalFormat

  // ---------------------------------------------------------------- reading

  datatype ReadError = Corrupt(file: nat, error: FormatError) | Truncated(file: nat, offset: nat)

  /** Where a reader is: the next file to open, the bytes of the current one, and the position in it. */
  datatype Cursor = Cursor(nextFile: nat, data: seq<byte>, pos: nat, torn: bool)

  const START: Cursor := Cursor(0, [], 0, false)

  /** Opens the next segment; `Ok(false)` when there are no more. */
  function LoadNext(files: seq<seq<byte>>, c: Cursor): (Cursor, Result<bool, ReadError>) {
    if c.nextFile >= |files| then (c, Ok(false))
    else
      var next := c.(nextFile := c.nextFile + 1, data := files[c.nextFile]);
      match DecodeFileHeader(next.data)
      case Err(e) => (next, Err(Corrupt(c.nextFile, e)))
      case Ok(_) => (next.(pos := FILE_HEADER_LEN), Ok(true))
  }

  /** Skips exhausted and header-only segments. */
  function FindData(files: seq<seq<byte>>, c: Cursor): (r: (Cursor, Result<bool, ReadError>))
    ensures r.1 == Ok(true) ==>
              && r.0.pos < |r.0.data|
              && (r.0 == c || r.0.nextFile > c.nextFile) && c.nextFile <= r.0.nextFile
              && (c.nextFile > |files| || r.0.nextFile <= |files|)
    decreases |files| - c.nextFile
  {
    if c.pos < |c.data| then (c, Ok(true))
    else
      var (c', r) := LoadNext(files, c);
      if r == Ok(true) then FindData(files, c') else (c', r)
  }

  /** The record at the cursor. */
  function RecordAt(crc: Checksum, files: seq<seq<byte>>, c: Cursor)
    : (r: (Cursor, Result<Option<JournalRecord>, ReadError>))
    requires c.pos < |c.data|
    ensures r.1.Ok? && r.1.value.Some? ==>
              r.0.nextFile == c.nextFile && r.0.data == c.data && c.pos < r.0.pos <= |c.data|
  {
    var file := if c.nextFile > 0 then c.nextFile - 1 else 0;
    match DecodeRecord(crc, c.data[c.pos..], c.pos)
    case Err(e) => (c, Err(Corrupt(file, e)))
    case Ok(Incomplete) =>
      if c.nextFile < |files| then (c, Err(Truncated(file, c.pos)))
      else (c.(torn := true, pos := |c.data|), Ok(None))
    case Ok(Whole(header, len)) =>
      (c.(pos := c.pos + len), Ok(Some(JournalRecord(header, c.data[c.pos + RECORD_HEADER_LEN..c.pos + len]))))
  }

  function NextRecord(crc: Checksum, files: seq<seq<byte>>, c: Cursor)
    : (r: (Cursor, Result<Option<JournalRecord>, ReadError>))
    ensures r.1.Ok? && r.1.value.Some? ==> r.0.pos <= |r.0.data|
    ensures r.1.Ok? && r.1.value.Some? ==>
              || r.0.nextFile > c.nextFile
              || (r.0.nextFile == c.nextFile && r.0.data == c.data && c.pos < r.0.pos <= |c.data|)
    ensures r.1.Ok? && r.1.value.Some? && c.nextFile <= |files| ==> r.0.nextFile <= |files|
  {
    var (c', found) := FindData(files, c);
    match found
    case Err(e) => (c', Err(e))
    case Ok(false) => (c', Ok(None))
    case Ok(true) => RecordAt(crc, files, c')
  }

  /** Everything a reader gets before it stops, and how it stops: at the end (`Ok`, with whether the
      last record was torn) or at an error. */
  datatype Reading = Reading(records: seq<JournalRecord>, end: Result<bool, ReadError>)

  function ReadAll(crc: Checksum, files: seq<seq<byte>>, c: Cursor): Reading
    requires c.nextFile <= |files| && c.pos <= |c.data|
    decreases |files| - c.nextFile, |c.data| - c.pos
  {
    var (c', r) := NextRecord(crc, files, c);
    match r
    case Err(e) => Reading([], Err(e))
    case Ok(None) => Reading([], Ok(c'.torn))
    case Ok(Some(record)) =>
      var rest := ReadAll(crc, files, c');
      rest.(records := [record] + rest.records)
  }

  // ---------------------------------------------------------------- what a segment holds

  ghost predicate Legal(r: JournalRecord) {
    |r.payload| <= MAX_PAYLOAD
  }

  ghost predicate AllLegal(rs: seq<JournalRecord>) {
    forall r :: r in rs ==> Legal(r)
  }

  function SealAll(crc: Checksum, rs: seq<JournalRecord>): seq<byte> {
    if rs == [] then [] else Sealed(crc, rs[0]) + SealAll(crc, rs[1..])
  }

  /** A segment: whole records, then possibly the beginning of one more. */
  datatype Segment = Segment(index: u32, created: u64, records: seq<JournalRecord>, cut: seq<byte>)

  function FileOf(crc: Checksum, s: Segment): seq<byte> {
    EncodeFileHeader(s.index, s.created) + SealAll(crc, s.records) + s.cut
  }

  function FilesOf(crc: Checksum, segments: seq<Segment>): (r: seq<seq<byte>>)
    ensures |r| == |segments| && forall k :: 0 <= k < |r| ==> r[k] == FileOf(crc, segments[k])
  {
    seq(|segments|, k requires 0 <= k < |segments| => FileOf(crc, segments[k]))
  }

  /** `bytes` is a sealed record cut short (or nothing at all). */
  ghost predicate IsCut(crc: Checksum, bytes: seq<byte>) {
    bytes == [] || exists r :: Legal(r) && |bytes| < |Sealed(crc, r)| && bytes == Sealed(crc, r)[..|bytes|]
  }

  ghost predicate LegalSegment(crc: Checksum, s: Segment) {
    AllLegal(s.records) && IsCut(crc, s.cut)
  }

  /** What a reader should get from segment `k` on. */
  function Expected(crc: Checksum, segments: seq<Segment>, k: nat): Reading
    requires k <= |segments|
    decreases |segments| - k
  {
    if k == |segments| then Reading([], Ok(false))
    else if segments[k].cut == [] then
      var rest := Expected(crc, segments, k + 1);
      rest.(records := segments[k].records + rest.records)
    else
      Reading(segments[k].records,
              if k + 1 < |segments| then Err(Truncated(k, |FileOf(crc, segments[k])| - |segments[k].cut|))
                  else Ok(true))
  }

  /** The cursor at the start of segment `k`: the file before it has been read to its end. */
  ghost predicate AtSegment(files: seq<seq<byte>>, c: Cursor, k: nat) {
    c.nextFile == k <= |files| && c.pos == |c.data| && !c.torn
  }

  /** The cursor inside segment `k`, with `rs` and `cut` still to come. */
  ghost predicate Inside(crc: Checksum, files: seq<seq<byte>>, c: Cursor, k: nat, rs: seq<JournalRecord>,
                         cut: seq<byte>) {
    && k < |files| && c.nextFile == k + 1 && c.data == files[k] && !c.torn
    && c.pos <= |c.data| && c.data[c.pos..] == SealAll(crc, rs) + cut
  }

  lemma OpensSegment(crc: Checksum, files: seq<seq<byte>>, k: nat, s: Segment)
    requires k < |files| && files[k] == FileOf(crc, s)
    ensures DecodeFileHeader(files[k]).Ok? && FILE_HEADER_LEN <= |files[k]|
    ensures Inside(crc, files, Cursor(k + 1, files[k], FILE_HEADER_LEN, false), k, s.records, s.cut)
  {
    var body := SealAll(crc, s.records) + s.cut;
    assert FileOf(crc, s) == EncodeFileHeader(s.index, s.created) + body;
    FileHeaderRoundTrip(s.index, s.created, body);
  }

  /** Opening a file whose header is sound and reading on is reading from its first record. */
  lemma OpensFile(crc: Checksum, files: seq<seq<byte>>, c: Cursor, k: nat)
    requires k < |files| && AtSegment(files, c, k) && DecodeFileHeader(files[k]).Ok? && FILE_HEADER_LEN <= |files[k]|
    ensures ReadAll(crc, files, c) == ReadAll(crc, files, Cursor(k + 1, files[k], FILE_HEADER_LEN, false))
  {
    var c' := Cursor(k + 1, files[k], FILE_HEADER_LEN, false);
    assert LoadNext(files, c) == (c', Ok(true));
    assert FindData(files, c) == FindData(files, c');
    SameFound(crc, files, c, c');
    SameNext(crc, files, c, c');
  }

  /** Two readers that find their data in the same place read the same. */
  lemma SameFound(crc: Checksum, files: seq<seq<byte>>, c: Cursor, c': Cursor)
    requires FindData(files, c) == FindData(files, c')
    ensures NextRecord(crc, files, c) == NextRecord(crc, files, c')
  {
  }

  lemma SameNext(crc: Checksum, files: seq<seq<byte>>, c: Cursor, c': Cursor)
    requires c.nextFile <= |files| && c.pos <= |c.data| && c'.nextFile <= |files| && c'.pos <= |c'.data|
    requires NextRecord(crc, files, c) == NextRecord(crc, files, c')
    ensures ReadAll(crc, files, c) == ReadAll(crc, files, c')
  {
  }

  lemma PayloadOf(crc: Checksum, r: JournalRecord)
    ensures Sealed(crc, r)[RECORD_HEADER_LEN..] == r.payload
  {
    SealedShape(crc, r);
  }

  lemma FirstOfAll(crc: Checksum, rs: seq<JournalRecord>, cut: seq<byte>)
    requires rs != []
    ensures SealAll(crc, rs) + cut == Sealed(crc, rs[0]) + (SealAll(crc, rs[1..]) + cut)
  {
  }

  /** Reading goes on where the data is found. */
  lemma FoundAt(crc: Checksum, files: seq<seq<byte>>, c: Cursor, c': Cursor)
    requires c'.pos < |c'.data| && FindData(files, c) == FindData(files, c')
    ensures NextRecord(crc, files, c) == RecordAt(crc, files, c')
  {
  }

  lemma TakesWhole(crc: Checksum, files: seq<seq<byte>>, c: Cursor, h: RecordHeader, len: nat)
    requires c.pos + RECORD_HEADER_LEN <= c.pos + len <= |c.data| && c.pos < |c.data|
    requires DecodeRecord(crc, c.data[c.pos..], c.pos) == Ok(Whole(h, len))
    ensures RecordAt(crc, files, c)
         == (c.(pos := c.pos + len), Ok(Some(JournalRecord(h, c.data[c.pos + RECORD_HEADER_LEN..c.pos + len]))))
  {
  }

  lemma RecordHere(crc: Checksum, files: seq<seq<byte>>, c: Cursor, r: JournalRecord, rest: seq<byte>)
    requires c.pos <= |c.data| && c.data[c.pos..] == Sealed(crc, r) + rest && Legal(r)
    ensures c.pos + |Sealed(crc, r)| <= |c.data| && c.data[c.pos + |Sealed(crc, r)|..] == rest
    ensures NextRecord(crc, files, c) == (c.(pos := c.pos + |Sealed(crc, r)|), Ok(Some(r)))
  {
    DecodesWhole(crc, r, rest, c.pos);
    PayloadOf(crc, r);
    Slices(c.data, c.pos, Sealed(crc, r), rest);
    TakesWhole(crc, files, c, r.header, |Sealed(crc, r)|);
    FoundAt(crc, files, c, c);
  }

  lemma ReadsRecord(crc: Checksum, files: seq<seq<byte>>, c: Cursor, k: nat, rs: seq<JournalRecord>, cut: seq<byte>)
    requires Inside(crc, files, c, k, rs, cut) && rs != [] && Legal(rs[0])
    ensures var c' := c.(pos := c.pos + |Sealed(crc, rs[0])|);
            && NextRecord(crc, files, c) == (c', Ok(Some(rs[0])))
            && Inside(crc, files, c', k, rs[1..], cut)
  {
    var rest := SealAll(crc, rs[1..]) + cut;
    assert c.data[c.pos..] == Sealed(crc, rs[0]) + rest by { FirstOfAll(crc, rs, cut); }
    RecordHere(crc, files, c, rs[0], rest);
  }

  lemma Slices(data: seq<byte>, pos: nat, one: seq<byte>, rest: seq<byte>)
    requires pos <= |data| && data[pos..] == one + rest && |one| >= RECORD_HEADER_LEN
    ensures pos + |one| <= |data| && data[pos + |one|..] == rest
    ensures data[pos + RECORD_HEADER_LEN..pos + |one|] == one[RECORD_HEADER_LEN..]
  {
    assert data[pos + |one|..] == data[pos..][|one|..];
    assert data[pos + RECORD_HEADER_LEN..pos + |one|] == data[pos..][RECORD_HEADER_LEN..|one|];
  }

  lemma ReadsCut(crc: Checksum, files: seq<seq<byte>>, c: Cursor, k: nat, cut: seq<byte>)
    requires Inside(crc, files, c, k, [], cut) && cut != [] && IsCut(crc, cut)
    ensures ReadAll(crc, files, c) == Reading([], if k + 1 < |files| then Err(Truncated(k, c.pos)) else Ok(true))
  {
    var r :| Legal(r) && |cut| < |Sealed(crc, r)| && cut == Sealed(crc, r)[..|cut|];
    DecodesCut(crc, r, |cut|, c.pos);
    assert c.data[c.pos..] == cut;
  }

  function Prefixed(rs: seq<JournalRecord>, rest: Reading): Reading {
    rest.(records := rs + rest.records)
  }

  lemma PrefixedTwice(a: seq<JournalRecord>, b: seq<JournalRecord>, rest: Reading)
    ensures Prefixed([], rest) == rest && Prefixed(a, Prefixed(b, rest)) == Prefixed(a + b, rest)
  {
    assert a + (b + rest.records) == a + b + rest.records;
  }

  lemma ReadsOne(crc: Checksum, files: seq<seq<byte>>, c: Cursor, c': Cursor, r: JournalRecord)
    requires c.nextFile <= |files| && c.pos <= |c.data| && c'.nextFile <= |files| && c'.pos <= |c'.data|
    requires NextRecord(crc, files, c) == (c', Ok(Some(r)))
    ensures ReadAll(crc, files, c) == Prefixed([r], ReadAll(crc, files, c'))
  {
  }

  /** The whole records come first, and the reader is then at the cut. */
  lemma {:induction false} ReadsInside(crc: Checksum, files: seq<seq<byte>>, c: Cursor, k: nat, rs: seq<JournalRecord>,
                                       cut: seq<byte>)
    requires Inside(crc, files, c, k, rs, cut) && AllLegal(rs)
    ensures |cut| <= |c.data| && Inside(crc, files, c.(pos := |c.data| - |cut|), k, [], cut)
    ensures ReadAll(crc, files, c) == Prefixed(rs, ReadAll(crc, files, c.(pos := |c.data| - |cut|)))
    decreases |rs|
  {
    if rs == [] {
      assert |c.data[c.pos..]| == |cut|;
      PrefixedTwice([], [], ReadAll(crc, files, c));
    } else {
      assert rs[0] in rs;
      var c' := c.(pos := c.pos + |Sealed(crc, rs[0])|);
      ReadsRecord(crc, files, c, k, rs, cut);
      ReadsOne(crc, files, c, c', rs[0]);
      ReadsInside(crc, files, c', k, rs[1..], cut);
      PrefixedTwice([rs[0]], rs[1..], ReadAll(crc, files, c.(pos := |c.data| - |cut|)));
      assert rs == [rs[0]] + rs[1..];
    }
  }

  /** Where a reader is once it has read the whole records of file `k`, which ends in `cut`. */
  function After(files: seq<seq<byte>>, k: nat, cut: seq<byte>): Cursor
    requires k < |files| && |cut| <= |files[k]|
  {
    Cursor(k + 1, files[k], |files[k]| - |cut|, false)
  }

  /** Reading a file that holds the segment `s`, whatever the other files are. */
  lemma ReadsSegment(crc: Checksum, files: seq<seq<byte>>, c: Cursor, k: nat, s: Segment)
    requires k < |files| && AtSegment(files, c, k) && files[k] == FileOf(crc, s) && LegalSegment(crc, s)
    ensures Inside(crc, files, After(files, k, s.cut), k, [], s.cut)
    ensures ReadAll(crc, files, c) == Prefixed(s.records, ReadAll(crc, files, After(files, k, s.cut)))
  {
    OpensSegment(crc, files, k, s);
    OpensFile(crc, files, c, k);
    ReadsInside(crc, files, Cursor(k + 1, files[k], FILE_HEADER_LEN, false), k, s.records, s.cut);
  }

  ghost predicate AllLegalSegments(crc: Checksum, segments: seq<Segment>) {
    forall j :: 0 <= j < |segments| ==> LegalSegment(crc, segments[j])
  }

  /** Nothing is read past a cut. */
  lemma ReadsLast(crc: Checksum, segments: seq<Segment>, k: nat)
    requires k < |segments| && segments[k].cut != [] && IsCut(crc, segments[k].cut)
    requires |segments[k].cut| <= |FileOf(crc, segments[k])|
    requires var files := FilesOf(crc, segments);
             Inside(crc, files, After(files, k, segments[k].cut), k, [], segments[k].cut)
    ensures var files := FilesOf(crc, segments);
            Prefixed(segments[k].records, ReadAll(crc, files, After(files, k, segments[k].cut)))
            == Expected(crc, segments, k)
  {
    var files := FilesOf(crc, segments);
    ReadsCut(crc, files, After(files, k, segments[k].cut), k, segments[k].cut);
    assert segments[k].records + [] == segments[k].records;
  }

  lemma {:induction false} ReadsOn(crc: Checksum, segments: seq<Segment>, c: Cursor, k: nat)
    requires k <= |segments| && AtSegment(FilesOf(crc, segments), c, k)
    requires AllLegalSegments(crc, segments)
    ensures ReadAll(crc, FilesOf(crc, segments), c) == Expected(crc, segments, k)
    decreases |segments| - k
  {
    if k < |segments| {
      var files, s := FilesOf(crc, segments), segments[k];
      assert LegalSegment(crc, s);
      ReadsSegment(crc, files, c, k, s);
      if s.cut == [] {
        ReadsOn(crc, segments, After(files, k, []), k + 1);
      } else {
        ReadsLast(crc, segments, k);
      }
    }
  }

  /** A journal of whole segments, any of which may end in a cut record, reads as expected: all
      whole records up to the first cut one, which is a torn tail in the last segment and an error in
      any other. */
  lemma ReadsBackSegments(crc: Checksum, segments: seq<Segment>)
    requires AllLegalSegments(crc, segments)
    ensures ReadAll(crc, FilesOf(crc, segments), START) == Expected(crc, segments, 0)
  {
    ReadsOn(crc, segments, START, 0);
  }

  // ---------------------------------------------------------------- whole and cut journals

  function Records(segments: seq<Segment>): seq<JournalRecord> {
    if segments == [] then [] else Records(segments[..|segments| - 1]) + segments[|segments| - 1].records
  }

  ghost predicate Uncut(segments: seq<Segment>) {
    forall j :: 0 <= j < |segments| ==> segments[j].cut == [] && AllLegal(segments[j].records)
  }

  /** Segments that are not cut contribute all their records. */
  lemma {:induction false} ExpectedAfter(crc: Checksum, segments: seq<Segment>, k: nat)
    requires k <= |segments| && Uncut(segments[..k])
    ensures Expected(crc, segments, 0)
         == var rest := Expected(crc, segments, k); rest.(records := Records(segments[..k]) + rest.records)
    decreases k
  {
    if k == 0 {
      assert [] + Expected(crc, segments, 0).records == Expected(crc, segments, 0).records;
    } else {
      assert segments[..k][..k - 1] == segments[..k - 1];
      ExpectedAfter(crc, segments, k - 1);
      assert segments[..k][k - 1] == segments[k - 1];
      var rest := Expected(crc, segments, k);
      assert Records(segments[..k - 1]) + (segments[k - 1].records + rest.records)
          == (Records(segments[..k - 1]) + segments[k - 1].records) + rest.records;
    }
  }

  /** Records written, over any split into segments, read back as the same records. */
  lemma RoundTrip(crc: Checksum, segments: seq<Segment>)
    requires Uncut(segments)
    ensures ReadAll(crc, FilesOf(crc, segments), START) == Reading(Records(segments), Ok(false))
  {
    assert segments[..|segments|] == segments;
    ExpectedAfter(crc, segments, |segments|);
    ReadsBackSegments(crc, segments);
    assert Records(segments) + [] == Records(segments);
  }

  /** How many of `rs` lie whole within the first `n` bytes. */
  function WholeIn(crc: Checksum, rs: seq<JournalRecord>, n: nat): (m: nat)
    ensures m <= |rs|
  {
    if rs == [] || |Sealed(crc, rs[0])| > n then 0 else 1 + WholeIn(crc, rs[1..], n - |Sealed(crc, rs[0])|)
  }

  lemma TakePast(a: seq<byte>, b: seq<byte>, n: nat, x: seq<byte>, y: seq<byte>)
    requires |a| <= n <= |a| + |b| && b[..n - |a|] == x + y
    ensures (a + b)[..n] == (a + x) + y
  {
    assert (a + b)[..n] == a + b[..n - |a|];
  }

  /** A cut after the first record is a cut of the others. */
  lemma CutLater(crc: Checksum, rs: seq<JournalRecord>, n: nat, cut: seq<byte>)
    requires rs != [] && |Sealed(crc, rs[0])| <= n <= |SealAll(crc, rs)|
    requires var k := n - |Sealed(crc, rs[0])|;
             SealAll(crc, rs[1..])[..k] == SealAll(crc, rs[1..][..WholeIn(crc, rs[1..], k)]) + cut
    ensures SealAll(crc, rs)[..n] == SealAll(crc, rs[..WholeIn(crc, rs, n)]) + cut
  {
    var one := Sealed(crc, rs[0]);
    var m := WholeIn(crc, rs[1..], n - |one|);
    assert rs[..m + 1][1..] == rs[1..][..m];
    TakePast(one, SealAll(crc, rs[1..]), n, SealAll(crc, rs[1..][..m]), cut);
  }

  lemma {:induction false} CutShape(crc: Checksum, rs: seq<JournalRecord>, n: nat) returns (cut: seq<byte>)
    requires AllLegal(rs) && n <= |SealAll(crc, rs)|
    ensures var m := WholeIn(crc, rs, n);
            && SealAll(crc, rs)[..n] == SealAll(crc, rs[..m]) + cut
            && IsCut(crc, cut) && (cut == [] <==> n == |SealAll(crc, rs[..m])|)
    decreases |rs|
  {
    if rs == [] {
      cut := [];
    } else {
      assert rs[0] in rs;
      var one, rest := Sealed(crc, rs[0]), SealAll(crc, rs[1..]);
      if |one| > n {
        cut := one[..n];
        assert (one + rest)[..n] == [] + cut;
      } else {
        cut := CutShape(crc, rs[1..], n - |one|);
        CutLater(crc, rs, n, cut);
      }
    }
  }

  /** A segment file cut after its header is a segment with fewer records and maybe a cut one. */
  lemma CutFile(crc: Checksum, s: Segment, n: nat) returns (s': Segment)
    requires s.cut == [] && AllLegal(s.records) && FILE_HEADER_LEN <= n <= |FileOf(crc, s)|
    ensures s'.index == s.index && s'.created == s.created && LegalSegment(crc, s')
    ensures FileOf(crc, s') == FileOf(crc, s)[..n]
    ensures s'.records == s.records[..WholeIn(crc, s.records, n - FILE_HEADER_LEN)]
    ensures s'.cut == [] <==> n - FILE_HEADER_LEN == |SealAll(crc, s'.records)|
  {
    var m := WholeIn(crc, s.records, n - FILE_HEADER_LEN);
    var cut := CutShape(crc, s.records, n - FILE_HEADER_LEN);
    s' := Segment(s.index, s.created, s.records[..m], cut);
    var head, body := EncodeFileHeader(s.index, s.created), SealAll(crc, s.records);
    assert FileOf(crc, s) == head + body;
    TakePast(head, body, n, SealAll(crc, s'.records), cut);
  }

  lemma {:induction false} RecordsSplit(a: seq<Segment>, b: seq<Segment>)
    ensures Records(a + b) == Records(a) + Records(b)
    decreases |b|
  {
    if b == [] {
      assert a + b == a;
    } else {
      var init := b[..|b| - 1];
      RecordsSplit(a, init);
      EndsIn(a, b);
      Associates(Records(a), Records(init), b[|b| - 1].records);
    }
  }

  lemma RecordsAround(segments: seq<Segment>, j: nat, s: Segment)
    requires j < |segments|
    ensures Records(segments[j := s]) == Records(segments[..j]) + (s.records + Records(segments[j + 1..]))
  {
    var one := [s];
    assert one[..0] == [];
    assert [] + s.records == s.records;
    assert segments[j := s] == segments[..j] + (one + segments[j + 1..]);
    RecordsSplit(segments[..j], one + segments[j + 1..]);
    RecordsSplit(one, segments[j + 1..]);
  }

  /** What is read after segment `j` was cut to its first `n` bytes. */
  function ReadCut(crc: Checksum, segments: seq<Segment>, j: nat, n: nat): Reading
    requires j < |segments| && n <= |FileOf(crc, segments[j])|
  {
    ReadAll(crc, FilesOf(crc, segments)[j := FileOf(crc, segments[j])[..n]], START)
  }

  /** The records of segment `j` that are whole in its first `n` bytes. */
  function KeptBy(crc: Checksum, s: Segment, n: nat): seq<JournalRecord>
    requires n >= FILE_HEADER_LEN
  {
    s.records[..WholeIn(crc, s.records, n - FILE_HEADER_LEN)]
  }

  /** The cut is inside a record. */
  predicate CutInside(crc: Checksum, s: Segment, n: nat)
    requires n >= FILE_HEADER_LEN
  {
    n - FILE_HEADER_LEN != |SealAll(crc, KeptBy(crc, s, n))|
  }

  /** The cut journal is itself a journal of segments, one of them with fewer records and a cut. */
  lemma CutJournal(crc: Checksum, segments: seq<Segment>, j: nat, n: nat) returns (s: Segment)
    requires Uncut(segments) && j < |segments| && FILE_HEADER_LEN <= n <= |FileOf(crc, segments[j])|
    ensures s.records == KeptBy(crc, segments[j], n) && LegalSegment(crc, s)
            && (s.cut == [] <==> !CutInside(crc, segments[j], n))
    ensures FileOf(crc, s) == FileOf(crc, segments[j])[..n]
    ensures ReadCut(crc, segments, j, n) == ReadAll(crc, FilesOf(crc, segments[j := s]), START)
  {
    s := CutFile(crc, segments[j], n);
    assert FilesOf(crc, segments[j := s]) == FilesOf(crc, segments)[j := FileOf(crc, segments[j])[..n]];
  }

  lemma UncutIsLegal(crc: Checksum, segments: seq<Segment>, j: nat, s: Segment)
    requires Uncut(segments) && j < |segments| && LegalSegment(crc, s)
    ensures AllLegalSegments(crc, segments[j := s]) && Uncut(segments[..j])
    ensures s.cut == [] && AllLegal(s.records) ==> Uncut(segments[j := s])
  {
  }

  /** Reading segments of which `j` is cut inside a record. */
  lemma ReadsToCut(crc: Checksum, segments: seq<Segment>, j: nat)
    requires AllLegalSegments(crc, segments) && j < |segments| && Uncut(segments[..j]) && segments[j].cut != []
    ensures ReadAll(crc, FilesOf(crc, segments), START)
         == Reading(Records(segments[..j]) + segments[j].records,
                    if j + 1 < |segments| then Err(Truncated(j, |FileOf(crc, segments[j])| - |segments[j].cut|))
                        else Ok(true))
  {
    ReadsBackSegments(crc, segments);
    ExpectedAfter(crc, segments, j);
  }

  /** Cutting one segment inside a record: a reader gets every whole record before the cut, and that is
      all. The last segment has a torn tail; an earlier one is an error at the record. */
  lemma ReadsCutInside(crc: Checksum, segments: seq<Segment>, j: nat, n: nat)
    requires Uncut(segments) && j < |segments| && FILE_HEADER_LEN <= n <= |FileOf(crc, segments[j])|
    requires CutInside(crc, segments[j], n)
    ensures var kept := KeptBy(crc, segments[j], n);
            ReadCut(crc, segments, j, n)
            == Reading(Records(segments[..j]) + kept,
                       if j == |segments| - 1 then Ok(true)
                       else Err(Truncated(j, FILE_HEADER_LEN + |SealAll(crc, kept)|)))
  {
    var s := CutJournal(crc, segments, j, n);
    var cut := segments[j := s];
    UncutIsLegal(crc, segments, j, s);
    assert cut[..j] == segments[..j];
    ReadsToCut(crc, cut, j);
  }

  /** Cutting a segment between two records: a reader goes on with the next segment as if the records
      cut off had never been written. */
  lemma ReadsShortened(crc: Checksum, segments: seq<Segment>, j: nat, n: nat)
    requires Uncut(segments) && j < |segments| && FILE_HEADER_LEN <= n <= |FileOf(crc, segments[j])|
    requires !CutInside(crc, segments[j], n)
    ensures ReadCut(crc, segments, j, n)
         == Reading(Records(segments[..j]) + (KeptBy(crc, segments[j], n) + Records(segments[j + 1..])), Ok(false))
  {
    var s := CutJournal(crc, segments, j, n);
    UncutIsLegal(crc, segments, j, s);
    RoundTrip(crc, segments[j := s]);
    RecordsAround(segments, j, s);
  }

  /** Whole segments before segment `j` are read, whatever the other files are. */
  lemma {:induction false} ReadsBefore(crc: Checksum, segments: seq<Segment>, files: seq<seq<byte>>, j: nat)
    returns (c: Cursor)
    requires Uncut(segments) && j <= |segments| == |files|
    requires forall k :: 0 <= k < j ==> files[k] == FileOf(crc, segments[k])
    ensures AtSegment(files, c, j)
    ensures ReadAll(crc, files, START) == Prefixed(Records(segments[..j]), ReadAll(crc, files, c))
  {
    if j == 0 {
      c := START;
      PrefixedTwice([], [], ReadAll(crc, files, START));
    } else {
      var s := segments[j - 1];
      var before := ReadsBefore(crc, segments, files, j - 1);
      ReadsSegment(crc, files, before, j - 1, s);
      c := After(files, j - 1, []);
      PrefixedTwice(Records(segments[..j - 1]), s.records, ReadAll(crc, files, c));
      assert segments[..j][..j - 1] == segments[..j - 1];
    }
  }

  /** A file shorter than a file header cannot be opened. */
  lemma ReadsNoHeader(crc: Checksum, files: seq<seq<byte>>, c: Cursor, j: nat)
    requires j < |files| && AtSegment(files, c, j) && |files[j]| < FILE_HEADER_LEN
    ensures ReadAll(crc, files, c) == Reading([], Err(Corrupt(j, BadFileHeader)))
  {
    assert LoadNext(files, c).1 == Err(Corrupt(j, BadFileHeader));
  }

  /** Cutting a segment inside its file header: an error, in the last segment too. */
  lemma ReadsCutHeader(crc: Checksum, segments: seq<Segment>, j: nat, n: nat)
    requires Uncut(segments) && j < |segments| && n < FILE_HEADER_LEN
    ensures n <= |FileOf(crc, segments[j])|
    ensures ReadCut(crc, segments, j, n) == Reading(Records(segments[..j]), Err(Corrupt(j, BadFileHeader)))
  {
    var files := FilesOf(crc, segments)[j := FileOf(crc, segments[j])[..n]];
    var c := ReadsBefore(crc, segments, files, j);
    ReadsNoHeader(crc, files, c, j);
    assert Records(segments[..j]) + [] == Records(segments[..j]);
  }

  /** A journal with one segment cut anywhere, in every case. In particular a damaged segment other than
      the last is reported if and only if the cut is inside a record or the file header; and records cut
      off between two records are lost without an error, in the last segment too. */
  lemma ReadsCutJournal(crc: Checksum, segments: seq<Segment>, j: nat, n: nat)
    requires Uncut(segments) && j < |segments| && n <= |FileOf(crc, segments[j])|
    ensures var before := Records(segments[..j]);
            ReadCut(crc, segments, j, n)
            == if n < FILE_HEADER_LEN then Reading(before, Err(Corrupt(j, BadFileHeader)))
               else
                 var kept, inside := KeptBy(crc, segments[j], n), CutInside(crc, segments[j], n);
                 if j == |segments| - 1 then Reading(before + kept, Ok(inside))
                 else if inside then
                   Reading(before + kept, Err(Truncated(j, FILE_HEADER_LEN + |SealAll(crc, kept)|)))
                 else Reading(before + (kept + Records(segments[j + 1..])), Ok(false))
  {
    if n < FILE_HEADER_LEN {
      ReadsCutHeader(crc, segments, j, n);
    } else if CutInside(crc, segments[j], n) {
      ReadsCutInside(crc, segments, j, n);
    } else {
      ReadsShortened(crc, segments, j, n);
      if j == |segments| - 1 {
        assert segments[j + 1..] == [];
        assert KeptBy(crc, segments[j], n) + [] == KeptBy(crc, segments[j], n);
      }
    }
  }

  /** Two segments of one record each, the first cut right after its file header: its record is gone,
      and reading ends as if nothing had happened. */
  lemma SilentLoss(crc: Checksum, a: JournalRecord, b: JournalRecord)
    requires Legal(a) && Legal(b)
    ensures var segments := [Segment(0, 0, [a], []), Segment(1, 0, [b], [])];
            && Records(segments) == [a, b]
            && FILE_HEADER_LEN < |FileOf(crc, segments[0])|
            && ReadCut(crc, segments, 0, FILE_HEADER_LEN) == Reading([b], Ok(false))
  {
    var first, second := Segment(0, 0, [a], []), Segment(1, 0, [b], []);
    var segments := [first, second];
    assert [first][..0] == [] && [second][..0] == [] && segments[..1] == [first] && segments[1..] == [second];
    assert Records([first]) == [a] && Records([second]) == [b];
    assert KeptBy(crc, first, FILE_HEADER_LEN) == [];
    ReadsShortened(crc, segments, 0, FILE_HEADER_LEN);
  }

  // ---------------------------------------------------------------- writing

  /** The writer's files: the segments already closed and the current one. */
  datatype SinkState = SinkState(closed: seq<seq<byte>>, current: seq<byte>, index: u32)

  function NextIndex(index: u32): u32 {
    if index == 0xFFFF_FFFF then index else index + 1
  }

  /** One record, as it lies in the ring, checksummed on its way to disk. A segment that has reached
      the limit is closed first. */
  function SinkWrite(crc: Checksum, limit: nat, s: SinkState, record: seq<byte>, created: u64): SinkState
    requires |record| >= RECORD_HEADER_LEN
  {
    var s' := if |s.current| >= limit
              then SinkState(s.closed + [s.current], EncodeFileHeader(NextIndex(s.index), created), NextIndex(s.index))
              else s;
    s'.(current := s'.current + Seal(crc, record))
  }

  /** The files after writing `rs`; `clock` gives the time each record is written at. */
  function SinkRun(crc: Checksum, limit: nat, clock: nat -> u64, rs: seq<JournalRecord>): SinkState {
    var n := |rs|;
    if n == 0 then SinkState([], EncodeFileHeader(0, clock(0)), 0)
    else SinkWrite(crc, limit, SinkRun(crc, limit, clock, rs[..n - 1]), Unsealed(rs[n - 1]), clock(n))
  }

  /** The same files as segments of records. */
  function SegmentsOf(crc: Checksum, limit: nat, clock: nat -> u64, rs: seq<JournalRecord>): (r: seq<Segment>)
    ensures r != []
  {
    var n := |rs|;
    if n == 0 then [Segment(0, clock(0), [], [])]
    else
      var before := SegmentsOf(crc, limit, clock, rs[..n - 1]);
      var last := before[|before| - 1];
      if |FileOf(crc, last)| >= limit then before + [Segment(NextIndex(last.index), clock(n), [rs[n - 1]], [])]
      else before[..|before| - 1] + [last.(records := last.records + [rs[n - 1]])]
  }

  lemma {:induction false} SealAllAppend(crc: Checksum, rs: seq<JournalRecord>, r: JournalRecord)
    ensures SealAll(crc, rs + [r]) == SealAll(crc, rs) + Sealed(crc, r)
    decreases |rs|
  {
    if rs == [] {
      assert [r][1..] == [] && rs + [r] == [r];
    } else {
      assert (rs + [r])[1..] == rs[1..] + [r];
      SealAllAppend(crc, rs[1..], r);
    }
  }

  lemma FileAppend(crc: Checksum, s: Segment, r: JournalRecord)
    requires s.cut == []
    ensures FileOf(crc, s.(records := s.records + [r])) == FileOf(crc, s) + Sealed(crc, r)
  {
    SealAllAppend(crc, s.records, r);
  }

  /** A segment passes the limit by at most its last record. */
  predicate NotPast(crc: Checksum, limit: nat, s: Segment) {
    |s.records| >= 2 ==> |FileOf(crc, s)| - |Sealed(crc, s.records[|s.records| - 1])| < limit
  }

  /** How the sizes of segments relate to the limit: a closed one has reached it, and none passes it
      by more than its last record. */
  ghost predicate WellSized(crc: Checksum, limit: nat, segments: seq<Segment>) {
    && (forall j :: 0 <= j < |segments| - 1 ==> |FileOf(crc, segments[j])| >= limit)
    && (forall j :: 0 <= j < |segments| ==> NotPast(crc, limit, segments[j]))
  }

  /** What the sink has written are whole segments, holding the records in order. */
  ghost predicate Written(crc: Checksum, limit: nat, s: SinkState, segments: seq<Segment>, rs: seq<JournalRecord>) {
    var last := |segments| - 1;
    && segments != [] && Uncut(segments) && Records(segments) == rs
    && s.closed == FilesOf(crc, segments[..last]) && s.current == FileOf(crc, segments[last])
    && s.index == segments[last].index && WellSized(crc, limit, segments)
  }

  lemma RecordsAppend(segments: seq<Segment>, s: Segment)
    ensures Records(segments + [s]) == Records(segments) + s.records
  {
    assert (segments + [s])[..|segments|] == segments;
  }

  lemma SizedBefore(crc: Checksum, limit: nat, segments: seq<Segment>, next: Segment, j: nat)
    requires j < |segments| && WellSized(crc, limit, segments)
    requires |FileOf(crc, segments[|segments| - 1])| >= limit
    ensures (segments + [next])[j] == segments[j]
    ensures |FileOf(crc, segments[j])| >= limit && NotPast(crc, limit, segments[j])
  {
  }

  lemma NewSized(crc: Checksum, limit: nat, segments: seq<Segment>, next: Segment)
    requires segments != [] && WellSized(crc, limit, segments) && |next.records| == 1
    requires |FileOf(crc, segments[|segments| - 1])| >= limit
    ensures WellSized(crc, limit, segments + [next])
  {
    var all := segments + [next];
    forall j | 0 <= j < |all| - 1 ensures |FileOf(crc, all[j])| >= limit { SizedBefore(crc, limit, segments, next, j); }
    forall j | 0 <= j < |all| ensures NotPast(crc, limit, all[j]) {
      if j < |segments| { SizedBefore(crc, limit, segments, next, j); }
    }
  }

  lemma NewFile(crc: Checksum, segments: seq<Segment>, next: Segment)
    requires segments != [] && |next.records| == 1 && next.cut == []
    ensures FilesOf(crc, segments) == FilesOf(crc, segments[..|segments| - 1]) + [FileOf(crc, segments[|segments| - 1])]
    ensures FileOf(crc, next) == EncodeFileHeader(next.index, next.created) + Sealed(crc, next.records[0])
  {
    LastFile(crc, segments);
    var one := Sealed(crc, next.records[0]);
    assert next.records[1..] == [];
    assert SealAll(crc, next.records) == one + [];
    assert one + [] == one;
  }

  lemma LastFile(crc: Checksum, segments: seq<Segment>)
    requires segments != []
    ensures FilesOf(crc, segments) == FilesOf(crc, segments[..|segments| - 1]) + [FileOf(crc, segments[|segments| - 1])]
  {
  }

  /** A record written to a new segment, the current one having reached the limit. */
  lemma WritesNewSegment(crc: Checksum, limit: nat, s: SinkState, segments: seq<Segment>, rs: seq<JournalRecord>,
                         next: Segment)
    requires Written(crc, limit, s, segments, rs) && |s.current| >= limit
    requires next.cut == [] && |next.records| == 1 && Legal(next.records[0]) && next.index == NextIndex(s.index)
    ensures Written(crc, limit, SinkWrite(crc, limit, s, Unsealed(next.records[0]), next.created),
            segments + [next], rs + next.records)
  {
    RecordsAppend(segments, next);
    assert (segments + [next])[..|segments|] == segments;
    NewFile(crc, segments, next);
    NewSized(crc, limit, segments, next);
  }

  lemma SameSized(crc: Checksum, limit: nat, init: seq<Segment>, last: Segment, r: JournalRecord)
    requires WellSized(crc, limit, init + [last]) && |FileOf(crc, last)| < limit && last.cut == []
    ensures WellSized(crc, limit, init + [last.(records := last.records + [r])])
  {
    FileAppend(crc, last, r);
    var more := last.(records := last.records + [r]);
    assert NotPast(crc, limit, more);
    LastSwapped(crc, limit, init, last, more);
  }

  lemma LastSwapped(crc: Checksum, limit: nat, init: seq<Segment>, last: Segment, more: Segment)
    requires WellSized(crc, limit, init + [last]) && NotPast(crc, limit, more)
    ensures WellSized(crc, limit, init + [more])
  {
    assert forall j :: 0 <= j < |init| ==> (init + [more])[j] == init[j] && (init + [last])[j] == init[j];
  }

  lemma SameRecords(init: seq<Segment>, last: Segment, r: JournalRecord, rs: seq<JournalRecord>)
    requires Uncut(init + [last]) && Records(init + [last]) == rs && Legal(r)
    ensures Uncut(init + [last.(records := last.records + [r])])
    ensures Records(init + [last.(records := last.records + [r])]) == rs + [r]
  {
    var more := last.(records := last.records + [r]);
    assert (init + [last])[|init|] == last;
    forall j | 0 <= j < |init| ensures (init + [more])[j] == (init + [last])[j] {}
    RecordsAppend(init, last);
    RecordsAppend(init, more);
    assert Records(init) + (last.records + [r]) == (Records(init) + last.records) + [r];
  }

  /** A record written to the current segment. */
  lemma WritesSameSegment(crc: Checksum, limit: nat, s: SinkState, segments: seq<Segment>,
                          rs: seq<JournalRecord>, r: JournalRecord, created: u64)
    requires Written(crc, limit, s, segments, rs) && |s.current| < limit && Legal(r)
    ensures var last := segments[|segments| - 1];
            Written(crc, limit, SinkWrite(crc, limit, s, Unsealed(r), created),
                    segments[..|segments| - 1] + [last.(records := last.records + [r])], rs + [r])
  {
    var init, last := segments[..|segments| - 1], segments[|segments| - 1];
    assert segments == init + [last];
    SameRecords(init, last, r, rs);
    SameSized(crc, limit, init, last, r);
    FileAppend(crc, last, r);
    assert (init + [last.(records := last.records + [r])])[..|init|] == init;
  }

  lemma SinkStep(crc: Checksum, limit: nat, clock: nat -> u64, rs: seq<JournalRecord>, r: JournalRecord)
    requires Legal(r) && Written(crc, limit, SinkRun(crc, limit, clock, rs), SegmentsOf(crc, limit, clock, rs), rs)
    ensures Written(crc, limit, SinkRun(crc, limit, clock, rs + [r]), SegmentsOf(crc, limit, clock, rs + [r]), rs + [r])
  {
    assert (rs + [r])[..|rs|] == rs;
    var s, segments := SinkRun(crc, limit, clock, rs), SegmentsOf(crc, limit, clock, rs);
    if |s.current| >= limit {
      WritesNewSegment(crc, limit, s, segments, rs, Segment(NextIndex(s.index), clock(|rs| + 1), [r], []));
    } else {
      WritesSameSegment(crc, limit, s, segments, rs, r, clock(|rs| + 1));
    }
  }

  lemma {:induction false} SinkWritten(crc: Checksum, limit: nat, clock: nat -> u64, rs: seq<JournalRecord>)
    requires AllLegal(rs)
    ensures Written(crc, limit, SinkRun(crc, limit, clock, rs), SegmentsOf(crc, limit, clock, rs), rs)
  {
    var n := |rs|;
    if n == 0 {
      RecordsAppend([], Segment(0, clock(0), [], []));
    } else {
      assert rs == rs[..n - 1] + [rs[n - 1]] && rs[n - 1] in rs;
      SinkWritten(crc, limit, clock, rs[..n - 1]);
      SinkStep(crc, limit, clock, rs[..n - 1], rs[n - 1]);
    }
  }

  /** Segments are numbered from 0 on, up to the largest number there is. */
  ghost predicate Numbered(segments: seq<Segment>) {
    forall j :: 0 <= j < |segments| ==> segments[j].index == Min(j, 0xFFFF_FFFF)
  }

  lemma {:induction false} SegmentsNumbered(crc: Checksum, limit: nat, clock: nat -> u64, rs: seq<JournalRecord>)
    ensures Numbered(SegmentsOf(crc, limit, clock, rs))
  {
    if rs != [] { SegmentsNumbered(crc, limit, clock, rs[..|rs| - 1]); }
  }

  /** The files the sink has written: whole segments numbered in order that hold the records in order, each
      closed as soon as it has reached the limit and no sooner. */
  lemma SinkFiles(crc: Checksum, limit: nat, clock: nat -> u64, rs: seq<JournalRecord>)
    requires AllLegal(rs)
    ensures var s, segments := SinkRun(crc, limit, clock, rs), SegmentsOf(crc, limit, clock, rs);
            && s.closed + [s.current] == FilesOf(crc, segments) && s.index == segments[|segments| - 1].index
            && Uncut(segments) && Records(segments) == rs && Numbered(segments) && WellSized(crc, limit, segments)
  {
    SinkWritten(crc, limit, clock, rs);
    SegmentsNumbered(crc, limit, clock, rs);
    LastFile(crc, SegmentsOf(crc, limit, clock, rs));
  }

  /** Whatever legal records are written, and wherever the size limit splits them into segments, a
      reader gets back exactly those records, with no torn tail. */
  lemma JournalRoundTrip(crc: Checksum, limit: nat, clock: nat -> u64, rs: seq<JournalRecord>)
    requires AllLegal(rs)
    ensures var s := SinkRun(crc, limit, clock, rs);
            ReadAll(crc, s.closed + [s.current], START) == Reading(rs, Ok(false))
  {
    SinkFiles(crc, limit, clock, rs);
    RoundTrip(crc, SegmentsOf(crc, limit, clock, rs));
  }

  // ---------------------------------------------------------------- reader and sink themselves

  class JournalReader {
    const files: seq<seq<byte>>
    var nextFile: nat
    var data: seq<byte>
    var pos: nat
    var tornTail: bool

    ghost function View(): Cursor
      reads this
    {
      Cursor(nextFile, data, pos, tornTail)
    }

    constructor (files: seq<seq<byte>>)
      ensures this.files == files && View() == START
    {
      this.files := files;
      nextFile, data, pos, tornTail := 0, [], 0, false;
    }

    method Load() returns (more: Result<bool, ReadError>)
      modifies this
      ensures (View(), more) == LoadNext(files, old(View()))
    {
      if nextFile >= |files| {
        return Ok(false);
      }
      var file := nextFile;
      nextFile := nextFile + 1;
      data := files[file];
      var header := DecodeFileHeader(data);
      if header.Err? {
        return Err(Corrupt(file, header.error));
      }
      pos := FILE_HEADER_LEN;
      return Ok(true);
    }

    method Next(crc: Checksum) returns (r: Result<Option<JournalRecord>, ReadError>)
      modifies this
      ensures (View(), r) == NextRecord(crc, files, old(View()))
    {
      while pos >= |data|
        invariant FindData(files, View()) == FindData(files, old(View()))
        decreases |files| - nextFile
      {
        var more := Load();
        if more.Err? {
          return Err(more.error);
        }
        if !more.value {
          return Ok(None);
        }
      }
      FoundAt(crc, files, old(View()), View());
      r := Take(crc);
    }

    /** Decodes the record at the position and moves past it. */
    method Take(crc: Checksum) returns (r: Result<Option<JournalRecord>, ReadError>)
      requires pos < |data|
      modifies this
      ensures (View(), r) == RecordAt(crc, files, old(View()))
    {
      var rest := data[pos..];
      var file := if nextFile > 0 then nextFile - 1 else 0;
      match DecodeRecord(crc, rest, pos)
      case Err(e) => return Err(Corrupt(file, e));
      case Ok(Incomplete) =>
        if nextFile < |files| {
          return Err(Truncated(file, pos));
        }
        tornTail := true;
        pos := |data|;
        return Ok(None);
      case Ok(Whole(header, len)) =>
        var start := pos;
        pos := pos + len;
        return Ok(Some(JournalRecord(header, data[start + RECORD_HEADER_LEN..start + len])));
    }

    /** Reads until the end or the first error. */
    method ReadEverything(crc: Checksum) returns (reading: Reading)
      requires nextFile <= |files| && pos <= |data|
      modifies this
      ensures reading == ReadAll(crc, files, old(View()))
    {
      var records := [];
      PrefixedTwice([], [], ReadAll(crc, files, View()));
      while true
        invariant nextFile <= |files| && pos <= |data|
        invariant ReadAll(crc, files, old(View())) == Prefixed(records, ReadAll(crc, files, View()))
        decreases |files| - nextFile, |data| - pos
      {
        ghost var c := View();
        var r := Next(crc);
        if r.Err? {
          return Reading(records, Err(r.error));
        }
        if r.value.None? {
          return Reading(records, Ok(tornTail));
        }
        ReadsOne(crc, files, c, View(), r.value.value);
        PrefixedTwice(records, [r.value.value], ReadAll(crc, files, View()));
        records := records + [r.value.value];
      }
    }
  }

  class Sink {
    const limit: nat
    var closed: seq<seq<byte>>
    var current: seq<byte>
    var index: u32

    ghost function View(): SinkState
      reads this
    {
      SinkState(closed, current, index)
    }

    constructor (limit: nat, created: u64)
      ensures this.limit == limit && View() == SinkState([], EncodeFileHeader(0, created), 0)
    {
      this.limit := limit;
      closed, current, index := [], EncodeFileHeader(0, created), 0;
    }

    /** Writes one record from the ring, computing its checksums on the way: the record itself is
        not copied or changed. */
    method Write(crc: Checksum, record: seq<byte>, created: u64)
      requires |record| >= RECORD_HEADER_LEN
      modifies this
      ensures View() == SinkWrite(crc, limit, old(View()), record, created)
    {
      if |current| >= limit {
        closed := closed + [current];
        index := NextIndex(index);
        current := EncodeFileHeader(index, created);
      }
      ghost var before := current;
      var c := RecordChecksum(crc, record);
      var h := HeaderChecksum(crc, record, c);
      current := current + record[..CRC_AT];
      current := current + ToLE(c, 4);
      current := current + ToLE(h, 4);
      current := current + record[RECORD_HEADER_LEN..];
      assert current == before + Seal(crc, record);
    }
  }

  /** `seal`: computes and stores both checksums of a record in place. */
  method SealInPlace(crc: Checksum, record: array<byte>)
    requires record.Length >= RECORD_HEADER_LEN
    modifies record
    ensures record[..] == Seal(crc, old(record[..]))
  {
    var c := RecordChecksum(crc, record[..]);
    var h := HeaderChecksum(crc, record[..], c);
    var bytes := ToLE(c, 4) + ToLE(h, 4);
    var k := 0;
    while k < 8
      invariant 0 <= k <= 8
      invariant forall i :: 0 <= i < record.Length ==>
                  record[i] == if CRC_AT <= i < CRC_AT + k then bytes[i - CRC_AT] else old(record[i])
    {
      record[CRC_AT + k] := bytes[k];
      k := k + 1;
    }
    assert record[..] == old(record[..CRC_AT]) + bytes + old(record[RECORD_HEADER_LEN..]);
  }
}
