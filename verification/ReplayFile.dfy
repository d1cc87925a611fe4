/** Replaying journals as they lie on disk (crates/bowst-venue/src/binance/replay.rs:154-231): records
    of every kind, several sessions in a row, and the errors of a journal that is inconsistent. */
module ReplayFiles {
  import opened Common
  import opened ByteCodec
  import opened JournalFormat
  import JournalFiles
  import opened MdBooks
  import opened MdSessions
  import opened JournalReplay

  const SESSION_START: u16 := 0x0002
  const MD_MESSAGE: u16 := 0x0100
  const MD_SNAPSHOT: u16 := 0x0101
  const MD_STATUS: u16 := 0x0102
  const MD_RESET: u16 := 0x0103
  const MD_VERIFY_START: u16 := 0x0104
  const MD_VERIFY_SNAPSHOT: u16 := 0x0105

  datatype ReplayError = NoSession | BadSession | BadSnapshot | InvalidSizing

  /** Reading a session's description and making its books. */
  type Opener = seq<byte> -> Result<MdState, ReplayError>

  ghost predicate Opens(open: Opener) {
    forall text :: open(text).Ok? ==> MdInv(open(text).value)
  }

  /** The books of the session being replayed, what the handler has heard, and how many records the
      gap markers say were lost. */
  datatype Progress = Progress(books: Option<MdState>, heard: seq<Heard>, dropped: u64)

  const NOTHING_YET: Progress := Progress(None, [], 0)

  ghost predicate Sound(p: Progress) {
    p.books.Some? ==> MdInv(p.books.value)
  }

  predicate OfSession(kind: u16) {
    || kind == MD_MESSAGE || kind == MD_SNAPSHOT || kind == MD_RESET
    || kind == MD_VERIFY_START || kind == MD_VERIFY_SNAPSHOT
  }

  /** The market-data record in a journal record, unless its payload is too short for an instrument. */
  function Decode(r: JournalRecord): Option<Record>
    requires OfSession(r.header.kind)
  {
    var kind, payload := r.header.kind, r.payload;
    if kind == MD_MESSAGE then Some(MessageRecord(payload))
    else if kind == MD_RESET then Some(ResetRecord)
    else if |payload| < 4 then None
    else
      var instrument := FromLE(payload[..4]);
      if kind == MD_SNAPSHOT then Some(SnapshotRecord(instrument, payload[4..], r.header.wall))
      else if kind == MD_VERIFY_START then Some(VerifyStartRecord(instrument))
      else Some(VerifySnapshotRecord(instrument, payload[4..]))
  }

  /** One round of the loop of `replay`. */
  function ReplayEntry(dec: Decoders, open: Opener, p: Progress, r: JournalRecord): (q: Result<Progress, ReplayError>)
    requires Opens(open) && Sound(p)
    ensures q.Ok? ==> Sound(q.value)
  {
    var kind := r.header.kind;
    if kind == SESSION_START then
      (match open(r.payload)
       case Err(e) => Err(e)
       case Ok(books) => Ok(p.(books := Some(books))))
    else if kind == GAP then
      Ok(p.(dropped := SatAdd(p.dropped, if |r.payload| < 8 then 0 else GapCount(r.payload))))
    else if OfSession(kind) then
      if p.books.None? then Err(NoSession)
      else
        (match Decode(r)
         case None => Err(BadSnapshot)
         case Some(record) =>
           var before := Replayed(p.books.value, p.heard);
           ReplayRecordInv(dec, before, record);
           var after := ReplayRecord(dec, before, record);
           Ok(p.(books := Some(after.books), heard := after.heard)))
    else Ok(p)
  }

  function GapCount(payload: seq<byte>): u64
    requires |payload| >= 8
  {
    Widths();
    FromLE(payload[..8])
  }

  /** `replay`, from some point on. */
  function ReplayFrom(dec: Decoders, open: Opener, p: Progress, rs: seq<JournalRecord>)
    : (q: Result<Progress, ReplayError>)
    requires Opens(open) && Sound(p)
    ensures q.Ok? ==> Sound(q.value)
  {
    if rs == [] then Ok(p)
    else
      match ReplayFrom(dec, open, p, rs[..|rs| - 1])
      case Err(e) => Err(e)
      case Ok(q) => ReplayEntry(dec, open, q, rs[|rs| - 1])
  }

  lemma {:induction false} ReplaySplit(dec: Decoders, open: Opener, p: Progress, a: seq<JournalRecord>,
                                       b: seq<JournalRecord>)
    requires Opens(open) && Sound(p)
    ensures var first := ReplayFrom(dec, open, p, a);
            ReplayFrom(dec, open, p, a + b) == if first.Err? then first else ReplayFrom(dec, open, first.value, b)
    decreases |b|
  {
    if b == [] {
      assert a + b == a;
    } else {
      ReplaySplit(dec, open, p, a, b[..|b| - 1]);
      assert (a + b)[..|a + b| - 1] == a + b[..|b| - 1];
    }
  }

  // ---------------------------------------------------------------- what a session journals

  /** The rest of a record's header, and the text of a status record. */
  datatype Stamp = Stamp(source: u16, mono: u64, wall: u64, text: seq<byte>)

  /** The record fits the format: its instrument in 32 bits, its time in 64, its payload in the limit. */
  predicate Encodable(r: Record, at: Stamp) {
    match r
    case MessageRecord(raw) => |raw| <= MAX_PAYLOAD
    case SnapshotRecord(i, raw, wall) => i < 0x1_0000_0000 && 4 + |raw| <= MAX_PAYLOAD && 0 <= wall <= U64_MAX
    case VerifyStartRecord(i) => i < 0x1_0000_0000
    case VerifySnapshotRecord(i, raw) => i < 0x1_0000_0000 && 4 + |raw| <= MAX_PAYLOAD
    case ResetRecord => true
    case StatusRecord => |at.text| <= MAX_PAYLOAD
  }

  /** `MdSession::record`. */
  function Encode(r: Record, at: Stamp): JournalRecord
    requires Encodable(r, at)
  {
    var h := RecordHeader(0, at.source, at.mono, at.wall);
    match r
    case MessageRecord(raw) => JournalRecord(h.(kind := MD_MESSAGE), raw)
    case SnapshotRecord(i, raw, wall) => JournalRecord(h.(kind := MD_SNAPSHOT, wall := wall), ToLE(i, 4) + raw)
    case VerifyStartRecord(i) => JournalRecord(h.(kind := MD_VERIFY_START), ToLE(i, 4))
    case VerifySnapshotRecord(i, raw) => JournalRecord(h.(kind := MD_VERIFY_SNAPSHOT), ToLE(i, 4) + raw)
    case ResetRecord => JournalRecord(h.(kind := MD_RESET), [])
    case StatusRecord => JournalRecord(h.(kind := MD_STATUS), at.text)
  }

  lemma InstrumentReadsBack(i: nat, raw: seq<byte>)
    requires i < 0x1_0000_0000
    ensures var payload := ToLE(i, 4) + raw;
            |payload| >= 4 && FromLE(payload[..4]) == i && payload[4..] == raw
  {
    Widths();
    LERoundTrip(i, 4);
    assert (ToLE(i, 4) + raw)[..4] == ToLE(i, 4);
  }

  /** Every market-data record reads back as itself. */
  lemma EncodeRoundTrip(r: Record, at: Stamp)
    requires Encodable(r, at)
    ensures JournalFiles.Legal(Encode(r, at))
    ensures if r.StatusRecord? then !OfSession(Encode(r, at).header.kind)
            else OfSession(Encode(r, at).header.kind) && Decode(Encode(r, at)) == Some(r)
  {
    match r
    case SnapshotRecord(i, raw, _) => InstrumentReadsBack(i, raw);
    case VerifyStartRecord(i) =>
      InstrumentReadsBack(i, []);
      assert ToLE(i, 4) + [] == ToLE(i, 4);
    case VerifySnapshotRecord(i, raw) => InstrumentReadsBack(i, raw);
    case _ =>
  }

  ghost predicate AllEncodable(journal: seq<Record>, stamps: nat -> Stamp) {
    forall k :: 0 <= k < |journal| ==> Encodable(journal[k], stamps(k))
  }

  function EncodeAll(journal: seq<Record>, stamps: nat -> Stamp): (rs: seq<JournalRecord>)
    requires AllEncodable(journal, stamps)
    ensures |rs| == |journal|
  {
    if journal == [] then []
    else
      var n := |journal| - 1;
      EncodeAll(journal[..n], stamps) + [Encode(journal[n], stamps(n))]
  }

  lemma {:induction false} EncodesLegal(journal: seq<Record>, stamps: nat -> Stamp)
    requires AllEncodable(journal, stamps)
    ensures JournalFiles.AllLegal(EncodeAll(journal, stamps))
  {
    if journal != [] {
      var n := |journal| - 1;
      EncodesLegal(journal[..n], stamps);
      EncodeRoundTrip(journal[n], stamps(n));
    }
  }

  // ---------------------------------------------------------------- replaying a session

  /** What was heard before makes no difference to what is heard next. */
  lemma HeardAppends(dec: Decoders, books: MdState, before: seq<Heard>, heard: seq<Heard>, r: Record)
    requires MdInv(books)
    ensures var x := ReplayRecord(dec, Replayed(books, heard), r);
            ReplayRecord(dec, Replayed(books, before + heard), r) == Replayed(x.books, before + x.heard)
  {
    match r
    case MessageRecord(raw) =>
      var (books', outcome) := ApplyMessage(dec, books, raw);
      if outcome.Some? { Joined(before, heard, Report(books', outcome.value)); }
    case SnapshotRecord(i, raw, wall) => Joined(before, heard, TakeRawSnapshot(dec, books, i, raw, wall).2);
    case VerifySnapshotRecord(i, raw) => Joined(before, heard, TakeRawVerificationSnapshot(dec, books, i, raw).2);
    case _ =>
  }

  lemma Joined(a: seq<Heard>, b: seq<Heard>, c: seq<Heard>)
    ensures a + (b + c) == (a + b) + c
  {
  }

  lemma ReplaysOne(dec: Decoders, open: Opener, p: Progress, books: MdState, heard: seq<Heard>, r: Record, at: Stamp)
    requires Opens(open) && MdInv(books) && Encodable(r, at)
    ensures var x := ReplayRecord(dec, Replayed(books, heard), r);
            ReplayEntry(dec, open, p.(books := Some(books), heard := p.heard + heard), Encode(r, at))
            == Ok(p.(books := Some(x.books), heard := p.heard + x.heard))
  {
    EncodeRoundTrip(r, at);
    HeardAppends(dec, books, p.heard, heard, r);
  }

  lemma {:induction false} ReplaysJournal(dec: Decoders, open: Opener, p: Progress, start: MdState,
                                          journal: seq<Record>, stamps: nat -> Stamp)
    requires Opens(open) && MdInv(start) && AllEncodable(journal, stamps)
    ensures var x := ReplayAll(dec, start, journal);
            ReplayFrom(dec, open, p.(books := Some(start)), EncodeAll(journal, stamps))
            == Ok(p.(books := Some(x.books), heard := p.heard + x.heard))
  {
    if journal == [] {
      assert p.heard + [] == p.heard;
    } else {
      var n := |journal| - 1;
      var rs := EncodeAll(journal, stamps);
      ReplaysJournal(dec, open, p, start, journal[..n], stamps);
      assert rs[..|rs| - 1] == EncodeAll(journal[..n], stamps);
      var x := ReplayAll(dec, start, journal[..n]);
      ReplaysOne(dec, open, p, x.books, x.heard, journal[n], stamps(n));
    }
  }

  // ---------------------------------------------------------------- several sessions

  /** A live session: its description, its turns, and what its records were stamped with. */
  datatype LiveSession = LiveSession(text: seq<byte>, turns: seq<Turn>, first: Stamp, stamps: nat -> Stamp)

  function Played(dec: Decoders, cfg: SessionConfig, open: Opener, l: LiveSession): Session
    requires Opens(open) && open(l.text).Ok?
  {
    Run(dec, cfg, New(open(l.text).value), l.turns)
  }

  /** The description opens, to books with no verification running, and every record fits the format. */
  ghost predicate Replayable(dec: Decoders, cfg: SessionConfig, open: Opener, l: LiveSession) {
    && Opens(open) && open(l.text).Ok? && open(l.text).value.verifying.None? && |l.text| <= MAX_PAYLOAD
    && AllEncodable(Played(dec, cfg, open, l).journal, l.stamps)
  }

  /** No message of the session completes an abandoned verification whose books differ. */
  predicate Exact(dec: Decoders, cfg: SessionConfig, open: Opener, l: LiveSession)
    requires Opens(open) && open(l.text).Ok?
  {
    !EverContradicts(dec, cfg, open(l.text).value, l.turns)
  }

  function StartRecord(l: LiveSession): JournalRecord {
    JournalRecord(RecordHeader(SESSION_START, l.first.source, l.first.mono, l.first.wall), l.text)
  }

  ghost function RecordsOf(dec: Decoders, cfg: SessionConfig, open: Opener, l: LiveSession): seq<JournalRecord>
    requires Replayable(dec, cfg, open, l)
  {
    [StartRecord(l)] + EncodeAll(Played(dec, cfg, open, l).journal, l.stamps)
  }

  ghost predicate AllReplayable(dec: Decoders, cfg: SessionConfig, open: Opener, ls: seq<LiveSession>) {
    Opens(open) && forall k :: 0 <= k < |ls| ==> Replayable(dec, cfg, open, ls[k])
  }

  ghost predicate AllExact(dec: Decoders, cfg: SessionConfig, open: Opener, ls: seq<LiveSession>)
    requires AllReplayable(dec, cfg, open, ls)
  {
    ls == [] || (AllExact(dec, cfg, open, ls[..|ls| - 1]) && Exact(dec, cfg, open, ls[|ls| - 1]))
  }

  /** The sessions' records, one session after the other. */
  ghost function AllRecords(dec: Decoders, cfg: SessionConfig, open: Opener, ls: seq<LiveSession>): seq<JournalRecord>
    requires AllReplayable(dec, cfg, open, ls)
  {
    if ls == [] then []
    else AllRecords(dec, cfg, open, ls[..|ls| - 1]) + RecordsOf(dec, cfg, open, ls[|ls| - 1])
  }

  /** What the handlers of all sessions heard live. */
  ghost function AllHeard(dec: Decoders, cfg: SessionConfig, open: Opener, ls: seq<LiveSession>): seq<Heard>
    requires AllReplayable(dec, cfg, open, ls)
  {
    if ls == [] then []
    else AllHeard(dec, cfg, open, ls[..|ls| - 1]) + Played(dec, cfg, open, ls[|ls| - 1]).heard
  }

  function ReplayedHeard(dec: Decoders, cfg: SessionConfig, open: Opener, l: LiveSession): seq<Heard>
    requires Opens(open) && open(l.text).Ok?
  {
    ReplayAll(dec, open(l.text).value, Played(dec, cfg, open, l).journal).heard
  }

  /** What a handler hears when the journals of the sessions are replayed one by one. */
  ghost function AllReplayed(dec: Decoders, cfg: SessionConfig, open: Opener, ls: seq<LiveSession>): seq<Heard>
    requires AllReplayable(dec, cfg, open, ls)
  {
    if ls == [] then []
    else AllReplayed(dec, cfg, open, ls[..|ls| - 1]) + ReplayedHeard(dec, cfg, open, ls[|ls| - 1])
  }

  /** One more session, replayed after whatever came before. */
  lemma ReplaysSession(dec: Decoders, cfg: SessionConfig, open: Opener, p: Progress, l: LiveSession)
    requires Replayable(dec, cfg, open, l) && Sound(p)
    ensures var q := ReplayFrom(dec, open, p, RecordsOf(dec, cfg, open, l));
            q.Ok? && q.value.heard == p.heard + ReplayedHeard(dec, cfg, open, l) && q.value.dropped == p.dropped
  {
    var start := open(l.text).value;
    var journal := Played(dec, cfg, open, l).journal;
    ReplaySplit(dec, open, p, [StartRecord(l)], EncodeAll(journal, l.stamps));
    OpensSession(dec, open, p, l);
    ReplaysJournal(dec, open, p, start, journal, l.stamps);
  }

  lemma OpensSession(dec: Decoders, open: Opener, p: Progress, l: LiveSession)
    requires Opens(open) && Sound(p) && open(l.text).Ok?
    ensures ReplayFrom(dec, open, p, [StartRecord(l)]) == Ok(p.(books := Some(open(l.text).value)))
  {
    assert [StartRecord(l)][..0] == [];
  }

  /** The journal of any number of sessions replays without an error, as its sessions do one by one. */
  lemma {:induction false} ReplaysEverySession(dec: Decoders, cfg: SessionConfig, open: Opener, ls: seq<LiveSession>)
    requires AllReplayable(dec, cfg, open, ls)
    ensures var q := ReplayFrom(dec, open, NOTHING_YET, AllRecords(dec, cfg, open, ls));
            q.Ok? && q.value.heard == AllReplayed(dec, cfg, open, ls) && q.value.dropped == 0
    decreases |ls|
  {
    if ls != [] {
      var n := |ls| - 1;
      ReplaysEverySession(dec, cfg, open, ls[..n]);
      ReplaySplit(dec, open, NOTHING_YET, AllRecords(dec, cfg, open, ls[..n]), RecordsOf(dec, cfg, open, ls[n]));
      var p := ReplayFrom(dec, open, NOTHING_YET, AllRecords(dec, cfg, open, ls[..n])).value;
      ReplaysSession(dec, cfg, open, p, ls[n]);
    }
  }

  /** Reports that have diverged stay so, whatever follows them. */
  lemma DivergedFollowed(a: seq<Heard>, b: seq<Heard>, x: seq<Heard>, y: seq<Heard>)
    requires Diverged(a, b)
    ensures Diverged(a + x, b + y)
  {
    DivergedStays(a, b, a + x, b + y);
  }

  lemma DivergedAfter(a: seq<Heard>, x: seq<Heard>, y: seq<Heard>)
    requires Diverged(x, y)
    ensures Diverged(a + x, a + y)
  {
    var i :| 0 <= i < |x| && i < |y| && x[i] != y[i];
    assert (a + x)[|a| + i] == x[i] && (a + y)[|a| + i] == y[i];
  }

  /** Replayed one by one, the sessions sound as they did live if and only if each of them is exact. */
  lemma {:induction false} SessionsExactIff(dec: Decoders, cfg: SessionConfig, open: Opener, ls: seq<LiveSession>)
    requires AllReplayable(dec, cfg, open, ls)
    ensures var live, replayed := AllHeard(dec, cfg, open, ls), AllReplayed(dec, cfg, open, ls);
            if AllExact(dec, cfg, open, ls) then replayed == live else Diverged(live, replayed)
    decreases |ls|
  {
    if ls != [] {
      var n := |ls| - 1;
      var l := ls[n];
      SessionsExactIff(dec, cfg, open, ls[..n]);
      ReplayExactIff(dec, cfg, open(l.text).value, l.turns);
      var live, replayed := Played(dec, cfg, open, l).heard, ReplayedHeard(dec, cfg, open, l);
      if !AllExact(dec, cfg, open, ls[..n]) {
        DivergedFollowed(AllHeard(dec, cfg, open, ls[..n]), AllReplayed(dec, cfg, open, ls[..n]), live, replayed);
      } else if !Exact(dec, cfg, open, l) {
        DivergedAfter(AllHeard(dec, cfg, open, ls[..n]), live, replayed);
      }
    }
  }

  lemma SessionLegal(dec: Decoders, cfg: SessionConfig, open: Opener, l: LiveSession)
    requires Replayable(dec, cfg, open, l)
    ensures JournalFiles.AllLegal(RecordsOf(dec, cfg, open, l))
  {
    EncodesLegal(Played(dec, cfg, open, l).journal, l.stamps);
  }

  lemma LegalAppend(a: seq<JournalRecord>, b: seq<JournalRecord>)
    requires JournalFiles.AllLegal(a) && JournalFiles.AllLegal(b)
    ensures JournalFiles.AllLegal(a + b)
  {
  }

  lemma {:induction false} SessionsLegal(dec: Decoders, cfg: SessionConfig, open: Opener, ls: seq<LiveSession>)
    requires AllReplayable(dec, cfg, open, ls)
    ensures JournalFiles.AllLegal(AllRecords(dec, cfg, open, ls))
    decreases |ls|
  {
    if ls != [] {
      var n := |ls| - 1;
      SessionsLegal(dec, cfg, open, ls[..n]);
      SessionLegal(dec, cfg, open, ls[n]);
      LegalAppend(AllRecords(dec, cfg, open, ls[..n]), RecordsOf(dec, cfg, open, ls[n]));
    }
  }

  /** The records of any number of sessions, in a row, replay without an error and with nothing lost,
      and to exactly what the sessions reported if and only if every session is exact. */
  lemma SessionsReplayIff(dec: Decoders, cfg: SessionConfig, open: Opener, ls: seq<LiveSession>)
    requires AllReplayable(dec, cfg, open, ls)
    ensures var q := ReplayFrom(dec, open, NOTHING_YET, AllRecords(dec, cfg, open, ls));
            && q.Ok? && q.value.dropped == 0
            && (q.value.heard == AllHeard(dec, cfg, open, ls) <==> AllExact(dec, cfg, open, ls))
  {
    ReplaysEverySession(dec, cfg, open, ls);
    SessionsExactIff(dec, cfg, open, ls);
  }

  // ---------------------------------------------------------------- inconsistent journals

  /** Some session has started. */
  predicate Started(rs: seq<JournalRecord>) {
    rs != [] && (Started(rs[..|rs| - 1]) || rs[|rs| - 1].header.kind == SESSION_START)
  }

  /** What is wrong with a record, given whether a session has started. */
  function Fault(open: Opener, started: bool, r: JournalRecord): Option<ReplayError> {
    if r.header.kind == SESSION_START then
      (match open(r.payload)
       case Err(e) => Some(e)
       case Ok(_) => None)
    else if !OfSession(r.header.kind) then None
    else if !started then Some(NoSession)
    else if |r.payload| < 4 && r.header.kind != MD_MESSAGE && r.header.kind != MD_RESET then Some(BadSnapshot)
    else None
  }

  /** The first thing wrong with a journal, if there is one. */
  function FirstFault(open: Opener, rs: seq<JournalRecord>): Option<ReplayError> {
    if rs == [] then None
    else
      var n := |rs| - 1;
      var fault := FirstFault(open, rs[..n]);
      if fault.Some? then fault else Fault(open, Started(rs[..n]), rs[n])
  }

  lemma EntryFault(dec: Decoders, open: Opener, p: Progress, r: JournalRecord)
    requires Opens(open) && Sound(p)
    ensures var q, fault := ReplayEntry(dec, open, p, r), Fault(open, p.books.Some?, r);
            && (q.Err? <==> fault.Some?) && (q.Err? ==> q.error == fault.value)
            && (q.Ok? ==> (q.value.books.Some? <==> p.books.Some? || r.header.kind == SESSION_START))
  {
  }

  /** A replay fails exactly on a journal with something wrong with it, with the error of the first such
      thing: a description that does not open, a market-data record before any session started, or one
      too short for its instrument. What the messages and snapshots say never stops it. */
  lemma {:induction false} ReplayFailsIff(dec: Decoders, open: Opener, rs: seq<JournalRecord>)
    requires Opens(open)
    ensures var q, fault := ReplayFrom(dec, open, NOTHING_YET, rs), FirstFault(open, rs);
            && (q.Err? <==> fault.Some?) && (q.Err? ==> q.error == fault.value)
            && (q.Ok? ==> (q.value.books.Some? <==> Started(rs)))
  {
    if rs != [] {
      var n := |rs| - 1;
      ReplayFailsIff(dec, open, rs[..n]);
      var before := ReplayFrom(dec, open, NOTHING_YET, rs[..n]);
      if before.Ok? { EntryFault(dec, open, before.value, rs[n]); }
    }
  }

  // ---------------------------------------------------------------- as it runs

  /** What a replay went through. */
  datatype ReplayReport = ReplayReport(sessions: u64, messages: u64, snapshots: u64, verifications: u64,
                                       resets: u64, dropped: u64, tornTail: bool)

  const NO_REPORT: ReplayReport := ReplayReport(0, 0, 0, 0, 0, 0, false)

  function Count(report: ReplayReport, r: JournalRecord): ReplayReport {
    var kind := r.header.kind;
    if kind == SESSION_START then report.(sessions := SatAdd(report.sessions, 1))
    else if kind == MD_MESSAGE then report.(messages := SatAdd(report.messages, 1))
    else if kind == MD_SNAPSHOT then report.(snapshots := SatAdd(report.snapshots, 1))
    else if kind == MD_VERIFY_SNAPSHOT then report.(verifications := SatAdd(report.verifications, 1))
    else if kind == MD_RESET then report.(resets := SatAdd(report.resets, 1))
    else if kind == GAP then
      report.(dropped := SatAdd(report.dropped, if |r.payload| < 8 then 0 else GapCount(r.payload)))
    else report
  }

  function Tally(rs: seq<JournalRecord>): ReplayReport {
    if rs == [] then NO_REPORT else Count(Tally(rs[..|rs| - 1]), rs[|rs| - 1])
  }

  function CountKind(rs: seq<JournalRecord>, kind: u16): nat {
    if rs == [] then 0 else CountKind(rs[..|rs| - 1], kind) + if rs[|rs| - 1].header.kind == kind then 1 else 0
  }

  function Saturated(n: nat): u64 {
    if n > U64_MAX then U64_MAX else n
  }

  /** The counter of a kind of record. */
  function CounterOf(report: ReplayReport, kind: u16): u64 {
    if kind == SESSION_START then report.sessions
    else if kind == MD_MESSAGE then report.messages
    else if kind == MD_SNAPSHOT then report.snapshots
    else if kind == MD_VERIFY_SNAPSHOT then report.verifications
    else report.resets
  }

  predicate Counted(kind: u16) {
    kind == SESSION_START || kind == MD_MESSAGE || kind == MD_SNAPSHOT || kind == MD_VERIFY_SNAPSHOT || kind == MD_RESET
  }

  lemma CountsOne(report: ReplayReport, r: JournalRecord, kind: u16)
    requires Counted(kind)
    ensures CounterOf(Count(report, r), kind)
         == if r.header.kind == kind then SatAdd(CounterOf(report, kind), 1) else CounterOf(report, kind)
  {
  }

  /** Each counter is the number of records of its kind, cut off at 64 bits. */
  lemma {:induction false} TallyCounts(rs: seq<JournalRecord>, kind: u16)
    requires Counted(kind)
    ensures CounterOf(Tally(rs), kind) == Saturated(CountKind(rs, kind))
  {
    if rs != [] {
      TallyCounts(rs[..|rs| - 1], kind);
      CountsOne(Tally(rs[..|rs| - 1]), rs[|rs| - 1], kind);
    }
  }

  /** The losses in the report are those the replay adds up. */
  lemma {:induction false} TallyDropped(dec: Decoders, open: Opener, rs: seq<JournalRecord>)
    requires Opens(open) && ReplayFrom(dec, open, NOTHING_YET, rs).Ok?
    ensures ReplayFrom(dec, open, NOTHING_YET, rs).value.dropped == Tally(rs).dropped
  {
    if rs != [] {
      TallyDropped(dec, open, rs[..|rs| - 1]);
    }
  }

  lemma ReplayMore(dec: Decoders, open: Opener, done: seq<JournalRecord>, r: JournalRecord)
    requires Opens(open)
    ensures var before := ReplayFrom(dec, open, NOTHING_YET, done);
            ReplayFrom(dec, open, NOTHING_YET, done + [r])
            == if before.Err? then before else ReplayEntry(dec, open, before.value, r)
    ensures Tally(done + [r]) == Count(Tally(done), r)
  {
    assert (done + [r])[..|done|] == done;
  }

  /** Nothing read after an error makes a difference to it. */
  lemma ErrorEnds(dec: Decoders, open: Opener, done: seq<JournalRecord>, more: seq<JournalRecord>)
    requires Opens(open) && ReplayFrom(dec, open, NOTHING_YET, done).Err?
    ensures ReplayFrom(dec, open, NOTHING_YET, done + more) == ReplayFrom(dec, open, NOTHING_YET, done)
  {
    ReplaySplit(dec, open, NOTHING_YET, done, more);
  }

  /** The books in progress are those of `p`. */
  ghost predicate Holds(books: MarketBooks?, p: Progress)
    reads books
  {
    if books == null then p.books.None? else books.Valid() && p.books == Some(books.View())
  }

  /** A market-data record, handed to the books of the session in progress. */
  method TakeRecord(dec: Decoders, ghost open: Opener, books: MarketBooks?, r: JournalRecord, ghost p: Progress)
    returns (more: Result<seq<Heard>, ReplayError>)
    requires OfSession(r.header.kind) && Opens(open) && Sound(p) && Holds(books, p)
    modifies books
    ensures var q := ReplayEntry(dec, open, p, r);
            if q.Err? then more == Err(q.error)
            else more.Ok? && Holds(books, q.value)
                 && q.value == p.(books := q.value.books, heard := p.heard + more.value)
  {
    if books == null {
      return Err(NoSession);
    }
    var record := Decode(r);
    if record.None? {
      return Err(BadSnapshot);
    }
    var heard := ReplayOneRecord(dec, books, record.value);
    return Ok(heard);
  }

  /** One record of any kind. A session's start makes new books. */
  method TakeEntry(dec: Decoders, open: Opener, books: MarketBooks?, r: JournalRecord, ghost p: Progress)
    returns (books': MarketBooks?, more: Result<seq<Heard>, ReplayError>)
    requires Opens(open) && Sound(p) && Holds(books, p)
    modifies books
    ensures books' == books || (books' != null && fresh(books'))
    ensures var q := ReplayEntry(dec, open, p, r);
            if q.Err? then more == Err(q.error)
            else more.Ok? && Holds(books', q.value) && q.value.heard == p.heard + more.value
  {
    books', more := books, Ok([]);
    if r.header.kind == SESSION_START {
      var opening := open(r.payload);
      if opening.Err? {
        return books, Err(opening.error);
      }
      books' := new MarketBooks(opening.value);
    } else if OfSession(r.header.kind) {
      more := TakeRecord(dec, open, books, r, p);
    }
  }

  datatype ReplayFailure = Unreadable(read: JournalFiles.ReadError) | Inconsistent(error: ReplayError)

  /** `replay`: the loop over the records as they are read, with the books of one session at a time. */
  method ReplayReader(dec: Decoders, open: Opener, crc: Checksum, reader: JournalFiles.JournalReader)
    returns (r: Result<(seq<Heard>, ReplayReport), ReplayFailure>)
    requires Opens(open) && reader.nextFile <= |reader.files| && reader.pos <= |reader.data|
    modifies reader
    ensures var reading := old(JournalFiles.ReadAll(crc, reader.files, reader.View()));
            var q := ReplayFrom(dec, open, NOTHING_YET, reading.records);
            r == if q.Err? then Err(Inconsistent(q.error))
                 else if reading.end.Err? then Err(Unreadable(reading.end.error))
                 else Ok((q.value.heard, Tally(reading.records).(tornTail := reading.end.value)))
  {
    var books: MarketBooks? := null;
    var heard: seq<Heard>, report := [], NO_REPORT;
    ghost var p, done := NOTHING_YET, [];
    ghost var reading := JournalFiles.ReadAll(crc, reader.files, reader.View());
    while true
      invariant reader.nextFile <= |reader.files| && reader.pos <= |reader.data|
      invariant reading == JournalFiles.Prefixed(done, JournalFiles.ReadAll(crc, reader.files, reader.View()))
      invariant ReplayFrom(dec, open, NOTHING_YET, done) == Ok(p) && Sound(p) && p.heard == heard
                && report == Tally(done)
      invariant Holds(books, p) && (books != null ==> fresh(books))
      decreases |reader.files| - reader.nextFile, |reader.data| - reader.pos
    {
      ghost var c := reader.View();
      var next := reader.Next(crc);
      if next.Err? {
        assert done + [] == done;
        return Err(Unreadable(next.error));
      }
      if next.value.None? {
        assert done + [] == done;
        return Ok((heard, report.(tornTail := reader.tornTail)));
      }
      var record := next.value.value;
      ghost var rest := JournalFiles.ReadAll(crc, reader.files, reader.View());
      JournalFiles.ReadsOne(crc, reader.files, c, reader.View(), record);
      JournalFiles.PrefixedTwice(done, [record], rest);
      ReplayMore(dec, open, done, record);
      ghost var q := ReplayEntry(dec, open, p, record);
      done := done + [record];
      if q.Err? { ErrorEnds(dec, open, done, rest.records); }
      var more;
      books, more := TakeEntry(dec, open, books, record, p);
      if more.Err? {
        return Err(Inconsistent(more.error));
      }
      heard := heard + more.value;
      report := Count(report, record);
      p := q.value;
    }
  }
}
