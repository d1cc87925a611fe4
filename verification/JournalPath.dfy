/** The whole path of a journal: from the records a session appends, through the ring to the writer
    thread, over checksummed and rotated segments, back through the reader and into the replay. It
    composes the results about the producer, the byte ring, the files and the replay. */
module JournalPath {
  import opened Common
  import opened ByteCodec
  import opened JournalFormat
  import JournalFiles
  import JournalProducers
  import ByteRing
  import MdBooks
  import MdSessions
  import opened ReplayFiles

  type Append = JournalProducers.Append

  /** Every record is at least a header long. */
  predicate Headed(taken: seq<seq<byte>>) {
    forall i :: 0 <= i < |taken| ==> |taken[i]| >= RECORD_HEADER_LEN
  }

  /** Records as they lie in the ring. */
  function UnsealedAll(rs: seq<JournalRecord>): (bytes: seq<seq<byte>>)
    ensures |bytes| == |rs| && forall i :: 0 <= i < |rs| ==> bytes[i] == Unsealed(rs[i])
    ensures Headed(bytes)
  {
    seq(|rs|, i requires 0 <= i < |rs| => Unsealed(rs[i]))
  }

  /** The records a session appended. */
  function Appended(calls: seq<Append>): (rs: seq<JournalRecord>)
    ensures |rs| == |calls|
  {
    if calls == [] then [] else Appended(calls[..|calls| - 1]) + [calls[|calls| - 1].record]
  }

  // ---------------------------------------------------------------- what the ring was given

  /** The records one append puts into the ring. */
  function Added(s: JournalProducers.ProducerState, a: Append): seq<JournalRecord> {
    if JournalProducers.NeverFits(s, a.record) || (s.pendingGap > 0 && !a.roomForGap) then []
    else
      (if s.pendingGap > 0 then [JournalProducers.GapRecord(a.record.header, s.pendingGap)] else [])
      + (if a.roomForRecord then [a.record] else [])
  }

  /** All records put into the ring, gap records included. */
  function InRing(maxRecord: nat, calls: seq<Append>): seq<JournalRecord> {
    var n := |calls|;
    if n == 0 then []
    else InRing(maxRecord, calls[..n - 1]) + Added(JournalProducers.Run(maxRecord, calls[..n - 1]), calls[n - 1])
  }

  lemma UnsealedAppend(a: seq<JournalRecord>, b: seq<JournalRecord>)
    ensures UnsealedAll(a + b) == UnsealedAll(a) + UnsealedAll(b)
  {
  }

  lemma AddedIs(s: JournalProducers.ProducerState, a: Append)
    ensures JournalProducers.AppendOne(s, a).0.ring == s.ring + UnsealedAll(Added(s, a))
    ensures JournalFiles.AllLegal(Added(s, a))
  {
    var gap := JournalProducers.GapRecord(a.record.header, s.pendingGap);
    assert UnsealedAll([gap, a.record]) == [Unsealed(gap)] + [Unsealed(a.record)];
    assert UnsealedAll([gap]) == [Unsealed(gap)] && UnsealedAll([a.record]) == [Unsealed(a.record)];
    assert [gap] + [a.record] == [gap, a.record] && [gap] + [] == [gap] && [] + [a.record] == [a.record];
  }

  lemma {:induction false} InRingIs(maxRecord: nat, calls: seq<Append>)
    ensures JournalProducers.Run(maxRecord, calls).ring == UnsealedAll(InRing(maxRecord, calls))
    ensures JournalFiles.AllLegal(InRing(maxRecord, calls))
  {
    var n := |calls|;
    if n > 0 {
      InRingIs(maxRecord, calls[..n - 1]);
      var s := JournalProducers.Run(maxRecord, calls[..n - 1]);
      AddedIs(s, calls[n - 1]);
      UnsealedAppend(InRing(maxRecord, calls[..n - 1]), Added(s, calls[n - 1]));
    }
  }

  /** How many records the gap records among `rs` stand for. */
  function GapSum(rs: seq<JournalRecord>): nat {
    if rs == [] then 0 else GapSum(rs[..|rs| - 1]) + GapOf(rs[|rs| - 1])
  }

  function GapOf(r: JournalRecord): u64 {
    if r.header.kind != GAP || |r.payload| < 8 then 0 else GapCount(r.payload)
  }

  lemma {:induction false} GapSumAppend(a: seq<JournalRecord>, b: seq<JournalRecord>)
    ensures GapSum(a + b) == GapSum(a) + GapSum(b)
    decreases |b|
  {
    if b == [] {
      assert a + b == a;
    } else {
      GapSumAppend(a, b[..|b| - 1]);
      assert (a + b)[..|a + b| - 1] == a + b[..|b| - 1];
    }
  }

  lemma GapReadsBack(at: RecordHeader, count: u64)
    ensures GapOf(JournalProducers.GapRecord(at, count)) == count
  {
    Widths();
    LERoundTrip(count, 8);
    assert ToLE(count, 8)[..8] == ToLE(count, 8);
  }

  lemma GapSumOne(r: JournalRecord)
    ensures GapSum([r]) == GapOf(r)
  {
    assert [r][..0] == [];
  }

  lemma AddedGap(s: JournalProducers.ProducerState, a: Append)
    requires a.record.header.kind != GAP
    ensures GapSum(Added(s, a)) == if Added(s, a) == [] || s.pendingGap == 0 then 0 else s.pendingGap
  {
    var gap := JournalProducers.GapRecord(a.record.header, s.pendingGap);
    GapReadsBack(a.record.header, s.pendingGap);
    GapSumOne(gap);
    GapSumOne(a.record);
    GapSumAppend([gap], [a.record]);
    GapSumAppend([gap], []);
    GapSumAppend([], [a.record]);
  }

  /** One append: what it reports as lost, keeps pending and drops adds up. */
  lemma AppendAccounts(s: JournalProducers.ProducerState, a: Append)
    requires a.record.header.kind != GAP && s.pendingGap < U64_MAX && s.dropped < U64_MAX
    ensures var s' := JournalProducers.AppendOne(s, a).0;
            && GapSum(Added(s, a)) + s'.pendingGap - s.pendingGap == s'.dropped - s.dropped
            && s.dropped <= s'.dropped <= s.dropped + 1
            && (s'.dropped == 0 && s.pendingGap == 0 ==> Added(s, a) == [a.record])
  {
    AddedGap(s, a);
    assert [] + [a.record] == [a.record];
  }

  /** The gap records in the ring and the pending gap account for every record dropped; with nothing
      dropped the ring was given exactly the records appended. */
  lemma {:induction false} RingAccounts(maxRecord: nat, calls: seq<Append>)
    requires |calls| <= U64_MAX && forall i :: 0 <= i < |calls| ==> calls[i].record.header.kind != GAP
    ensures var s := JournalProducers.Run(maxRecord, calls);
            && GapSum(InRing(maxRecord, calls)) + s.pendingGap == s.dropped <= |calls|
            && (s.dropped == 0 ==> InRing(maxRecord, calls) == Appended(calls))
  {
    var n := |calls|;
    if n > 0 {
      RingAccounts(maxRecord, calls[..n - 1]);
      var s := JournalProducers.Run(maxRecord, calls[..n - 1]);
      AppendAccounts(s, calls[n - 1]);
      GapSumAppend(InRing(maxRecord, calls[..n - 1]), Added(s, calls[n - 1]));
    }
  }

  // ---------------------------------------------------------------- what the writer thread writes

  /** What the writer thread makes of the records it takes from the ring. */
  function SinkFeed(crc: Checksum, limit: nat, clock: nat -> u64, taken: seq<seq<byte>>): JournalFiles.SinkState
    requires Headed(taken)
  {
    var n := |taken|;
    if n == 0 then JournalFiles.SinkState([], EncodeFileHeader(0, clock(0)), 0)
    else JournalFiles.SinkWrite(crc, limit, SinkFeed(crc, limit, clock, taken[..n - 1]), taken[n - 1], clock(n))
  }

  /** The next record taken. */
  lemma FeedNext(crc: Checksum, limit: nat, clock: nat -> u64, taken: seq<seq<byte>>, b: seq<byte>)
    requires Headed(taken) && |b| >= RECORD_HEADER_LEN
    ensures Headed(taken + [b])
    ensures SinkFeed(crc, limit, clock, taken + [b])
         == JournalFiles.SinkWrite(crc, limit, SinkFeed(crc, limit, clock, taken), b, clock(|taken| + 1))
  {
    assert (taken + [b])[..|taken|] == taken;
  }

  lemma {:induction false} FeedIsRun(crc: Checksum, limit: nat, clock: nat -> u64, rs: seq<JournalRecord>)
    ensures SinkFeed(crc, limit, clock, UnsealedAll(rs)) == JournalFiles.SinkRun(crc, limit, clock, rs)
    decreases |rs|
  {
    var n := |rs|;
    if n > 0 {
      FeedIsRun(crc, limit, clock, rs[..n - 1]);
      UnsealedLast(rs);
      FeedNext(crc, limit, clock, UnsealedAll(rs[..n - 1]), Unsealed(rs[n - 1]));
    }
  }

  lemma UnsealedLast(rs: seq<JournalRecord>)
    requires rs != []
    ensures UnsealedAll(rs) == UnsealedAll(rs[..|rs| - 1]) + [Unsealed(rs[|rs| - 1])]
  {
  }

  lemma UnsealedFirst(rs: seq<JournalRecord>, n: nat)
    requires n <= |rs|
    ensures UnsealedAll(rs)[..n] == UnsealedAll(rs[..n])
  {
  }

  lemma LegalFirst(rs: seq<JournalRecord>, n: nat)
    requires JournalFiles.AllLegal(rs) && n <= |rs|
    ensures JournalFiles.AllLegal(rs[..n])
  {
  }

  lemma PrefixIs(taken: seq<seq<byte>>, rs: seq<JournalRecord>)
    requires taken <= UnsealedAll(rs)
    ensures |taken| <= |rs| && Headed(taken) && taken == UnsealedAll(rs[..|taken|])
  {
    UnsealedFirst(rs, |taken|);
    assert taken == UnsealedAll(rs)[..|taken|];
  }

  /** What is read from the files of all that was taken from the ring. */
  function ReadBack(crc: Checksum, limit: nat, clock: nat -> u64, taken: seq<seq<byte>>): JournalFiles.Reading
    requires Headed(taken)
  {
    var sink := SinkFeed(crc, limit, clock, taken);
    JournalFiles.ReadAll(crc, sink.closed + [sink.current], JournalFiles.START)
  }

  lemma ReadsBack(rs: seq<JournalRecord>, crc: Checksum, limit: nat, clock: nat -> u64)
    requires JournalFiles.AllLegal(rs)
    ensures ReadBack(crc, limit, clock, UnsealedAll(rs)) == JournalFiles.Reading(rs, Ok(false))
  {
    FeedIsRun(crc, limit, clock, rs);
    JournalFiles.JournalRoundTrip(crc, limit, clock, rs);
  }

  /** Whatever the writer thread has taken from the ring, in any interleaving with the producer, is on
      disk as the first of the records put in, and a reader gets them back. */
  lemma TakenReadsBack(r: ByteRing.Ring, rs: seq<JournalRecord>, crc: Checksum, limit: nat, clock: nat -> u64)
    requires ByteRing.Reachable(r) && r.written == UnsealedAll(rs) && JournalFiles.AllLegal(rs)
    ensures |r.consumed| <= |rs| && Headed(r.consumed)
    ensures ReadBack(crc, limit, clock, r.consumed) == JournalFiles.Reading(rs[..|r.consumed|], Ok(false))
  {
    ByteRing.ReadIsPrefixOfWritten(r);
    PrefixIs(r.consumed, rs);
    LegalFirst(rs, |r.consumed|);
    ReadsBack(rs[..|r.consumed|], crc, limit, clock);
  }

  // ---------------------------------------------------------------- what the replay makes of it

  /** The replay counts what the gap records stand for. */
  lemma {:induction false} ReplayCountsGaps(dec: MdBooks.Decoders, open: Opener, p: Progress, rs: seq<JournalRecord>)
    requires Opens(open) && Sound(p) && p.dropped + GapSum(rs) <= U64_MAX
    requires ReplayFrom(dec, open, p, rs).Ok?
    ensures ReplayFrom(dec, open, p, rs).value.dropped == p.dropped + GapSum(rs)
  {
    if rs != [] {
      ReplayCountsGaps(dec, open, p, rs[..|rs| - 1]);
    }
  }

  /** The appends are session records, not gap records, and fewer than the counters can hold. */
  predicate Countable(calls: seq<Append>) {
    |calls| <= U64_MAX && forall i :: 0 <= i < |calls| ==> calls[i].record.header.kind != GAP
  }

  /** Once the writer thread has drained the ring, the files hold everything put into it. */
  lemma DrainedReadsBack(maxRecord: nat, calls: seq<Append>, r: ByteRing.Ring, crc: Checksum, limit: nat,
                         clock: nat -> u64)
    requires ByteRing.Reachable(r) && r.written == JournalProducers.Run(maxRecord, calls).ring
             && r.consumed == r.written
    ensures Headed(r.consumed)
    ensures ReadBack(crc, limit, clock, r.consumed) == JournalFiles.Reading(InRing(maxRecord, calls), Ok(false))
  {
    var rs := InRing(maxRecord, calls);
    InRingIs(maxRecord, calls);
    TakenReadsBack(r, rs, crc, limit, clock);
    WholePrefix(rs, |r.consumed|);
  }

  lemma WholePrefix(rs: seq<JournalRecord>, n: nat)
    requires n == |rs|
    ensures rs[..n] == rs
  {
  }

  /** The replay counts, with what was still to be reported, exactly the records that were dropped. */
  lemma ReplayAccounts(dec: MdBooks.Decoders, open: Opener, maxRecord: nat, calls: seq<Append>)
    requires Opens(open) && Countable(calls)
    ensures var s := JournalProducers.Run(maxRecord, calls);
            var q := ReplayFrom(dec, open, NOTHING_YET, InRing(maxRecord, calls));
            q.Ok? ==> q.value.dropped + s.pendingGap == s.dropped
  {
    RingAccounts(maxRecord, calls);
    if ReplayFrom(dec, open, NOTHING_YET, InRing(maxRecord, calls)).Ok? {
      ReplayCountsGaps(dec, open, NOTHING_YET, InRing(maxRecord, calls));
    }
  }

  /** From live sessions to disk and back, once the writer thread has drained the ring: however the
      appends and the drain interleave, whatever the segments' limit and the checksum, reading the
      files ends without an error or a torn tail. The replay of what was read counts, with what was
      still to be reported, exactly the records that were dropped. If none were, it succeeds, and it
      reports what the sessions reported if and only if every session is exact. */
  lemma JournaledSessionsReplay(dec: MdBooks.Decoders, cfg: MdSessions.SessionConfig, open: Opener,
                                ls: seq<LiveSession>, maxRecord: nat, calls: seq<Append>, r: ByteRing.Ring,
                                crc: Checksum, limit: nat, clock: nat -> u64)
    requires AllReplayable(dec, cfg, open, ls) && Appended(calls) == AllRecords(dec, cfg, open, ls) && Countable(calls)
    requires ByteRing.Reachable(r) && r.written == JournalProducers.Run(maxRecord, calls).ring
             && r.consumed == r.written
    ensures Headed(r.consumed)
    ensures var s, reading := JournalProducers.Run(maxRecord, calls), ReadBack(crc, limit, clock, r.consumed);
            var q := ReplayFrom(dec, open, NOTHING_YET, reading.records);
            && reading.end == Ok(false)
            && (q.Ok? ==> q.value.dropped + s.pendingGap == s.dropped)
            && (s.dropped == 0 ==>
                  q.Ok? && (q.value.heard == AllHeard(dec, cfg, open, ls) <==> AllExact(dec, cfg, open, ls)))
  {
    DrainedReadsBack(maxRecord, calls, r, crc, limit, clock);
    ReplayAccounts(dec, open, maxRecord, calls);
    RingAccounts(maxRecord, calls);
    SessionsReplayIff(dec, cfg, open, ls);
  }
}
