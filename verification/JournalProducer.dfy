/** The hot-path side of the journal (crates/bowst-journal/src/journal.rs:139-211): records that do
    not fit in the ring are dropped and counted, and the next record that gets through is preceded by
    a gap record saying how many were lost.

    Whether the ring has room at each attempt is an input: it is the ring's answer, as the byte-ring
    protocol decides it. */
module JournalProducers {
  import opened Common
  import opened ByteCodec
  import opened JournalFormat

  /** `ring` is everything the ring has accepted, in order; `maxRecord` is the most it takes at once. */
  datatype ProducerState = ProducerState(ring: seq<seq<byte>>, pendingGap: u64, dropped: u64, maxRecord: nat)

  /** One call of `append`, with the ring's answers to its (at most two) attempts to write. */
  datatype Append = Append(record: JournalRecord, roomForGap: bool, roomForRecord: bool)

  function Drop(s: ProducerState): ProducerState {
    s.(pendingGap := SatAdd(s.pendingGap, 1), dropped := if s.dropped == U64_MAX then 0 else s.dropped + 1)
  }

  function GapRecord(at: RecordHeader, count: u64): JournalRecord {
    JournalRecord(at.(kind := GAP), ToLE(count, 8))
  }

  /** The record can never be accepted. */
  predicate NeverFits(s: ProducerState, r: JournalRecord) {
    |r.payload| > MAX_PAYLOAD || RECORD_HEADER_LEN + |r.payload| > s.maxRecord
  }

  function AppendOne(s: ProducerState, a: Append): (ProducerState, bool) {
    if NeverFits(s, a.record) then (Drop(s), false)
    else if s.pendingGap > 0 && !a.roomForGap then (Drop(s), false)
    else
      var s1 := if s.pendingGap > 0
                then s.(ring := s.ring + [Unsealed(GapRecord(a.record.header, s.pendingGap))], pendingGap := 0)
                else s;
      if !a.roomForRecord then (Drop(s1), false)
      else (s1.(ring := s1.ring + [Unsealed(a.record)]), true)
  }

  function NewProducer(maxRecord: nat): ProducerState {
    ProducerState([], 0, 0, maxRecord)
  }

  function Run(maxRecord: nat, calls: seq<Append>): ProducerState {
    var n := |calls|;
    if n == 0 then NewProducer(maxRecord) else AppendOne(Run(maxRecord, calls[..n - 1]), calls[n - 1]).0
  }

  // ---------------------------------------------------------------- what the journal says

  /** What a reader knows about one record appended: the record, or only that there was one. */
  datatype Entry = Known(record: seq<byte>) | Lost

  function Repeat(n: nat): (r: seq<Entry>)
    ensures |r| == n
  {
    seq(n, i => Lost)
  }

  /** One ring record: a gap record stands for as many lost records as it counts. */
  function Expand(record: seq<byte>): seq<Entry> {
    if IntAt(record, 0, 2) == GAP then Repeat(IntAt(record, RECORD_HEADER_LEN, 8)) else [Known(record)]
  }

  function ExpandAll(ring: seq<seq<byte>>): seq<Entry> {
    if ring == [] then [] else ExpandAll(ring[..|ring| - 1]) + Expand(ring[|ring| - 1])
  }

  /** What really happened: each record appended, known exactly if its call accepted it. */
  function Happened(maxRecord: nat, calls: seq<Append>): (r: seq<Entry>)
    ensures |r| == |calls|
  {
    var n := |calls|;
    if n == 0 then []
    else
      Happened(maxRecord, calls[..n - 1]) +
      [if AppendOne(Run(maxRecord, calls[..n - 1]), calls[n - 1]).1 then Known(Unsealed(calls[n - 1].record)) else Lost]
  }

  function CountLost(entries: seq<Entry>): nat {
    if entries == [] then 0 else CountLost(entries[..|entries| - 1]) + if entries[|entries| - 1].Lost? then 1 else 0
  }

  lemma HeaderFieldsOf(r: JournalRecord)
    requires |r.payload| <= MAX_PAYLOAD
    ensures IntAt(Unsealed(r), 0, 2) == r.header.kind
  {
    var rest: seq<byte> := [0, 0, 0, 0] + [0, 0, 0, 0] + r.payload;
    assert Unsealed(r) == HeaderFields(r.header, |r.payload|) + rest;
    FieldsReadBack(r.header, |r.payload|, rest);
  }

  /** A gap record reads back as the count it was written with; any other record as itself. */
  lemma GapExpands(at: RecordHeader, count: u64)
    ensures Expand(Unsealed(GapRecord(at, count))) == Repeat(count)
  {
    var g := GapRecord(at, count);
    HeaderFieldsOf(g);
    Widths();
    var head: seq<byte> := HeaderFields(g.header, 8) + [0, 0, 0, 0] + [0, 0, 0, 0];
    assert Unsealed(g) == head + ToLE(count, 8) + [];
    ReadsBack(head, count, 8, []);
  }

  lemma ExpandAppend(ring: seq<seq<byte>>, record: seq<byte>)
    ensures ExpandAll(ring + [record]) == ExpandAll(ring) + Expand(record)
  {
    assert (ring + [record])[..|ring|] == ring;
  }

  lemma {:induction false} CountLostSum(a: seq<Entry>, b: seq<Entry>)
    ensures CountLost(a + b) == CountLost(a) + CountLost(b)
  {
    if b == [] {
      assert a + b == a;
    } else {
      assert (a + b)[..|a + b| - 1] == a + b[..|b| - 1];
      CountLostSum(a, b[..|b| - 1]);
    }
  }

  /** The journal as written, followed by the drops not yet marked, tells the whole story so far. */
  ghost predicate Tells(s: ProducerState, story: seq<Entry>) {
    ExpandAll(s.ring) + Repeat(s.pendingGap) == story && s.dropped == CountLost(story)
  }

  lemma DropTells(s: ProducerState, story: seq<Entry>)
    requires Tells(s, story) && s.pendingGap < U64_MAX && s.dropped < U64_MAX
    ensures Tells(Drop(s), story + [Lost])
  {
    assert Repeat(s.pendingGap + 1) == Repeat(s.pendingGap) + [Lost];
    assert ExpandAll(s.ring) + (Repeat(s.pendingGap) + [Lost]) == (ExpandAll(s.ring) + Repeat(s.pendingGap)) + [Lost];
    CountLostSum(story, [Lost]);
  }

  lemma GapTells(s: ProducerState, story: seq<Entry>, at: RecordHeader)
    requires Tells(s, story)
    ensures Tells(s.(ring := s.ring + [Unsealed(GapRecord(at, s.pendingGap))], pendingGap := 0), story)
  {
    GapExpands(at, s.pendingGap);
    ExpandAppend(s.ring, Unsealed(GapRecord(at, s.pendingGap)));
    assert story + Repeat(0) == story;
  }

  lemma RecordTells(s: ProducerState, story: seq<Entry>, r: JournalRecord)
    requires Tells(s, story) && s.pendingGap == 0 && |r.payload| <= MAX_PAYLOAD && r.header.kind != GAP
    ensures Tells(s.(ring := s.ring + [Unsealed(r)]), story + [Known(Unsealed(r))])
  {
    HeaderFieldsOf(r);
    ExpandAppend(s.ring, Unsealed(r));
    assert ExpandAll(s.ring) + Repeat(0) == ExpandAll(s.ring);
    assert story + [Known(Unsealed(r))] + Repeat(0) == story + [Known(Unsealed(r))];
    CountLostSum(story, [Known(Unsealed(r))]);
  }

  lemma AppendTells(s: ProducerState, story: seq<Entry>, a: Append)
    requires Tells(s, story) && s.pendingGap < U64_MAX && s.dropped < U64_MAX && a.record.header.kind != GAP
    ensures var (s', accepted) := AppendOne(s, a);
            Tells(s', story + [if accepted then Known(Unsealed(a.record)) else Lost])
  {
    if NeverFits(s, a.record) || (s.pendingGap > 0 && !a.roomForGap) {
      DropTells(s, story);
    } else {
      var s1 := if s.pendingGap > 0
                then s.(ring := s.ring + [Unsealed(GapRecord(a.record.header, s.pendingGap))], pendingGap := 0)
                else s;
      if s.pendingGap > 0 { GapTells(s, story, a.record.header); }
      if a.roomForRecord { RecordTells(s1, story, a.record); } else { DropTells(s1, story); }
    }
  }

  lemma {:induction false} CountLostBound(entries: seq<Entry>)
    ensures CountLost(entries) <= |entries|
  {
    if entries != [] { CountLostBound(entries[..|entries| - 1]); }
  }

  /** Over every run of appends (none of gap records, and fewer than 2^64 of them): expanding each gap
      record in the ring into as many lost records as it counts, and adding those not yet marked,
      gives position by position what was appended, with a record lost exactly where its call said
      so; and `dropped` counts exactly the lost ones. */
  lemma {:induction false} DropsAccountedFor(maxRecord: nat, calls: seq<Append>)
    requires forall a :: a in calls ==> a.record.header.kind != GAP
    requires |calls| <= U64_MAX
    ensures var s := Run(maxRecord, calls);
            && ExpandAll(s.ring) + Repeat(s.pendingGap) == Happened(maxRecord, calls)
            && s.dropped == CountLost(Happened(maxRecord, calls))
  {
    var n := |calls|;
    if n > 0 {
      DropsAccountedFor(maxRecord, calls[..n - 1]);
      CountLostBound(Happened(maxRecord, calls[..n - 1]));
      assert calls[n - 1] in calls;
      AppendTells(Run(maxRecord, calls[..n - 1]), Happened(maxRecord, calls[..n - 1]), calls[n - 1]);
    }
  }

  // ---------------------------------------------------------------- which records get through

  /** The answer `append` gives at the `k`-th call of a run. */
  predicate Accepted(maxRecord: nat, calls: seq<Append>, k: nat)
    requires k < |calls|
  {
    AppendOne(Run(maxRecord, calls[..k]), calls[k]).1
  }

  /** A gap is pending exactly when the last record appended was dropped. */
  lemma PendingIff(maxRecord: nat, calls: seq<Append>)
    ensures Run(maxRecord, calls).maxRecord == maxRecord
    ensures Run(maxRecord, calls).pendingGap > 0 <==> calls != [] && !Accepted(maxRecord, calls, |calls| - 1)
  {
    if calls != [] { PendingIff(maxRecord, calls[..|calls| - 1]); }
  }

  /** In every run a record gets through exactly when its payload is within the format's limit, the whole
      record is within what the ring takes at once, the ring has room for it, and, if the record before
      it was dropped, has room for the gap marker too. */
  lemma AcceptedIff(maxRecord: nat, calls: seq<Append>, k: nat)
    requires k < |calls|
    ensures Accepted(maxRecord, calls, k) <==>
            && |calls[k].record.payload| <= MAX_PAYLOAD
            && RECORD_HEADER_LEN + |calls[k].record.payload| <= maxRecord
            && calls[k].roomForRecord
            && (k == 0 || Accepted(maxRecord, calls, k - 1) || calls[k].roomForGap)
  {
    PendingIff(maxRecord, calls[..k]);
    if k > 0 { assert calls[..k][..k - 1] == calls[..k - 1]; }
  }

  // ---------------------------------------------------------------- the producer itself

  function Concat(parts: seq<seq<byte>>): seq<byte> {
    if parts == [] then [] else Concat(parts[..|parts| - 1]) + parts[|parts| - 1]
  }

  class JournalProducer {
    const maxRecord: nat
    var ring: seq<seq<byte>>
    var pendingGap: u64
    var dropped: u64

    ghost function View(): ProducerState
      reads this
    {
      ProducerState(ring, pendingGap, dropped, maxRecord)
    }

    constructor (maxRecord: nat)
      ensures View() == NewProducer(maxRecord)
    {
      this.maxRecord := maxRecord;
      ring, pendingGap, dropped := [], 0, 0;
    }

    method DropRecord() returns (accepted: bool)
      modifies this`pendingGap, this`dropped
      ensures !accepted && View() == Drop(old(View()))
    {
      pendingGap := SatAdd(pendingGap, 1);
      dropped := if dropped == U64_MAX then 0 else dropped + 1;
      return false;
    }

    method WriteGap(at: RecordHeader, room: bool) returns (written: bool)
      modifies this`ring, this`pendingGap
      ensures written == room
      ensures View() == if room then old(View()).(ring := old(ring) + [Unsealed(GapRecord(at, old(pendingGap)))],
              pendingGap := 0)
                        else old(View())
    {
      if room {
        ring := ring + [Unsealed(JournalRecord(at.(kind := GAP), ToLE(pendingGap, 8)))];
        pendingGap := 0;
      }
      return room;
    }

    /** Appends a record whose payload is the parts one after the other, copied straight into place. */
    method AppendParts(header: RecordHeader, parts: seq<seq<byte>>, roomForGap: bool, roomForRecord: bool)
      returns (accepted: bool)
      modifies this
      ensures (View(), accepted) == AppendOne(old(View()),
              Append(JournalRecord(header, Concat(parts)), roomForGap, roomForRecord))
    {
      var payload: seq<byte> := [];
      var k := 0;
      while k < |parts|
        invariant 0 <= k <= |parts| && payload == Concat(parts[..k])
      {
        assert parts[..k + 1][..k] == parts[..k];
        payload := payload + parts[k];
        k := k + 1;
      }
      assert parts[..k] == parts;
      if |payload| > MAX_PAYLOAD || RECORD_HEADER_LEN + |payload| > maxRecord {
        accepted := DropRecord();
        return;
      }
      if pendingGap > 0 {
        var marked := WriteGap(header, roomForGap);
        if !marked {
          accepted := DropRecord();
          return;
        }
      }
      if !roomForRecord {
        accepted := DropRecord();
        return;
      }
      ring := ring + [Unsealed(JournalRecord(header, payload))];
      return true;
    }
  }
}
