/** The single-producer/single-consumer ring of byte records (crates/bowst-core/src/bytes_ring.rs)
    as a protocol: one writer and one reader whose accesses to shared memory interleave in every
    possible way.

    A record never straddles the end of the buffer: one that would is written at index 0, after a
    wrap marker. Stored positions wrap modulo the machine word; the positions `headAt` and
    `tailAt`, which only the model keeps, do not. */
module ByteRing {
  import opened Common
  import opened Remainders
  import opened ByteCodec

  const HEADER: nat := 8
  const WRAP: nat := 0xFFFF_FFFF
  const MIN_CAPACITY: nat := 64
  const MAX_CAPACITY: nat := 0x8000_0000
  const WORD: int := TWO_64

  /** A length rounded up to the record alignment. */
  function Padded(len: nat): (r: nat)
    ensures len <= r < len + 8 && r % 8 == 0
  {
    (len + 7) / 8 * 8
  }

  /** Capacities `channel` accepts: powers of two in range. */
  ghost predicate ValidCapacity(capacity: int) {
    MIN_CAPACITY <= capacity <= MAX_CAPACITY && PowerOfTwo(capacity)
  }

  lemma CapacityAligned(capacity: int)
    requires ValidCapacity(capacity)
    ensures capacity % 16 == 0
  {
    assert Pow2(4) == 16;
    Pow2Multiple(capacity, 4);
  }

  function MaxRecord(capacity: nat): nat {
    if capacity / 2 >= HEADER then capacity / 2 - HEADER else 0
  }

  function RecordSize(payload: seq<byte>): nat {
    HEADER + Padded(|payload|)
  }

  /** Where a record of `size` bytes goes when the write position is at `index`: the bytes skipped
      to reach index 0, if it would run past the end. */
  function Skip(capacity: nat, index: nat, size: nat): nat
    requires index < capacity
  {
    if size > capacity - index then capacity - index else 0
  }

  datatype WriterAt =
    | WriterIdle
    | MustLoadHead(record: seq<byte>)
    | MayWriteMarker(record: seq<byte>)
    | MayWritePayload(record: seq<byte>)
    | MayWriteHeader(record: seq<byte>)
    | MustPublish(record: seq<byte>)

  datatype ReaderAt =
    | ReaderIdle
    | MustLoadTail(round: nat)
    | MayReadHeader(round: nat)
    | MustSkip(round: nat)
    | MayReadPayload(len: nat)
    | MustRelease(record: seq<byte>)

  datatype WriteResult = Written | RingFull | TooLarge

  /** An unread record, and the bytes skipped before it (zero once the reader has passed them). */
  datatype Entry = Entry(pad: nat, payload: seq<byte>)

  /** `head` and `tail` are the shared positions; `writeTail`, `cachedHead` belong to the writer and
      `readHead`, `cachedTail` to the reader. The rest is ghost bookkeeping: what has been written
      and read, the unread entries, the true positions, the head the writer last saw, and how many
      of the unread entries lie before the tail the reader last saw. `broken` records a bounds
      check that failed, which stops the program. */
  datatype Ring = Ring(
    buf: seq<byte>, head: int, tail: int,
    writeTail: int, cachedHead: int, writer: WriterAt, lastWrite: WriteResult,
    readHead: int, cachedTail: int, reader: ReaderAt, lastRead: Option<seq<byte>>, broken: bool,
    written: seq<seq<byte>>, consumed: seq<seq<byte>>, queue: seq<Entry>,
    headAt: nat, tailAt: nat, seenHead: nat, visible: nat)

  datatype Turn = Writer(record: seq<byte>) | Reader

  function Index(r: Ring, position: int): (i: int)
    requires 0 < |r.buf|
    ensures 0 <= i < |r.buf|
  {
    position % |r.buf|
  }

  /** `bytes` written into the buffer at index `i`. */
  function Put(buf: seq<byte>, i: nat, bytes: seq<byte>): seq<byte>
    requires i + |bytes| <= |buf|
  {
    buf[..i] + bytes + buf[i + |bytes|..]
  }

  function PutChecked(r: Ring, i: nat, bytes: seq<byte>, next: WriterAt): Ring {
    if i + |bytes| > |r.buf| then r.(broken := true)
    else r.(buf := Put(r.buf, i, bytes), writer := next)
  }

  /** The bytes to skip before `record` at the current write position. */
  function SkipFor(r: Ring, record: seq<byte>): nat
    requires 0 < |r.buf|
  {
    Skip(|r.buf|, Index(r, r.writeTail), RecordSize(record))
  }

  function Needed(r: Ring, record: seq<byte>): nat
    requires 0 < |r.buf|
  {
    SkipFor(r, record) + RecordSize(record)
  }

  predicate NoRoom(r: Ring, cached: int, record: seq<byte>)
    requires 0 < |r.buf|
  {
    |r.buf| - (r.writeTail - cached) % WORD < Needed(r, record)
  }

  /** Where the record itself starts. */
  function StartOf(r: Ring, record: seq<byte>): nat
    requires 0 < |r.buf|
  {
    if SkipFor(r, record) > 0 then 0 else Index(r, r.writeTail)
  }

  function BeginWriting(r: Ring, record: seq<byte>): Ring
    requires 0 < |r.buf|
  {
    r.(writer := if SkipFor(r, record) > 0 then MayWriteMarker(record) else MayWritePayload(record))
  }

  function Publish(r: Ring, p: seq<byte>): Ring
    requires 0 < |r.buf|
  {
    var moved := (r.writeTail + Needed(r, p)) % WORD;
    r.(writeTail := moved, tail := moved, writer := WriterIdle, lastWrite := Written,
       written := r.written + [p], queue := r.queue + [Entry(SkipFor(r, p), p)],
       tailAt := r.tailAt + Needed(r, p))
  }

  /** `ByteProducer::write_with`, one shared access at a time. */
  function WriterStep(r: Ring, record: seq<byte>): Ring
    requires 0 < |r.buf|
  {
    match r.writer
    case WriterIdle =>
      if |record| > MaxRecord(|r.buf|) then r.(lastWrite := TooLarge)
      else if NoRoom(r, r.cachedHead, record) then r.(writer := MustLoadHead(record))
      else BeginWriting(r, record)
    case MustLoadHead(p) =>
      var r' := r.(cachedHead := r.head, seenHead := r.headAt);
      if NoRoom(r', r'.cachedHead, p) then r'.(writer := WriterIdle, lastWrite := RingFull)
      else BeginWriting(r', p)
    case MayWriteMarker(p) => PutChecked(r, Index(r, r.writeTail), ToLE(WRAP, 4), MayWritePayload(p))
    case MayWritePayload(p) => PutChecked(r, StartOf(r, p) + HEADER, p, MayWriteHeader(p))
    case MayWriteHeader(p) => PutChecked(r, StartOf(r, p), ToLE(|p|, 4), MustPublish(p))
    case MustPublish(p) => Publish(r, p)
  }

  function Release(r: Ring, p: seq<byte>): Ring {
    var moved := (r.readHead + RecordSize(p)) % WORD;
    r.(readHead := moved, head := moved, reader := ReaderIdle, lastRead := Some(p),
       consumed := r.consumed + [p], headAt := r.headAt + RecordSize(p),
       queue := if r.queue == [] then [] else r.queue[1..],
       visible := if r.visible == 0 then 0 else r.visible - 1)
  }

  /** The top of the loop of `read_with`. */
  function BeginRound(r: Ring, round: nat): Ring {
    r.(reader := if r.readHead == r.cachedTail then MustLoadTail(round) else MayReadHeader(round))
  }

  /** `ByteConsumer::read_with`, one shared access at a time. */
  function ReaderStep(r: Ring): Ring
    requires 0 < |r.buf|
  {
    var i := Index(r, r.readHead);
    match r.reader
    case ReaderIdle => BeginRound(r, 1)
    case MustLoadTail(round) =>
      var r' := r.(cachedTail := r.tail, visible := |r.queue|);
      if r'.readHead == r'.cachedTail then r'.(reader := ReaderIdle, lastRead := None)
      else r'.(reader := MayReadHeader(round))
    case MayReadHeader(round) =>
      if i + 4 > |r.buf| then r.(broken := true)
      else
        var len := FromLE(r.buf[i..i + 4]);
        r.(reader := if len == WRAP then MustSkip(round) else MayReadPayload(len))
    case MustSkip(round) =>
      var moved := (r.readHead + (|r.buf| - i)) % WORD;
      BeginRound(r.(readHead := moved, head := moved, headAt := r.headAt + (|r.buf| - i),
                    queue := if r.queue == [] then [] else [r.queue[0].(pad := 0)] + r.queue[1..]),
                 round + 1)
    case MayReadPayload(len) =>
      if i + HEADER + len > |r.buf| then r.(broken := true)
      else r.(reader := MustRelease(r.buf[i + HEADER..i + HEADER + len]))
    case MustRelease(p) => Release(r, p)
  }

  function Step(r: Ring, turn: Turn): (r': Ring)
    requires 0 < |r.buf|
    ensures |r'.buf| == |r.buf|
  {
    match turn
    case Writer(record) => WriterStep(r, record)
    case Reader => ReaderStep(r)
  }

  function New(capacity: nat): Ring {
    Ring(seq(capacity, i => 0), 0, 0, 0, 0, WriterIdle, Written, 0, 0, ReaderIdle, None, false,
         [], [], [], 0, 0, 0, 0)
  }

  function Run(r: Ring, turns: seq<Turn>): (r': Ring)
    requires 0 < |r.buf|
    ensures |r'.buf| == |r.buf|
  {
    var n := |turns|;
    if n == 0 then r else Step(Run(r, turns[..n - 1]), turns[n - 1])
  }

  // ---------------------------------------------------------------- what the buffer holds

  /** The record `payload` lies whole at index `i`. */
  ghost predicate RecordAt(buf: seq<byte>, i: nat, payload: seq<byte>) {
    && |payload| <= MaxRecord(|buf|)
    && i + RecordSize(payload) <= |buf|
    && buf[i..i + 4] == ToLE(|payload|, 4)
    && buf[i + HEADER..i + HEADER + |payload|] == payload
  }

  /** The entry lies at position `pos`: directly, or at index 0 after a wrap marker. */
  ghost predicate EntryAt(buf: seq<byte>, pos: nat, e: Entry)
    requires 0 < |buf|
  {
    var i := pos % |buf|;
    if e.pad == 0 then RecordAt(buf, i, e.payload)
    else e.pad == |buf| - i && i + 4 <= |buf| && buf[i..i + 4] == ToLE(WRAP, 4) && RecordAt(buf, 0, e.payload)
  }

  function Size(e: Entry): nat {
    e.pad + RecordSize(e.payload)
  }

  function Sizes(queue: seq<Entry>): nat {
    if queue == [] then 0 else Size(queue[0]) + Sizes(queue[1..])
  }

  function Payloads(queue: seq<Entry>): (r: seq<seq<byte>>)
    ensures |r| == |queue|
  {
    if queue == [] then [] else [queue[0].payload] + Payloads(queue[1..])
  }

  /** The entries lie one after the other from position `pos` on. */
  ghost predicate Layout(buf: seq<byte>, pos: nat, queue: seq<Entry>)
    requires 0 < |buf|
    decreases |queue|
  {
    queue == [] || (EntryAt(buf, pos, queue[0]) && Layout(buf, pos + Size(queue[0]), queue[1..]))
  }

  lemma {:induction false} AppendEntry(buf: seq<byte>, pos: nat, queue: seq<Entry>, e: Entry)
    requires 0 < |buf| && Layout(buf, pos, queue) && EntryAt(buf, pos + Sizes(queue), e)
    ensures Layout(buf, pos, queue + [e])
    ensures Sizes(queue + [e]) == Sizes(queue) + Size(e)
    ensures Payloads(queue + [e]) == Payloads(queue) + [e.payload]
    decreases |queue|
  {
    if queue == [] {
      assert queue + [e] == [e];
    } else {
      AppendEntry(buf, pos + Size(queue[0]), queue[1..], e);
      assert (queue + [e])[1..] == queue[1..] + [e];
    }
  }

  /** Both buffers hold the same bytes from position `from` up to `to`. */
  ghost predicate Same(a: seq<byte>, b: seq<byte>, from: int, to: int)
    requires 0 < |a| == |b|
  {
    forall v :: from <= v < to ==> a[v % |a|] == b[v % |a|]
  }

  lemma NoStraddle(pos: nat, k: nat, n: nat)
    requires 0 < n && pos % n + k < n
    ensures (pos + k) % n == pos % n + k
  {
    assert pos + k == n * (pos / n) + (pos % n + k);
    AddMultiple(pos % n + k, pos / n, n);
    Small(pos % n + k, n);
  }

  lemma SameSlice(a: seq<byte>, b: seq<byte>, pos: nat, off: nat, len: nat)
    requires 0 < |a| == |b| && pos % |a| + off + len <= |a|
    requires Same(a, b, pos + off, pos + off + len)
    ensures var i := pos % |a| + off; a[i..i + len] == b[i..i + len]
  {
    var i := pos % |a| + off;
    var x, y := a[i..i + len], b[i..i + len];
    forall k | 0 <= k < len ensures x[k] == y[k] {
      NoStraddle(pos, off + k, |a|);
      assert a[(pos + off + k) % |a|] == b[(pos + off + k) % |a|];
    }
  }

  lemma SameRecord(a: seq<byte>, b: seq<byte>, pos: nat, payload: seq<byte>)
    requires 0 < |a| == |b| && RecordAt(a, pos % |a|, payload)
    requires Same(a, b, pos, pos + RecordSize(payload))
    ensures RecordAt(b, pos % |a|, payload)
  {
    SameSlice(a, b, pos, 0, 4);
    SameSlice(a, b, pos, HEADER, |payload|);
  }

  lemma WrapsToZero(pos: nat, n: nat)
    requires 0 < n
    ensures (pos + (n - pos % n)) % n == 0
  {
    assert pos + (n - pos % n) == n * (pos / n + 1) + 0;
    AddMultiple(0, pos / n + 1, n);
  }

  lemma SameEntry(a: seq<byte>, b: seq<byte>, pos: nat, e: Entry)
    requires 0 < |a| == |b| && EntryAt(a, pos, e) && Same(a, b, pos, pos + Size(e))
    ensures EntryAt(b, pos, e)
  {
    if e.pad > 0 {
      SameSlice(a, b, pos, 0, 4);
      WrapsToZero(pos, |a|);
    }
    SameRecord(a, b, pos + e.pad, e.payload);
  }

  lemma {:induction false} SameLayout(a: seq<byte>, b: seq<byte>, pos: nat, queue: seq<Entry>)
    requires 0 < |a| == |b| && Layout(a, pos, queue) && Same(a, b, pos, pos + Sizes(queue))
    ensures Layout(b, pos, queue)
    decreases |queue|
  {
    if queue != [] {
      SameEntry(a, b, pos, queue[0]);
      SameLayout(a, b, pos + Size(queue[0]), queue[1..]);
    }
  }

  /** Writing a stretch of free positions leaves every readable byte as it was. */
  lemma PutElsewhere(buf: seq<byte>, head: nat, tail: nat, w: nat, i: nat, bytes: seq<byte>)
    requires 0 < |buf| && head <= tail <= w && w + |bytes| <= head + |buf|
    requires i == w % |buf| && i + |bytes| <= |buf|
    ensures Same(buf, Put(buf, i, bytes), head, tail)
  {
    var n := |buf|;
    forall v | head <= v < tail ensures buf[v % n] == Put(buf, i, bytes)[v % n] {
      var j := v % n;
      if i <= j < i + |bytes| {
        NoStraddle(w, j - i, n);
        Apart(v, w + (j - i), n);
      }
    }
  }

  // ---------------------------------------------------------------- the invariant

  ghost predicate Positions(r: Ring) {
    && ValidCapacity(|r.buf|)
    && r.seenHead <= r.headAt && r.tailAt <= r.seenHead + |r.buf|
    && r.headAt % 8 == 0 && r.tailAt % 8 == 0
    && r.tailAt == r.headAt + Sizes(r.queue)
    && r.visible <= |r.queue|
    && r.tail == r.writeTail == r.tailAt % WORD
    && r.head == r.readHead == r.headAt % WORD
    && r.cachedHead == r.seenHead % WORD
    && r.cachedTail == (r.headAt + Sizes(r.queue[..r.visible])) % WORD
  }

  ghost predicate Contents(r: Ring)
    requires 0 < |r.buf|
  {
    && r.written == r.consumed + Payloads(r.queue)
    && Layout(r.buf, r.headAt, r.queue)
  }

  /** The parts of a record already written: the wrap marker at `i` if bytes are skipped, the
      payload and the length of the record at `start`. */
  ghost predicate Parts(buf: seq<byte>, i: nat, start: nat, skips: bool, p: seq<byte>, marked: bool,
                        filled: bool, headed: bool) {
    && i + 4 <= |buf| && start + RecordSize(p) <= |buf|
    && (skips ==> start + RecordSize(p) <= i)
    && (marked && skips ==> buf[i..i + 4] == ToLE(WRAP, 4))
    && (filled ==> buf[start + HEADER..start + HEADER + |p|] == p)
    && (headed ==> buf[start..start + 4] == ToLE(|p|, 4))
  }

  /** The record being written fits in the free positions, and the parts already written are there. */
  ghost predicate WritingIn(r: Ring, p: seq<byte>, marked: bool, filled: bool, headed: bool)
    requires 0 < |r.buf|
  {
    && |p| <= MaxRecord(|r.buf|)
    && r.tailAt + Needed(r, p) <= r.seenHead + |r.buf|
    && Parts(r.buf, Index(r, r.writeTail), StartOf(r, p), SkipFor(r, p) > 0, p, marked, filled, headed)
  }

  ghost predicate WriterAgrees(r: Ring)
    requires 0 < |r.buf|
  {
    match r.writer
    case WriterIdle => true
    case MustLoadHead(p) => |p| <= MaxRecord(|r.buf|)
    case MayWriteMarker(p) => SkipFor(r, p) > 0 && WritingIn(r, p, false, false, false)
    case MayWritePayload(p) => WritingIn(r, p, true, false, false)
    case MayWriteHeader(p) => WritingIn(r, p, true, true, false)
    case MustPublish(p) => WritingIn(r, p, true, true, true)
  }

  ghost predicate ReaderAgrees(r: Ring) {
    match r.reader
    case ReaderIdle => true
    case MustLoadTail(round) => round == 1 && r.visible == 0
    case MayReadHeader(round) =>
      0 < r.visible <= |r.queue| && 1 <= round <= 2 && (round == 2 ==> r.queue[0].pad == 0)
    case MustSkip(round) => 0 < r.visible <= |r.queue| && round == 1 && r.queue[0].pad > 0
    case MayReadPayload(len) => 0 < r.visible <= |r.queue| && r.queue[0].pad == 0 && len == |r.queue[0].payload|
    case MustRelease(p) => 0 < r.visible <= |r.queue| && r.queue[0] == Entry(0, p)
  }

  ghost predicate RingInv(r: Ring) {
    Positions(r) && Contents(r) && WriterAgrees(r) && ReaderAgrees(r) && !r.broken
  }

  /** What a writer in the middle of a record relies on. */
  lemma WriterUnmoved(r: Ring, r': Ring)
    requires 0 < |r.buf| && WriterAgrees(r) && r'.writer == r.writer && r'.buf == r.buf
    requires r'.writeTail == r.writeTail && r'.tailAt == r.tailAt && r'.seenHead == r.seenHead
    ensures WriterAgrees(r')
  {
  }

  /** What a reader in the middle of a record relies on. */
  lemma ReaderUnmoved(r: Ring, r': Ring)
    requires ReaderAgrees(r) && r'.reader == r.reader && r'.visible == r.visible
    requires |r.queue| <= |r'.queue| && (r.queue != [] ==> r'.queue[0] == r.queue[0])
    ensures ReaderAgrees(r')
  {
  }

  // ---------------------------------------------------------------- the writer

  lemma Aligned(pos: nat, n: nat)
    requires 0 < n && n % 16 == 0 && pos % 8 == 0
    ensures (pos % n) % 8 == 0 && pos % n + 8 <= n
  {
    assert n % 8 == 0;
    Wrapped(pos, n, 8);
  }

  lemma WriteIndex(r: Ring)
    requires Positions(r)
    ensures Index(r, r.writeTail) == r.tailAt % |r.buf|
    ensures Index(r, r.writeTail) % 8 == 0 && Index(r, r.writeTail) + 8 <= |r.buf|
  {
    CapacityAligned(|r.buf|);
    WordWrapped(r.tailAt, |r.buf|);
    Aligned(r.tailAt, |r.buf|);
  }

  lemma PlacementAt(index: nat, n: nat, size: nat)
    requires n % 16 == 0 && index % 8 == 0 && index < n && size % 8 == 0 && size <= n / 2
    ensures var skip := Skip(n, index, size);
            && skip + size < n && (skip + size) % 8 == 0
            && (if skip > 0 then skip == n - index else index + size <= n)
  {
    var a, b, c := n / 16, index / 8, size / 8;
    assert n == 16 * a && index == 8 * b && size == 8 * c;
    var skip := Skip(n, index, size);
    assert skip + size == 8 * (if skip > 0 then 2 * a - b + c else c);
  }

  /** Wherever the write position is, a legal record fits whole where it is put, and needs less than
      the whole ring. */
  lemma Placement(pos: nat, n: nat, size: nat)
    requires 0 < n && n % 16 == 0 && pos % 8 == 0 && size % 8 == 0 && size <= n / 2
    ensures var skip := Skip(n, pos % n, size);
            && skip + size < n
            && (skip + size) % 8 == 0
            && (pos + skip) % n == (if skip > 0 then 0 else pos % n)
            && (pos + skip) % n + size <= n
            && (skip > 0 ==> skip == n - pos % n)
  {
    Aligned(pos, n);
    PlacementAt(pos % n, n, size);
    WrapsToZero(pos, n);
  }

  lemma HalfFits(n: nat, len: nat)
    requires MIN_CAPACITY <= n && n % 16 == 0 && len <= MaxRecord(n)
    ensures HEADER + Padded(len) <= n / 2 && (HEADER + Padded(len)) % 8 == 0
  {
  }

  lemma Fits(r: Ring, p: seq<byte>)
    requires Positions(r) && |p| <= MaxRecord(|r.buf|)
    ensures var skip := Skip(|r.buf|, r.tailAt % |r.buf|, RecordSize(p));
            && SkipFor(r, p) == skip && Needed(r, p) == skip + RecordSize(p)
            && StartOf(r, p) == (r.tailAt + skip) % |r.buf|
    ensures StartOf(r, p) + RecordSize(p) <= |r.buf|
    ensures Needed(r, p) < |r.buf|
    ensures Needed(r, p) % 8 == 0
  {
    WriteIndex(r);
    CapacityAligned(|r.buf|);
    HalfFits(|r.buf|, |p|);
    Placement(r.tailAt, |r.buf|, RecordSize(p));
  }

  lemma NoRoomIs(r: Ring, seen: nat, p: seq<byte>)
    requires Positions(r) && seen <= r.tailAt <= seen + |r.buf|
    ensures NoRoom(r, seen % WORD, p) <==> r.tailAt + Needed(r, p) > seen + |r.buf|
  {
    WrappedDifference(r.tailAt, seen, WORD);
  }

  lemma PutHere(buf: seq<byte>, i: nat, bytes: seq<byte>)
    requires i + |bytes| <= |buf|
    ensures Put(buf, i, bytes)[i..i + |bytes|] == bytes
  {
  }

  lemma PutApart(buf: seq<byte>, i: nat, bytes: seq<byte>, j: nat, n: nat)
    requires i + |bytes| <= |buf| && j + n <= |buf| && (j + n <= i || i + |bytes| <= j)
    ensures Put(buf, i, bytes)[j..j + n] == buf[j..j + n]
  {
  }

  /** Writing inside the free positions leaves the readable records alone. */
  lemma PutKeepsContents(r: Ring, w: nat, i: nat, bytes: seq<byte>)
    requires Positions(r) && Contents(r)
    requires r.tailAt <= w && w + |bytes| <= r.headAt + |r.buf| && i + |bytes| <= |r.buf|
    requires bytes != [] ==> i == w % |r.buf|
    ensures Contents(r.(buf := Put(r.buf, i, bytes)))
  {
    if bytes == [] {
      assert Put(r.buf, i, bytes) == r.buf;
    } else {
      PutElsewhere(r.buf, r.headAt, r.tailAt, w, i, bytes);
      SameLayout(r.buf, Put(r.buf, i, bytes), r.headAt, r.queue);
    }
  }

  /** A step that only writes bytes keeps the invariant if it keeps the readable records and leaves
      the parts of the record in place. */
  lemma WriterMoved(r: Ring, buf: seq<byte>, next: WriterAt, p: seq<byte>, filled: bool, headed: bool)
    requires RingInv(r) && |buf| == |r.buf| && Contents(r.(buf := buf))
    requires |p| <= MaxRecord(|r.buf|) && r.tailAt + Needed(r, p) <= r.seenHead + |r.buf|
    requires Parts(buf, Index(r, r.writeTail), StartOf(r, p), SkipFor(r, p) > 0, p, true, filled, headed)
    requires next == if headed then MustPublish(p) else if filled then MayWriteHeader(p) else MayWritePayload(p)
    requires headed ==> filled
    ensures RingInv(r.(buf := buf, writer := next))
  {
  }

  lemma PutMarker(buf: seq<byte>, i: nat, start: nat, skips: bool, p: seq<byte>)
    requires Parts(buf, i, start, skips, p, false, false, false)
    ensures Parts(Put(buf, i, ToLE(WRAP, 4)), i, start, skips, p, true, false, false)
  {
    PutHere(buf, i, ToLE(WRAP, 4));
  }

  lemma PutPayload(buf: seq<byte>, i: nat, start: nat, skips: bool, p: seq<byte>)
    requires Parts(buf, i, start, skips, p, true, false, false)
    ensures Parts(Put(buf, start + HEADER, p), i, start, skips, p, true, true, false)
  {
    PutHere(buf, start + HEADER, p);
    if skips { PutApart(buf, start + HEADER, p, i, 4); }
  }

  lemma PutFour(buf: seq<byte>, start: nat, h: seq<byte>, i: nat, p: seq<byte>)
    requires |h| == 4 && i + 4 <= |buf| && start + RecordSize(p) <= |buf|
    ensures Put(buf, start, h)[start..start + 4] == h
    ensures Put(buf, start, h)[start + HEADER..start + HEADER + |p|] == buf[start + HEADER..start + HEADER + |p|]
    ensures start + RecordSize(p) <= i ==> Put(buf, start, h)[i..i + 4] == buf[i..i + 4]
  {
    PutHere(buf, start, h);
    PutApart(buf, start, h, start + HEADER, |p|);
    if start + RecordSize(p) <= i { PutApart(buf, start, h, i, 4); }
  }

  lemma PutHeader(buf: seq<byte>, i: nat, start: nat, skips: bool, p: seq<byte>)
    requires Parts(buf, i, start, skips, p, true, true, false)
    ensures Parts(Put(buf, start, ToLE(|p|, 4)), i, start, skips, p, true, true, true)
  {
    PutFour(buf, start, ToLE(|p|, 4), i, p);
  }

  /** The true positions of a record's payload and length, and where they lie. */
  lemma WriteAt(r: Ring, p: seq<byte>)
    requires Positions(r) && |p| <= MaxRecord(|r.buf|)
    ensures r.tailAt % |r.buf| == Index(r, r.writeTail)
    ensures (r.tailAt + SkipFor(r, p)) % |r.buf| == StartOf(r, p)
    ensures p != [] ==> (r.tailAt + SkipFor(r, p) + HEADER) % |r.buf| == StartOf(r, p) + HEADER
    ensures StartOf(r, p) + RecordSize(p) <= |r.buf|
  {
    WriteIndex(r);
    Fits(r, p);
    if p != [] { NoStraddle(r.tailAt + SkipFor(r, p), HEADER, |r.buf|); }
  }

  lemma MarkerKeeps(r: Ring)
    requires RingInv(r) && r.writer.MayWriteMarker?
    ensures RingInv(WriterStep(r, []))
  {
    var p := r.writer.record;
    WriteAt(r, p);
    PutKeepsContents(r, r.tailAt, Index(r, r.writeTail), ToLE(WRAP, 4));
    PutMarker(r.buf, Index(r, r.writeTail), StartOf(r, p), SkipFor(r, p) > 0, p);
    WriterMoved(r, Put(r.buf, Index(r, r.writeTail), ToLE(WRAP, 4)), MayWritePayload(p), p, false, false);
  }

  lemma PayloadRoom(r: Ring, p: seq<byte>)
    requires Positions(r) && WritingIn(r, p, true, false, false)
    ensures StartOf(r, p) + HEADER + |p| <= |r.buf|
    ensures r.tailAt + SkipFor(r, p) + HEADER + |p| <= r.headAt + |r.buf|
  {
  }

  lemma HeaderRoom(r: Ring, p: seq<byte>)
    requires Positions(r) && WritingIn(r, p, true, true, false)
    ensures StartOf(r, p) + 4 <= |r.buf| && r.tailAt + SkipFor(r, p) + 4 <= r.headAt + |r.buf|
  {
  }

  lemma PayloadAt(r: Ring, p: seq<byte>)
    requires Positions(r) && |p| <= MaxRecord(|r.buf|)
    ensures p != [] ==> StartOf(r, p) + HEADER == (r.tailAt + SkipFor(r, p) + HEADER) % |r.buf|
  {
    WriteAt(r, p);
  }

  lemma PayloadContents(r: Ring, p: seq<byte>)
    requires Positions(r) && Contents(r) && WritingIn(r, p, true, false, false)
    ensures StartOf(r, p) + HEADER + |p| <= |r.buf|
    ensures Contents(r.(buf := Put(r.buf, StartOf(r, p) + HEADER, p)))
  {
    PayloadAt(r, p);
    PayloadRoom(r, p);
    PutKeepsContents(r, r.tailAt + SkipFor(r, p) + HEADER, StartOf(r, p) + HEADER, p);
  }

  lemma PayloadWritten(r: Ring, p: seq<byte>) returns (buf: seq<byte>)
    requires Positions(r) && Contents(r) && WritingIn(r, p, true, false, false)
    ensures StartOf(r, p) + HEADER + |p| <= |r.buf| && buf == Put(r.buf, StartOf(r, p) + HEADER, p)
    ensures Contents(r.(buf := buf))
    ensures Parts(buf, Index(r, r.writeTail), StartOf(r, p), SkipFor(r, p) > 0, p, true, true, false)
  {
    PayloadContents(r, p);
    buf := Put(r.buf, StartOf(r, p) + HEADER, p);
    PutPayload(r.buf, Index(r, r.writeTail), StartOf(r, p), SkipFor(r, p) > 0, p);
  }

  lemma PayloadKeeps(r: Ring)
    requires RingInv(r) && r.writer.MayWritePayload?
    ensures RingInv(WriterStep(r, []))
  {
    var p := r.writer.record;
    var buf := PayloadWritten(r, p);
    PayloadStep(r, p);
    WriterMoved(r, buf, MayWriteHeader(p), p, true, false);
  }

  lemma PayloadStep(r: Ring, p: seq<byte>)
    requires 0 < |r.buf| && r.writer == MayWritePayload(p) && StartOf(r, p) + HEADER + |p| <= |r.buf|
    ensures WriterStep(r, []) == r.(buf := Put(r.buf, StartOf(r, p) + HEADER, p), writer := MayWriteHeader(p))
  {
  }

  lemma HeaderKeeps(r: Ring)
    requires RingInv(r) && r.writer.MayWriteHeader?
    ensures RingInv(WriterStep(r, []))
  {
    var p := r.writer.record;
    WriteAt(r, p);
    PutKeepsContents(r, r.tailAt + SkipFor(r, p), StartOf(r, p), ToLE(|p|, 4));
    PutHeader(r.buf, Index(r, r.writeTail), StartOf(r, p), SkipFor(r, p) > 0, p);
    WriterMoved(r, Put(r.buf, StartOf(r, p), ToLE(|p|, 4)), MustPublish(p), p, true, true);
  }

  lemma BothAligned(a: nat, b: nat)
    requires a % 8 == 0 && b % 8 == 0
    ensures (a + b) % 8 == 0
  {
  }

  lemma PositionsGrow(r: Ring, e: Entry, needed: nat, r': Ring)
    requires Positions(r) && needed % 8 == 0 && r.tailAt + needed <= r.seenHead + |r.buf|
    requires Sizes(r.queue + [e]) == Sizes(r.queue) + needed
    requires r'.tail == r'.writeTail == (r.writeTail + needed) % WORD
    requires r' == r.(tail := r'.tail, writeTail := r'.writeTail, tailAt := r.tailAt + needed, queue := r.queue + [e],
                      writer := r'.writer, lastWrite := r'.lastWrite, written := r'.written)
    ensures Positions(r')
  {
    Advance(r.tailAt, needed, WORD);
    BothAligned(r.tailAt, needed);
    assert (r.queue + [e])[..r.visible] == r.queue[..r.visible];
  }

  lemma PublishKeeps(r: Ring)
    requires RingInv(r) && r.writer.MustPublish?
    ensures RingInv(WriterStep(r, []))
  {
    PublishPositions(r, r.writer.record);
    PublishContents(r, r.writer.record);
    ReaderUnmoved(r, Publish(r, r.writer.record));
  }

  lemma PublishPositions(r: Ring, p: seq<byte>)
    requires Positions(r) && Contents(r) && WritingIn(r, p, true, true, true)
    ensures Positions(Publish(r, p))
  {
    PublishSizes(r, p);
    PositionsGrow(r, Entry(SkipFor(r, p), p), Needed(r, p), Publish(r, p));
  }

  lemma PublishContents(r: Ring, p: seq<byte>)
    requires Positions(r) && Contents(r) && WritingIn(r, p, true, true, true)
    ensures Contents(Publish(r, p))
  {
    PublishedEntry(r, p);
    AppendEntry(r.buf, r.headAt, r.queue, Entry(SkipFor(r, p), p));
    Associates(r.consumed, Payloads(r.queue), [p]);
  }

  lemma PublishSizes(r: Ring, p: seq<byte>)
    requires Positions(r) && Contents(r) && WritingIn(r, p, true, true, true)
    ensures Sizes(r.queue + [Entry(SkipFor(r, p), p)]) == Sizes(r.queue) + Needed(r, p)
    ensures Needed(r, p) % 8 == 0 && r.tailAt + Needed(r, p) <= r.seenHead + |r.buf|
  {
    PublishedEntry(r, p);
    AppendEntry(r.buf, r.headAt, r.queue, Entry(SkipFor(r, p), p));
    Fits(r, p);
  }

  lemma PublishedEntry(r: Ring, p: seq<byte>)
    requires Positions(r) && WritingIn(r, p, true, true, true)
    ensures EntryAt(r.buf, r.tailAt, Entry(SkipFor(r, p), p))
  {
    WriteAt(r, p);
    Fits(r, p);
  }

  /** Looking at `head` again keeps the invariant, and so does starting to write once there is room. */
  lemma LookKeeps(r: Ring, writer: WriterAt, result: WriteResult, cached: int, seen: nat)
    requires RingInv(r) && r.seenHead <= seen <= r.headAt && cached == seen % WORD
    requires writer.WriterIdle? || (writer.MustLoadHead? && |writer.record| <= MaxRecord(|r.buf|))
    ensures RingInv(r.(cachedHead := cached, seenHead := seen, writer := writer, lastWrite := result))
  {
  }

  lemma StartKeeps(r: Ring, p: seq<byte>)
    requires RingInv(r) && |p| <= MaxRecord(|r.buf|) && !NoRoom(r, r.cachedHead, p)
    ensures RingInv(BeginWriting(r, p))
  {
    StartWriting(r, p);
  }

  lemma StartWriting(r: Ring, p: seq<byte>)
    requires Positions(r) && |p| <= MaxRecord(|r.buf|) && !NoRoom(r, r.cachedHead, p)
    ensures WritingIn(r, p, false, false, false) && (SkipFor(r, p) == 0 ==> WritingIn(r, p, true, false, false))
  {
    NoRoomIs(r, r.seenHead, p);
    WriteIndex(r);
    Fits(r, p);
  }

  lemma WriterKeeps(r: Ring, record: seq<byte>)
    requires RingInv(r)
    ensures RingInv(WriterStep(r, record))
  {
    match r.writer
    case WriterIdle =>
      if |record| > MaxRecord(|r.buf|) {
        LookKeeps(r, WriterIdle, TooLarge, r.cachedHead, r.seenHead);
      } else if NoRoom(r, r.cachedHead, record) {
        LookKeeps(r, MustLoadHead(record), r.lastWrite, r.cachedHead, r.seenHead);
      } else {
        StartKeeps(r, record);
      }
    case MustLoadHead(p) =>
      LookKeeps(r, r.writer, r.lastWrite, r.head, r.headAt);
      var r' := r.(cachedHead := r.head, seenHead := r.headAt);
      if NoRoom(r', r.head, p) {
        LookKeeps(r, WriterIdle, RingFull, r.head, r.headAt);
      } else {
        StartKeeps(r', p);
      }
    case MayWriteMarker(p) => MarkerKeeps(r);
    case MayWritePayload(p) => PayloadKeeps(r);
    case MayWriteHeader(p) => HeaderKeeps(r);
    case MustPublish(p) => PublishKeeps(r);
  }

  // ---------------------------------------------------------------- the reader

  lemma {:induction false} SizesPrefix(queue: seq<Entry>, n: nat)
    requires n <= |queue|
    ensures Sizes(queue[..n]) <= Sizes(queue)
    ensures n > 0 ==> Sizes(queue[..n]) >= HEADER
    decreases n
  {
    if n > 0 {
      assert queue[..n][1..] == queue[1..][..n - 1];
      SizesPrefix(queue[1..], n - 1);
    }
  }

  /** The reader's test for "nothing left" is exact for what it has seen. */
  lemma SeesNothingIff(r: Ring)
    requires Positions(r)
    ensures r.readHead == r.cachedTail <==> r.visible == 0
  {
    SizesPrefix(r.queue, r.visible);
    WrappedDifference(r.headAt + Sizes(r.queue[..r.visible]), r.headAt, WORD);
  }

  lemma ReadIndex(r: Ring)
    requires Positions(r)
    ensures Index(r, r.readHead) == r.headAt % |r.buf|
    ensures Index(r, r.readHead) % 8 == 0 && Index(r, r.readHead) + 8 <= |r.buf|
  {
    CapacityAligned(|r.buf|);
    WordWrapped(r.headAt, |r.buf|);
    Aligned(r.headAt, |r.buf|);
  }

  lemma LengthReads(n: nat)
    requires n <= WRAP
    ensures FromLE(ToLE(n, 4)) == n
  {
    Widths();
    LERoundTrip(n, 4);
  }

  lemma HeaderBytes(r: Ring)
    requires Positions(r) && Contents(r) && r.queue != []
    ensures var i := Index(r, r.readHead);
            i + 8 <= |r.buf| && r.buf[i..i + 4] == ToLE(if r.queue[0].pad > 0 then WRAP else |r.queue[0].payload|, 4)
    ensures |r.queue[0].payload| < WRAP
  {
    ReadIndex(r);
  }

  /** What the reader finds at the head: a wrap marker exactly when bytes are to be skipped, else the
      length of the next record. */
  lemma HeaderReads(r: Ring)
    requires Positions(r) && Contents(r) && r.queue != []
    ensures var i := Index(r, r.readHead);
            i + 8 <= |r.buf| && FromLE(r.buf[i..i + 4]) == (if r.queue[0].pad > 0 then WRAP else |r.queue[0].payload|)
    ensures |r.queue[0].payload| < WRAP
  {
    HeaderBytes(r);
    LengthReads(WRAP);
    LengthReads(|r.queue[0].payload|);
  }

  /** Taking the wrap marker's bytes off the first entry. */
  function Unpadded(queue: seq<Entry>): seq<Entry>
    requires queue != []
  {
    [queue[0].(pad := 0)] + queue[1..]
  }

  lemma Cons(e: Entry, rest: seq<Entry>)
    ensures Sizes([e] + rest) == Size(e) + Sizes(rest)
    ensures Payloads([e] + rest) == [e.payload] + Payloads(rest)
  {
    assert ([e] + rest)[1..] == rest;
  }

  lemma UnpaddedSizes(queue: seq<Entry>, n: nat)
    requires 0 < n <= |queue|
    ensures Sizes(Unpadded(queue)[..n]) + queue[0].pad == Sizes(queue[..n])
  {
    var e, rest := queue[0], queue[1..n];
    assert queue[..n] == [e] + rest && Unpadded(queue)[..n] == [e.(pad := 0)] + rest;
    Cons(e, rest);
    Cons(e.(pad := 0), rest);
  }

  lemma UnpaddedWhole(queue: seq<Entry>)
    requires queue != []
    ensures Sizes(Unpadded(queue)) + queue[0].pad == Sizes(queue)
    ensures Payloads(Unpadded(queue)) == Payloads(queue)
  {
    var e, rest := queue[0], queue[1..];
    assert queue == [e] + rest;
    Cons(e, rest);
    Cons(e.(pad := 0), rest);
  }

  lemma UnpaddedEntry(buf: seq<byte>, pos: nat, e: Entry)
    requires 0 < |buf| && EntryAt(buf, pos, e) && e.pad > 0
    ensures EntryAt(buf, pos + e.pad, e.(pad := 0))
  {
    WrapsToZero(pos, |buf|);
  }

  lemma UnpaddedLayout(buf: seq<byte>, pos: nat, queue: seq<Entry>)
    requires 0 < |buf| && queue != [] && Layout(buf, pos, queue) && queue[0].pad > 0
    ensures Layout(buf, pos + queue[0].pad, Unpadded(queue))
  {
    UnpaddedEntry(buf, pos, queue[0]);
    assert Unpadded(queue)[1..] == queue[1..];
  }

  lemma RestAligned(n: nat, i: nat)
    requires n % 16 == 0 && i % 8 == 0 && i <= n
    ensures (n - i) % 8 == 0
  {
    var a, b := n / 16, i / 8;
    assert n == 16 * a && i == 8 * b;
    assert n - i == 8 * (2 * a - b);
  }

  lemma SkipLength(r: Ring)
    requires Positions(r) && Contents(r) && r.queue != [] && r.queue[0].pad > 0
    ensures r.queue[0].pad == |r.buf| - Index(r, r.readHead) && r.queue[0].pad % 8 == 0
  {
    ReadIndex(r);
    CapacityAligned(|r.buf|);
    RestAligned(|r.buf|, Index(r, r.readHead));
  }

  lemma SkipContents(r: Ring)
    requires Positions(r) && Contents(r) && r.queue != [] && r.queue[0].pad > 0
    ensures Contents(r.(headAt := r.headAt + r.queue[0].pad, queue := Unpadded(r.queue)))
  {
    UnpaddedWhole(r.queue);
    UnpaddedLayout(r.buf, r.headAt, r.queue);
  }

  lemma PositionsSkip(r: Ring, pad: nat)
    requires Positions(r) && 0 < r.visible && r.queue[0].pad == pad && pad % 8 == 0
    ensures var moved := (r.readHead + pad) % WORD;
            Positions(r.(readHead := moved, head := moved, headAt := r.headAt + pad, queue := Unpadded(r.queue)))
  {
    Advance(r.headAt, pad, WORD);
    BothAligned(r.headAt, pad);
    UnpaddedSizes(r.queue, r.visible);
    UnpaddedWhole(r.queue);
  }

  /** The reader's position after skipping to index 0. */
  function Skipped(r: Ring): Ring
    requires r.queue != []
  {
    var moved := (r.readHead + r.queue[0].pad) % WORD;
    r.(readHead := moved, head := moved, headAt := r.headAt + r.queue[0].pad, queue := Unpadded(r.queue))
  }

  lemma SkipIs(r: Ring)
    requires RingInv(r) && r.reader.MustSkip?
    ensures ReaderStep(r) == BeginRound(Skipped(r), 2)
    ensures Positions(Skipped(r)) && Contents(Skipped(r))
  {
    SkipLength(r);
    SkipContents(r);
    PositionsSkip(r, r.queue[0].pad);
  }

  lemma SkipKeeps(r: Ring)
    requires RingInv(r) && r.reader.MustSkip?
    ensures RingInv(ReaderStep(r))
  {
    SkipIs(r);
    SeesNothingIff(Skipped(r));
    WriterUnmoved(r, ReaderStep(r));
  }

  lemma PositionsRelease(r: Ring, size: nat)
    requires Positions(r) && 0 < r.visible && Size(r.queue[0]) == size && size % 8 == 0
    ensures var moved := (r.readHead + size) % WORD;
            Positions(r.(readHead := moved, head := moved, headAt := r.headAt + size, queue := r.queue[1..],
                         visible := r.visible - 1))
  {
    Advance(r.headAt, size, WORD);
    BothAligned(r.headAt, size);
    assert r.queue[1..][..r.visible - 1] == r.queue[..r.visible][1..];
  }

  lemma ReleaseKeeps(r: Ring)
    requires RingInv(r) && r.reader.MustRelease?
    ensures RingInv(ReaderStep(r))
  {
    ReleasePositions(r, r.reader.record);
    ReleaseContents(r, r.reader.record);
    WriterUnmoved(r, Release(r, r.reader.record));
  }

  lemma ReleasePositions(r: Ring, p: seq<byte>)
    requires Positions(r) && 0 < r.visible && r.queue[0] == Entry(0, p)
    ensures Positions(Release(r, p))
  {
    BothAligned(HEADER, Padded(|p|));
    PositionsRelease(r, RecordSize(p));
  }

  lemma ReleaseContents(r: Ring, p: seq<byte>)
    requires 0 < |r.buf| && Contents(r) && r.queue != [] && r.queue[0] == Entry(0, p)
    ensures Contents(Release(r, p))
  {
    Associates(r.consumed, [p], Payloads(r.queue[1..]));
  }

  lemma LoadTailKeeps(r: Ring)
    requires RingInv(r) && r.reader.MustLoadTail?
    ensures RingInv(ReaderStep(r))
  {
    var r' := r.(cachedTail := r.tail, visible := |r.queue|);
    assert r.queue[..|r.queue|] == r.queue;
    SeesNothingIff(r');
    WriterUnmoved(r, ReaderStep(r));
  }

  lemma PayloadReads(r: Ring)
    requires Positions(r) && Contents(r) && r.queue != [] && r.queue[0].pad == 0
    ensures var i, p := Index(r, r.readHead), r.queue[0].payload;
            i + HEADER + |p| <= |r.buf| && r.buf[i + HEADER..i + HEADER + |p|] == p
  {
    ReadIndex(r);
  }

  lemma ReadHeaderKeeps(r: Ring)
    requires RingInv(r) && r.reader.MayReadHeader?
    ensures RingInv(ReaderStep(r))
  {
    ReadHeaderLands(r);
    WriterUnmoved(r, ReaderStep(r));
  }

  /** The header tells the reader what to do next. */
  lemma ReadHeaderLands(r: Ring)
    requires Positions(r) && Contents(r) && ReaderAgrees(r) && r.reader.MayReadHeader? && !r.broken
    ensures ReaderStep(r) == r.(reader := ReaderStep(r).reader) && ReaderAgrees(ReaderStep(r))
  {
    HeaderReads(r);
  }

  lemma ReadPayloadKeeps(r: Ring)
    requires RingInv(r) && r.reader.MayReadPayload?
    ensures RingInv(ReaderStep(r))
  {
    PayloadReads(r);
    WriterUnmoved(r, ReaderStep(r));
  }

  lemma ReaderKeeps(r: Ring)
    requires RingInv(r)
    ensures RingInv(ReaderStep(r))
  {
    match r.reader
    case ReaderIdle => SeesNothingIff(r);
    case MustLoadTail(_) => LoadTailKeeps(r);
    case MayReadHeader(_) => ReadHeaderKeeps(r);
    case MustSkip(_) => SkipKeeps(r);
    case MayReadPayload(_) => ReadPayloadKeeps(r);
    case MustRelease(_) => ReleaseKeeps(r);
  }

  // ---------------------------------------------------------------- every interleaving

  lemma {:induction false} RunInv(capacity: nat, turns: seq<Turn>)
    requires ValidCapacity(capacity)
    ensures RingInv(Run(New(capacity), turns))
  {
    var n := |turns|;
    if n > 0 {
      RunInv(capacity, turns[..n - 1]);
      match turns[n - 1]
      case Writer(record) => WriterKeeps(Run(New(capacity), turns[..n - 1]), record);
      case Reader => ReaderKeeps(Run(New(capacity), turns[..n - 1]));
    }
  }

  /** Some interleaving of a writer and a reader, on a new ring of some legal capacity, leads to `r`. */
  ghost predicate Reachable(r: Ring) {
    exists capacity: nat, turns :: ValidCapacity(capacity) && r == Run(New(capacity), turns)
  }

  lemma ReachableInv(r: Ring)
    requires Reachable(r)
    ensures RingInv(r)
  {
    var capacity: nat, turns :| ValidCapacity(capacity) && r == Run(New(capacity), turns);
    RunInv(capacity, turns);
  }

  /** In every interleaving the records read are, byte for byte, a prefix of the records written,
      and no bounds check ever fails. */
  lemma ReadIsPrefixOfWritten(r: Ring)
    requires Reachable(r)
    ensures r.consumed <= r.written && !r.broken
  {
    ReachableInv(r);
  }

  /** No step of the writer changes a byte between the reader's position and the published tail. */
  lemma NeverWritesReadable(r: Ring, record: seq<byte>)
    requires Reachable(r)
    ensures Same(r.buf, WriterStep(r, record).buf, r.headAt, r.tailAt)
  {
    ReachableInv(r);
    match r.writer
    case MayWriteMarker(p) => MarkerElsewhere(r, p);
    case MayWritePayload(p) => PayloadElsewhere(r, p);
    case MayWriteHeader(p) => HeaderElsewhere(r, p);
    case _ =>
  }

  lemma MarkerElsewhere(r: Ring, p: seq<byte>)
    requires Positions(r) && SkipFor(r, p) > 0 && WritingIn(r, p, false, false, false)
    ensures Same(r.buf, Put(r.buf, Index(r, r.writeTail), ToLE(WRAP, 4)), r.headAt, r.tailAt)
  {
    WriteAt(r, p);
    PutElsewhere(r.buf, r.headAt, r.tailAt, r.tailAt, Index(r, r.writeTail), ToLE(WRAP, 4));
  }

  lemma HeaderElsewhere(r: Ring, p: seq<byte>)
    requires Positions(r) && WritingIn(r, p, true, true, false)
    ensures Same(r.buf, Put(r.buf, StartOf(r, p), ToLE(|p|, 4)), r.headAt, r.tailAt)
  {
    FourElsewhere(r, p, ToLE(|p|, 4));
  }

  lemma FourElsewhere(r: Ring, p: seq<byte>, h: seq<byte>)
    requires Positions(r) && WritingIn(r, p, true, true, false) && |h| == 4
    ensures StartOf(r, p) + 4 <= |r.buf|
    ensures Same(r.buf, Put(r.buf, StartOf(r, p), h), r.headAt, r.tailAt)
  {
    HeaderAt(r, p);
    HeaderRoom(r, p);
    PutElsewhere(r.buf, r.headAt, r.tailAt, r.tailAt + SkipFor(r, p), StartOf(r, p), h);
  }

  lemma HeaderAt(r: Ring, p: seq<byte>)
    requires Positions(r) && |p| <= MaxRecord(|r.buf|)
    ensures StartOf(r, p) == (r.tailAt + SkipFor(r, p)) % |r.buf|
  {
    WriteAt(r, p);
  }

  lemma PayloadElsewhere(r: Ring, p: seq<byte>)
    requires Positions(r) && WritingIn(r, p, true, false, false)
    ensures Same(r.buf, Put(r.buf, StartOf(r, p) + HEADER, p), r.headAt, r.tailAt)
  {
    WriteAt(r, p);
    if p == [] {
      assert Put(r.buf, StartOf(r, p) + HEADER, p) == r.buf;
    } else {
      PutElsewhere(r.buf, r.headAt, r.tailAt, r.tailAt + SkipFor(r, p) + HEADER, StartOf(r, p) + HEADER, p);
    }
  }

  /** A wrap marker is always followed by a record at index 0 that is already published, so one call
      of `read_with` goes round its loop at most twice. */
  lemma ReadsInTwoRounds(r: Ring)
    requires Reachable(r)
    ensures r.reader.MustLoadTail? ==> r.reader.round == 1
    ensures r.reader.MayReadHeader? ==> r.reader.round <= 2
    ensures r.reader.MustSkip? ==>
              && r.reader.round == 1
              && ReaderStep(r).reader == MayReadHeader(2)
              && ReaderStep(r).queue != [] && ReaderStep(r).queue[0].pad == 0
              && ReaderStep(r).headAt % |r.buf| == 0
  {
    ReachableInv(r);
    if r.reader.MustSkip? { SkipLands(r); }
  }

  lemma SkipLands(r: Ring)
    requires RingInv(r) && r.reader.MustSkip?
    ensures ReaderStep(r).reader == MayReadHeader(2)
    ensures ReaderStep(r).queue == Unpadded(r.queue) && ReaderStep(r).headAt % |r.buf| == 0
  {
    SkipIs(r);
    SeesNothingIff(Skipped(r));
    SkipLength(r);
    ReadIndex(r);
    WrapsToZero(r.headAt, |r.buf|);
  }

  /** `write_with` gives up exactly when, at the moment it loads `head`, the free space is short of
      what the record needs; so an empty ring takes any record of at most `max_record` bytes. */
  lemma FullIsExact(r: Ring, record: seq<byte>)
    requires Reachable(r) && r.writer.MustLoadHead?
    ensures WriterStep(r, record).writer.WriterIdle? <==> r.tailAt + Needed(r, r.writer.record) > r.headAt + |r.buf|
    ensures r.queue == [] ==> !WriterStep(r, record).writer.WriterIdle?
  {
    ReachableInv(r);
    LookGivesUp(r, record);
    LookExact(r, r.writer.record);
  }

  lemma LookGivesUp(r: Ring, record: seq<byte>)
    requires 0 < |r.buf| && r.writer.MustLoadHead?
    ensures WriterStep(r, record).writer.WriterIdle? <==> NoRoom(r, r.head, r.writer.record)
  {
  }

  lemma LookExact(r: Ring, p: seq<byte>)
    requires Positions(r) && |p| <= MaxRecord(|r.buf|)
    ensures NoRoom(r, r.head, p) <==> r.tailAt + Needed(r, p) > r.headAt + |r.buf|
    ensures r.queue == [] ==> !NoRoom(r, r.head, p)
  {
    NoRoomIs(r, r.headAt, p);
    Fits(r, p);
  }

  /** `read_with` finds nothing exactly when every record written has been read. */
  lemma EmptyIsExact(r: Ring)
    requires Reachable(r) && r.reader.MustLoadTail?
    ensures ReaderStep(r).reader.ReaderIdle? <==> r.consumed == r.written
  {
    ReachableInv(r);
    assert r.queue[..|r.queue|] == r.queue;
    SeesNothingIff(r.(cachedTail := r.tail, visible := |r.queue|));
  }

  // ---------------------------------------------------------------- what callers are told

  /** Some stretch of free positions takes a whole record of `size` bytes without straddling the end of
      the buffer. */
  ghost predicate RoomFor(n: nat, head: nat, tail: nat, size: nat)
    requires 0 < n
  {
    exists s: nat :: TakesAt(n, head, tail, size, s)
  }

  predicate TakesAt(n: nat, head: nat, tail: nat, size: nat, s: nat)
    requires 0 < n
  {
    tail <= s && s % n + size <= n && s + size <= head + n
  }

  /** The writer's test for room is exact, wherever it would put the record. */
  lemma RoomIff(r: Ring, p: seq<byte>)
    requires Positions(r) && |p| <= MaxRecord(|r.buf|)
    ensures RoomFor(|r.buf|, r.headAt, r.tailAt, RecordSize(p)) <==> r.tailAt + Needed(r, p) <= r.headAt + |r.buf|
  {
    var n, size := |r.buf|, RecordSize(p);
    var skip := SkipFor(r, p);
    Fits(r, p);
    if r.tailAt + Needed(r, p) <= r.headAt + n { assert TakesAt(n, r.headAt, r.tailAt, size, r.tailAt + skip); }
    if RoomFor(n, r.headAt, r.tailAt, size) {
      var s: nat :| TakesAt(n, r.headAt, r.tailAt, size, s);
      NoneBefore(n, r.tailAt, size, s);
    }
  }

  /** No record starts in the bytes that are skipped. */
  lemma NoneBefore(n: nat, tail: nat, size: nat, s: nat)
    requires 0 < n && tail <= s && s % n + size <= n
    ensures tail + Skip(n, tail % n, size) <= s
  {
    if s < tail + (n - tail % n) { NoStraddle(tail, s - tail, n); }
  }

  /** A write that has returned: the record offered, the answer, and whether there was room for it just
      before it returned. */
  datatype WriteCall = WriteCall(record: seq<byte>, answer: WriteResult, room: bool)

  /** The writes that have returned, the one under way, and how many steps that one has taken. */
  datatype Writes = Writes(done: seq<WriteCall>, open: Option<seq<byte>>, steps: nat)

  ghost function CallOf(r: Ring, offered: seq<byte>, answer: WriteResult): WriteCall
    requires 0 < |r.buf|
  {
    WriteCall(offered, answer, RoomFor(|r.buf|, r.headAt, r.tailAt, RecordSize(offered)))
  }

  ghost function WriteTurn(w: Writes, r: Ring, record: seq<byte>): Writes
    requires 0 < |r.buf|
  {
    var offered := if w.open.Some? then w.open.value else record;
    var r' := WriterStep(r, record);
    if r'.writer.WriterIdle? then Writes(w.done + [CallOf(r, offered, r'.lastWrite)], None, 0)
    else Writes(w.done, Some(offered), w.steps + 1)
  }

  /** The writes of a run, as their caller sees them. */
  ghost function WritesOf(r: Ring, turns: seq<Turn>): Writes
    requires 0 < |r.buf|
  {
    var n := |turns|;
    if n == 0 then Writes([], None, 0)
    else
      match turns[n - 1]
      case Writer(record) => WriteTurn(WritesOf(r, turns[..n - 1]), Run(r, turns[..n - 1]), record)
      case Reader => WritesOf(r, turns[..n - 1])
  }

  /** The records that were answered `Written`. */
  function WrittenRecords(done: seq<WriteCall>): seq<seq<byte>> {
    if done == [] then []
    else
      var call := done[|done| - 1];
      WrittenRecords(done[..|done| - 1]) + if call.answer.Written? then [call.record] else []
  }

  function OfferedTo(at: WriterAt): Option<seq<byte>> {
    match at
    case WriterIdle => None
    case MustLoadHead(p) => Some(p)
    case MayWriteMarker(p) => Some(p)
    case MayWritePayload(p) => Some(p)
    case MayWriteHeader(p) => Some(p)
    case MustPublish(p) => Some(p)
  }

  /** How many steps of a write can lie behind the writer. */
  function MostStepsBefore(at: WriterAt): nat {
    match at
    case WriterIdle => 0
    case MustLoadHead(_) => 1
    case MayWriteMarker(_) => 2
    case MayWritePayload(_) => 3
    case MayWriteHeader(_) => 4
    case MustPublish(_) => 5
  }

  predicate RightAnswer(capacity: nat, call: WriteCall) {
    call.answer == if |call.record| > MaxRecord(capacity) then TooLarge else if call.room then Written else RingFull
  }

  ghost predicate WritesTold(r: Ring, w: Writes) {
    && w.open == OfferedTo(r.writer)
    && r.written == WrittenRecords(w.done)
    && (forall k :: 0 <= k < |w.done| ==> RightAnswer(|r.buf|, w.done[k]))
    && w.steps <= MostStepsBefore(r.writer)
  }

  lemma WrittenAppend(done: seq<WriteCall>, call: WriteCall)
    ensures WrittenRecords(done + [call]) == WrittenRecords(done) + if call.answer.Written? then [call.record] else []
  {
    assert (done + [call])[..|done|] == done;
  }

  /** The step by which a write returns. */
  lemma WriteReturns(r: Ring, record: seq<byte>)
    requires RingInv(r) && WriterStep(r, record).writer.WriterIdle?
    ensures var offered := if r.writer.WriterIdle? then record else OfferedTo(r.writer).value;
            var r' := WriterStep(r, record);
            && RightAnswer(|r.buf|, CallOf(r, offered, r'.lastWrite))
            && r'.written == r.written + if r'.lastWrite.Written? then [offered] else []
  {
    match r.writer
    case WriterIdle =>
    case MustLoadHead(p) => LookReturns(r, p);
    case MustPublish(p) => PublishReturns(r, p);
    case _ => WriteGoesOn(r, record);
  }

  lemma LookReturns(r: Ring, p: seq<byte>)
    requires RingInv(r) && r.writer == MustLoadHead(p)
    ensures NoRoom(r, r.head, p) <==> !RoomFor(|r.buf|, r.headAt, r.tailAt, RecordSize(p))
  {
    RoomIff(r, p);
    LookExact(r, p);
  }

  lemma PublishReturns(r: Ring, p: seq<byte>)
    requires RingInv(r) && r.writer == MustPublish(p)
    ensures RoomFor(|r.buf|, r.headAt, r.tailAt, RecordSize(p)) && |p| <= MaxRecord(|r.buf|)
  {
    RoomIff(r, p);
  }

  lemma ToldOneMore(r: Ring, r': Ring, w: Writes, call: WriteCall)
    requires WritesTold(r, w) && r'.writer.WriterIdle? && |r'.buf| == |r.buf|
    requires r'.written == (r.written + if call.answer.Written? then [call.record] else [])
    requires RightAnswer(|r.buf|, call)
    ensures WritesTold(r', Writes(w.done + [call], None, 0))
  {
    WrittenAppend(w.done, call);
  }

  lemma WriteTurnTold(r: Ring, w: Writes, record: seq<byte>)
    requires RingInv(r) && WritesTold(r, w)
    ensures WritesTold(WriterStep(r, record), WriteTurn(w, r, record))
  {
    var r' := WriterStep(r, record);
    if r'.writer.WriterIdle? {
      var offered := if w.open.Some? then w.open.value else record;
      WriteReturns(r, record);
      ToldOneMore(r, r', w, CallOf(r, offered, r'.lastWrite));
    } else {
      WriteGoesOn(r, record);
    }
  }

  /** A step by which a write goes on brings it nearer its end. */
  lemma WriteGoesOn(r: Ring, record: seq<byte>)
    requires RingInv(r)
    requires r.writer.MayWriteMarker? || r.writer.MayWritePayload? || r.writer.MayWriteHeader?
             || !WriterStep(r, record).writer.WriterIdle?
    ensures !WriterStep(r, record).writer.WriterIdle?
    ensures var r' := WriterStep(r, record);
            && MostStepsBefore(r.writer) < MostStepsBefore(r'.writer) && r'.written == r.written
            && OfferedTo(r'.writer) == Some(if r.writer.WriterIdle? then record else OfferedTo(r.writer).value)
  {
    if !r.writer.WriterIdle? { WriteAt(r, OfferedTo(r.writer).value); }
  }

  lemma {:induction false} RunWritesTold(capacity: nat, turns: seq<Turn>)
    requires ValidCapacity(capacity)
    ensures WritesTold(Run(New(capacity), turns), WritesOf(New(capacity), turns))
  {
    var n := |turns|;
    if n > 0 {
      RunWritesTold(capacity, turns[..n - 1]);
      RunInv(capacity, turns[..n - 1]);
      var r := Run(New(capacity), turns[..n - 1]);
      match turns[n - 1]
      case Writer(record) => WriteTurnTold(r, WritesOf(New(capacity), turns[..n - 1]), record);
      case Reader => ReaderWritesNothing(r);
    }
  }

  lemma ReaderWritesNothing(r: Ring)
    requires 0 < |r.buf|
    ensures ReaderStep(r).writer == r.writer && ReaderStep(r).written == r.written && |ReaderStep(r).buf| == |r.buf|
  {
  }

  /** In every interleaving: what was written is exactly what was offered and answered `Written`, in that
      order. A write is answered `TooLarge` for a record over the limit, else `Written` if the free
      positions take the record in one piece when it returns, and `RingFull` if not; and it returns by
      its sixth step. */
  lemma WriteAnswers(capacity: nat, turns: seq<Turn>)
    requires ValidCapacity(capacity)
    ensures var r, w := Run(New(capacity), turns), WritesOf(New(capacity), turns);
            && r.written == WrittenRecords(w.done)
            && (forall k :: 0 <= k < |w.done| ==> RightAnswer(capacity, w.done[k]))
            && w.steps <= 5
  {
    RunWritesTold(capacity, turns);
  }

  /** A read that has returned: the answer, and the oldest record just before it returned. */
  datatype ReadCall = ReadCall(answer: Option<seq<byte>>, oldest: Option<seq<byte>>)

  datatype Reads = Reads(done: seq<ReadCall>, steps: nat)

  function Oldest(r: Ring): Option<seq<byte>> {
    if |r.consumed| < |r.written| then Some(r.written[|r.consumed|]) else None
  }

  function ReadTurn(d: Reads, r: Ring): Reads
    requires 0 < |r.buf|
  {
    var r' := ReaderStep(r);
    if r'.reader.ReaderIdle? then Reads(d.done + [ReadCall(r'.lastRead, Oldest(r))], 0) else d.(steps := d.steps + 1)
  }

  /** The reads of a run, as their caller sees them. */
  function ReadsOf(r: Ring, turns: seq<Turn>): Reads
    requires 0 < |r.buf|
  {
    var n := |turns|;
    if n == 0 then Reads([], 0)
    else if turns[n - 1].Reader? then ReadTurn(ReadsOf(r, turns[..n - 1]), Run(r, turns[..n - 1]))
    else ReadsOf(r, turns[..n - 1])
  }

  /** The records handed out. */
  function HandedOut(done: seq<ReadCall>): seq<seq<byte>> {
    if done == [] then []
    else
      var call := done[|done| - 1];
      HandedOut(done[..|done| - 1]) + if call.answer.Some? then [call.answer.value] else []
  }

  function MostReadsBefore(at: ReaderAt): nat {
    match at
    case ReaderIdle => 0
    case MustLoadTail(_) => 1
    case MayReadHeader(round) => if round == 1 then 2 else 4
    case MustSkip(_) => 3
    case MayReadPayload(_) => 5
    case MustRelease(_) => 6
  }

  ghost predicate ReadsTold(r: Ring, d: Reads) {
    && r.consumed == HandedOut(d.done)
    && (forall k :: 0 <= k < |d.done| ==> d.done[k].answer == d.done[k].oldest)
    && d.steps <= MostReadsBefore(r.reader)
  }

  lemma HandedAppend(done: seq<ReadCall>, call: ReadCall)
    ensures HandedOut(done + [call]) == HandedOut(done) + if call.answer.Some? then [call.answer.value] else []
  {
    assert (done + [call])[..|done|] == done;
  }

  /** The step by which a read returns. */
  lemma ReadReturns(r: Ring)
    requires RingInv(r) && ReaderStep(r).reader.ReaderIdle?
    ensures ReaderStep(r).lastRead == Oldest(r)
    ensures ReaderStep(r).consumed == r.consumed + if Oldest(r).Some? then [Oldest(r).value] else []
  {
    if r.reader.MustLoadTail? {
      assert r.queue[..|r.queue|] == r.queue;
      SeesNothingIff(r.(cachedTail := r.tail, visible := |r.queue|));
    }
  }

  /** A step by which a read goes on brings it nearer its end. */
  lemma ReadGoesOn(r: Ring)
    requires RingInv(r) && !ReaderStep(r).reader.ReaderIdle?
    ensures MostReadsBefore(r.reader) < MostReadsBefore(ReaderStep(r).reader) && ReaderStep(r).consumed == r.consumed
  {
    match r.reader
    case ReaderIdle =>
    case MustLoadTail(_) =>
    case MayReadHeader(_) => HeaderGoesOn(r);
    case MustSkip(_) => SkipGoesOn(r);
    case MayReadPayload(_) => PayloadGoesOn(r);
    case MustRelease(_) => assert false;
  }

  lemma HeaderGoesOn(r: Ring)
    requires RingInv(r) && r.reader.MayReadHeader?
    ensures ReaderStep(r).reader.MayReadPayload? || (r.reader.round == 1 && ReaderStep(r).reader.MustSkip?)
    ensures ReaderStep(r).consumed == r.consumed
  {
    HeaderReads(r);
  }

  lemma SkipGoesOn(r: Ring)
    requires RingInv(r) && r.reader.MustSkip?
    ensures ReaderStep(r).reader == MayReadHeader(2) && ReaderStep(r).consumed == r.consumed
  {
    SkipLands(r);
    SkipIs(r);
  }

  lemma PayloadGoesOn(r: Ring)
    requires RingInv(r) && r.reader.MayReadPayload?
    ensures ReaderStep(r).reader.MustRelease? && ReaderStep(r).consumed == r.consumed
  {
    PayloadReads(r);
  }

  lemma ReadTurnTold(r: Ring, d: Reads)
    requires RingInv(r) && ReadsTold(r, d)
    ensures ReadsTold(ReaderStep(r), ReadTurn(d, r))
  {
    if ReaderStep(r).reader.ReaderIdle? {
      ReadReturns(r);
      HandedAppend(d.done, ReadTurn(d, r).done[|d.done|]);
    } else {
      ReadGoesOn(r);
    }
  }

  lemma WriterReadsNothing(r: Ring, record: seq<byte>)
    requires 0 < |r.buf|
    ensures WriterStep(r, record).reader == r.reader && WriterStep(r, record).consumed == r.consumed
  {
  }

  lemma {:induction false} RunReadsTold(capacity: nat, turns: seq<Turn>)
    requires ValidCapacity(capacity)
    ensures ReadsTold(Run(New(capacity), turns), ReadsOf(New(capacity), turns))
  {
    var n := |turns|;
    if n > 0 {
      RunReadsTold(capacity, turns[..n - 1]);
      RunInv(capacity, turns[..n - 1]);
      var r := Run(New(capacity), turns[..n - 1]);
      match turns[n - 1]
      case Writer(record) => WriterReadsNothing(r, record);
      case Reader => ReadTurnTold(r, ReadsOf(New(capacity), turns[..n - 1]));
    }
  }

  /** In every interleaving: what was consumed is exactly what the reads handed out, in that order. A
      read hands out the oldest record there is when it returns, and `None` if there is none, and it
      returns by its seventh step. */
  lemma ReadAnswers(capacity: nat, turns: seq<Turn>)
    requires ValidCapacity(capacity)
    ensures var r, d := Run(New(capacity), turns), ReadsOf(New(capacity), turns);
            && r.consumed == HandedOut(d.done)
            && (forall k :: 0 <= k < |d.done| ==> d.done[k].answer == d.done[k].oldest)
            && d.steps <= 6
  {
    RunReadsTold(capacity, turns);
  }
}
