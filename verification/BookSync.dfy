/** Keeping a book in step with a snapshot-plus-delta feed (crates/bowst-book/src/sync.rs).

    `OnDelta`, `OnSnapshot` and `Reset` say what each handler does to a `SyncState`, in which a
    buffered delta carries its own updates; the class `BookSync` keeps all buffered updates in one
    flat list, as the engine does, and is proved to do the same. */
module BookSyncs {
  import opened Common
  import opened Ladders
  import opened Books

  datatype SyncConfig = SyncConfig(bufferedMessages: nat, bufferedUpdates: nat)

  /** One delta message: the sequence numbers it covers and the levels it sets. */
  datatype Delta = Delta(first: u64, last: u64, updates: seq<LevelUpdate>)

  datatype SyncError =
    | Gap(expected: u64, first: u64, last: u64)
    | SnapshotTooOld(snapshot: u64, firstBuffered: u64)
    | CrossedBook(bid: int, ask: int)
    | Invalid(error: BookError)

  datatype DeltaOutcome = DeltaApplied | Buffered | Stale

  /** `live` is the last sequence number applied, or `None` while awaiting a snapshot. */
  datatype SyncState = SyncState(book: BookState, live: Option<u64>, pending: seq<Delta>, config: SyncConfig)

  /** `SeqRange::continues`: the range starts no later than just after `prev`. */
  predicate Continues(first: u64, prev: u64) {
    first <= SatAdd(prev, 1)
  }

  function TotalUpdates(pending: seq<Delta>): nat {
    if pending == [] then 0
    else TotalUpdates(pending[..|pending| - 1]) + |pending[|pending| - 1].updates|
  }

  /** Delta `b` may follow `a` in the buffer: it ends later and leaves no gap. */
  predicate Follows(a: Delta, b: Delta) {
    a.last < b.last && Continues(b.first, a.last)
  }

  ghost predicate Chain(pending: seq<Delta>) {
    var n := |pending|;
    n == 0 ||
    (&& pending[n - 1].first <= pending[n - 1].last
     && (n > 1 ==> Follows(pending[n - 2], pending[n - 1]))
     && Chain(pending[..n - 1]))
  }

  /** The run invariant of a sync: what is buffered is one unbroken chain within the limits; a live
      book is uncrossed and has nothing buffered; a book that is not live is empty. */
  ghost predicate SyncInv(s: SyncState) {
    && WellFormedBook(s.book)
    && 0 < s.config.bufferedMessages && 0 < s.config.bufferedUpdates
    && Chain(s.pending)
    && |s.pending| <= s.config.bufferedMessages
    && TotalUpdates(s.pending) <= s.config.bufferedUpdates
    && (if s.live.Some? then s.pending == [] && !Crossed(s.book) else EmptyBook(s.book))
  }

  function Reset(s: SyncState): SyncState {
    s.(book := ClearedBook(s.book), live := None, pending := [])
  }

  /** Goes live with `book` at `last`, unless it is crossed. */
  function GoLive(s: SyncState, book: BookState, last: u64): (SyncState, Option<SyncError>) {
    if Crossed(book) then (Reset(s), Some(CrossedBook(Best(book.bids).value.price, Best(book.asks).value.price)))
    else (s.(book := book, live := Some(last), pending := []), None)
  }

  /** The chain a new delta extends: dropped if it would break, or if it is full. */
  function Extendable(s: SyncState, d: Delta): seq<Delta> {
    var n := |s.pending|;
    var kept := if n > 0 && !Continues(d.first, s.pending[n - 1].last) then [] else s.pending;
    if |kept| >= s.config.bufferedMessages then [] else kept
  }

  function Buffer(s: SyncState, d: Delta): (SyncState, DeltaOutcome) {
    var n := |s.pending|;
    if n > 0 && d.last <= s.pending[n - 1].last then (s, Stale)
    else
      var kept := Extendable(s, d);
      if TotalUpdates(kept) + |d.updates| > s.config.bufferedUpdates then (s.(pending := []), Buffered)
      else (s.(pending := kept + [d]), Buffered)
  }

  function OnDelta(s: SyncState, d: Delta): (SyncState, Result<DeltaOutcome, SyncError>)
    requires WellFormedBook(s.book)
  {
    if s.live.None? then
      var (s', outcome) := Buffer(s, d);
      (s', Ok(outcome))
    else
      var last := s.live.value;
      if d.last <= last then (s, Ok(Stale))
      else if !Continues(d.first, last) then
        (Buffer(Reset(s), d).0, Err(Gap(SatAdd(last, 1), d.first, d.last)))
      else
        match ApplyAll(s.book, d.updates)
        case Err(e) => (Reset(s), Err(Invalid(e)))
        case Ok(book) =>
          var (s', crossed) := GoLive(s, book, d.last);
          (s', if crossed.Some? then Err(crossed.value) else Ok(DeltaApplied))
  }

  /** How far a loaded snapshot has been brought forward through the buffered deltas. */
  datatype Replayed = Caught(book: BookState, cursor: u64) | TooOld(firstBuffered: u64) | BadUpdate(error: BookError)

  function ReplayOne(r: Replayed, d: Delta): (r': Replayed)
    requires r.Caught? ==> WellFormedBook(r.book)
    ensures r'.Caught? ==> WellFormedBook(r'.book)
  {
    match r
    case TooOld(_) => r
    case BadUpdate(_) => r
    case Caught(book, cursor) =>
      if d.last <= cursor then r
      else if !Continues(d.first, cursor) then TooOld(d.first)
      else
        match ApplyAll(book, d.updates)
        case Err(e) => BadUpdate(e)
        case Ok(book') => Caught(book', d.last)
  }

  function Replay(book: BookState, seqNo: u64, pending: seq<Delta>): (r: Replayed)
    requires WellFormedBook(book)
    ensures r.Caught? ==> WellFormedBook(r.book)
  {
    var n := |pending|;
    if n == 0 then Caught(book, seqNo) else ReplayOne(Replay(book, seqNo, pending[..n - 1]), pending[n - 1])
  }

  function OnSnapshot(s: SyncState, seqNo: u64, bids: seq<Level>, asks: seq<Level>)
    : (SyncState, Result<bool, SyncError>)
    requires WellFormedBook(s.book)
  {
    if s.live.Some? && seqNo < s.live.value then (s, Ok(false))
    else
      var (loaded, r) := LoadBook(s.book, bids, asks);
      if r.Err? then (Reset(s), Err(Invalid(r.error)))
      else
        LoadBookSets(s.book, bids, asks);
        match Replay(loaded, seqNo, s.pending)
        case TooOld(first) => (s.(book := ClearedBook(s.book), live := None), Err(SnapshotTooOld(seqNo, first)))
        case BadUpdate(e) => (Reset(s), Err(Invalid(e)))
        case Caught(book, cursor) =>
          var (s', crossed) := GoLive(s, book, cursor);
          (s', if crossed.Some? then Err(crossed.value) else Ok(true))
  }

  // ---------------------------------------------------------------- the run invariant

  lemma ClearedWellFormed(b: BookState)
    requires WellFormedBook(b)
    ensures WellFormedBook(ClearedBook(b)) && EmptyBook(ClearedBook(b))
  {
  }

  lemma TotalAppend(pending: seq<Delta>, d: Delta)
    ensures TotalUpdates(pending + [d]) == TotalUpdates(pending) + |d.updates|
  {
    assert (pending + [d])[..|pending|] == pending;
  }

  lemma ChainAppend(pending: seq<Delta>, d: Delta)
    requires Chain(pending) && d.first <= d.last
    requires pending != [] ==> Follows(pending[|pending| - 1], d)
    ensures Chain(pending + [d])
  {
    assert (pending + [d])[..|pending|] == pending;
  }

  lemma ExtendableChain(s: SyncState, d: Delta)
    requires SyncInv(s) && d.first <= d.last
    requires s.pending != [] ==> s.pending[|s.pending| - 1].last < d.last
    ensures Chain(Extendable(s, d) + [d])
    ensures |Extendable(s, d)| < s.config.bufferedMessages
    ensures Extendable(s, d) == s.pending || Extendable(s, d) == []
  {
    ChainAppend(Extendable(s, d), d);
  }

  lemma PendingInv(s: SyncState, pending: seq<Delta>)
    requires SyncInv(s) && s.live.None? && Chain(pending)
    requires |pending| <= s.config.bufferedMessages && TotalUpdates(pending) <= s.config.bufferedUpdates
    ensures SyncInv(s.(pending := pending))
  {
  }

  lemma BufferInv(s: SyncState, d: Delta)
    requires SyncInv(s) && s.live.None? && d.first <= d.last
    ensures SyncInv(Buffer(s, d).0)
    ensures forall x :: x in Buffer(s, d).0.pending ==> x == d || x in s.pending
  {
    var kept := Extendable(s, d);
    if s.pending == [] || s.pending[|s.pending| - 1].last < d.last {
      ExtendableChain(s, d);
      TotalAppend(kept, d);
      if TotalUpdates(kept) + |d.updates| > s.config.bufferedUpdates {
        PendingInv(s, []);
      } else {
        PendingInv(s, kept + [d]);
      }
    }
  }

  lemma ResetInv(s: SyncState)
    requires SyncInv(s)
    ensures SyncInv(Reset(s))
  {
    ClearedWellFormed(s.book);
  }

  /** Every delta keeps the run invariant, and every error takes the book down. */
  lemma OnDeltaInv(s: SyncState, d: Delta)
    requires SyncInv(s) && d.first <= d.last
    ensures SyncInv(OnDelta(s, d).0)
    ensures OnDelta(s, d).1.Err? ==> OnDelta(s, d).0.live.None?
  {
    ResetInv(s);
    if s.live.None? {
      BufferInv(s, d);
    } else if d.last > s.live.value && !Continues(d.first, s.live.value) {
      BufferInv(Reset(s), d);
    }
  }

  /** Only the first buffered delta can be too new for a snapshot: once one is skipped or applied,
      the chain carries on unbroken. */
  lemma {:induction false} ReplayChain(book: BookState, seqNo: u64, pending: seq<Delta>)
    requires WellFormedBook(book) && Chain(pending)
    ensures var r := Replay(book, seqNo, pending);
            && (r.TooOld? <==> pending != [] && pending[0].last > seqNo && !Continues(pending[0].first, seqNo))
            && (r.TooOld? ==> r.firstBuffered == pending[0].first)
            && (r.Caught? ==> r.cursor >= seqNo && (pending != [] ==> r.cursor >= pending[|pending| - 1].last))
  {
    var n := |pending|;
    if n > 0 {
      ReplayChain(book, seqNo, pending[..n - 1]);
    }
  }

  lemma OnSnapshotInv(s: SyncState, seqNo: u64, bids: seq<Level>, asks: seq<Level>)
    requires SyncInv(s)
    ensures SyncInv(OnSnapshot(s, seqNo, bids, asks).0)
    ensures OnSnapshot(s, seqNo, bids, asks).1.Err? ==> OnSnapshot(s, seqNo, bids, asks).0.live.None?
  {
    ResetInv(s);
    ClearedWellFormed(s.book);
    if LoadBook(s.book, bids, asks).1.Ok? {
      LoadBookSets(s.book, bids, asks);
      ReplayChain(LoadBook(s.book, bids, asks).0, seqNo, s.pending);
    }
  }

  /** A snapshot is too old exactly when it loads but the first buffered delta starts after a gap;
      then nothing has been applied and the buffer is kept whole for the next snapshot. */
  lemma SnapshotTooOldIff(s: SyncState, seqNo: u64, bids: seq<Level>, asks: seq<Level>)
    requires SyncInv(s)
    ensures var (s', r) := OnSnapshot(s, seqNo, bids, asks);
            && ((r.Err? && r.error.SnapshotTooOld?) <==>
                 && s.pending != [] && s.pending[0].last > seqNo && !Continues(s.pending[0].first, seqNo)
                 && LoadBook(s.book, bids, asks).1.Ok?)
            && (r.Err? && r.error.SnapshotTooOld? ==>
                 && r.error == SnapshotTooOld(seqNo, s.pending[0].first)
                 && s.live.None? && s' == s)
  {
    if LoadBook(s.book, bids, asks).1.Ok? {
      LoadBookSets(s.book, bids, asks);
      ReplayChain(LoadBook(s.book, bids, asks).0, seqNo, s.pending);
    }
  }

  // ---------------------------------------------------------------- what every message is answered

  /** The updates of the buffered deltas that end after `seqNo`, in order. */
  function NewerUpdates(pending: seq<Delta>, seqNo: u64): seq<LevelUpdate> {
    if pending == [] then []
    else
      var d := pending[|pending| - 1];
      NewerUpdates(pending[..|pending| - 1], seqNo) + if d.last > seqNo then d.updates else []
  }

  /** The later of a snapshot and the last buffered delta. */
  function LatestOf(pending: seq<Delta>, seqNo: u64): u64 {
    if pending != [] && pending[|pending| - 1].last > seqNo then pending[|pending| - 1].last else seqNo
  }

  /** The first buffered delta starts after a gap. */
  predicate GapAfter(pending: seq<Delta>, seqNo: u64) {
    pending != [] && pending[0].last > seqNo && pending[0].first > seqNo + 1
  }

  /** A side has taken the updates that are for it. */
  ghost predicate Took(b: BookState, b': BookState, updates: seq<LevelUpdate>)
    requires WellFormedBook(b)
  {
    b' == BookState(RunLadder(b.bids, OpsOf(updates, Buy)), RunLadder(b.asks, OpsOf(updates, Sell)))
  }

  lemma TookMore(b: BookState, b': BookState, b'': BookState, updates: seq<LevelUpdate>, more: seq<LevelUpdate>)
    requires WellFormedBook(b) && WellFormedBook(b') && Took(b, b', updates) && Took(b', b'', more)
    ensures Took(b, b'', updates + more)
  {
    OpsSplit(updates, more, Buy);
    OpsSplit(updates, more, Sell);
    RunSplit(b.bids, OpsOf(updates, Buy), OpsOf(more, Buy));
    RunSplit(b.asks, OpsOf(updates, Sell), OpsOf(more, Sell));
  }

  ghost predicate ReplayRight(book: BookState, seqNo: u64, pending: seq<Delta>, r: Replayed)
    requires WellFormedBook(book)
  {
    var newer := NewerUpdates(pending, seqNo);
    match r
    case TooOld(_) => false
    case BadUpdate(e) => FirstFault(newer, e)
    case Caught(b, cursor) => AllValid(newer) && Took(book, b, newer) && cursor == LatestOf(pending, seqNo)
  }

  /** A replay that meets no gap applies every newer update, or fails at the first that is not valid. */
  lemma {:induction false} ReplayAnswers(book: BookState, seqNo: u64, pending: seq<Delta>)
    requires WellFormedBook(book) && Chain(pending) && !GapAfter(pending, seqNo)
    ensures ReplayRight(book, seqNo, pending, Replay(book, seqNo, pending))
  {
    var n := |pending|;
    if n > 0 {
      ReplayAnswers(book, seqNo, pending[..n - 1]);
      ReplayChain(book, seqNo, pending);
      ReplayOneAnswers(book, seqNo, pending[..n - 1], pending[n - 1], Replay(book, seqNo, pending[..n - 1]));
      assert pending[..n - 1] + [pending[n - 1]] == pending;
    }
  }

  lemma ReplayOneAnswers(book: BookState, seqNo: u64, init: seq<Delta>, d: Delta, before: Replayed)
    requires WellFormedBook(book) && ReplayRight(book, seqNo, init, before)
    requires before.Caught? ==> WellFormedBook(before.book)
    requires init != [] ==> init[|init| - 1].last < d.last
    requires !ReplayOne(before, d).TooOld?
    ensures ReplayRight(book, seqNo, init + [d], ReplayOne(before, d))
  {
    var newer := NewerUpdates(init, seqNo);
    assert (init + [d])[..|init|] == init;
    assert newer + [] == newer;
    if before.BadUpdate? {
      FaultStaysFirst(newer, if d.last > seqNo then d.updates else [], before.error);
    } else if d.last > before.cursor {
      ApplyAllAnswers(before.book, d.updates);
      BothValid(newer, d.updates);
      if AllValid(d.updates) {
        TookMore(book, before.book, ApplyAll(before.book, d.updates).value, newer, d.updates);
      } else {
        FaultLater(newer, d.updates, ApplyAll(before.book, d.updates).error);
      }
    }
  }

  /** The sync is down: nothing is known, and nothing is buffered. */
  predicate WentDown(s: SyncState, s': SyncState) {
    && s'.live.None? && s'.pending == [] && s'.config == s.config
    && s'.book == BookState(s.book.bids.(levels := [], horizon := None), s.book.asks.(levels := [], horizon := None))
  }

  /** The error names the best bid and the best ask, which cross. */
  ghost predicate SaysCrossed(b: BookState, e: SyncError) {
    e.CrossedBook? && Crosses(b) && IsBest(b.bids, e.bid) && IsBest(b.asks, e.ask)
  }

  /** The book has been loaded and has taken the updates. */
  ghost predicate Rebuilt(s: SyncState, b: BookState, bids: seq<Level>, asks: seq<Level>, updates: seq<LevelUpdate>)
    requires WellFormedBook(s.book)
  {
    && b.bids == RunLadder(s.book.bids, [OpLoad(bids)] + OpsOf(updates, Buy))
    && b.asks == RunLadder(s.book.asks, [OpLoad(asks)] + OpsOf(updates, Sell))
  }

  lemma RunLoaded(l: LadderState, input: seq<Level>, ops: seq<LadderOp>)
    requires WellFormed(l) && Load(l, input).1.Ok?
    ensures WellFormed(Load(l, input).0)
    ensures RunLadder(l, [OpLoad(input)] + ops) == RunLadder(Load(l, input).0, ops)
  {
    LoadSets(l, input);
    assert [OpLoad(input)][..0] == [];
    RunSplit(l, [OpLoad(input)], ops);
  }

  /** What is wrong with one of the lists of a snapshot. */
  ghost predicate ListFault(bids: seq<Level>, asks: seq<Level>, e: BookError) {
    FaultIn(Buy, bids, e) || FaultIn(Sell, asks, e)
  }

  /** A book loads exactly if both lists are acceptable; an error is about one of them and empties both sides. */
  lemma LoadBookAnswers(s: SyncState, bids: seq<Level>, asks: seq<Level>)
    requires WellFormedBook(s.book)
    ensures var (b, r) := LoadBook(s.book, bids, asks);
            && (r.Ok? <==> Acceptable(Buy, s.book.bids.capacity, bids) && Acceptable(Sell, s.book.asks.capacity, asks))
            && (r.Err? ==> ListFault(bids, asks, r.error) && WentDown(s, s.(book := b, live := None, pending := [])))
            && (r.Ok? ==> b == BookState(Load(s.book.bids, bids).0, Load(s.book.asks, asks).0))
  {
    LoadKeepsBest(s.book.bids, bids);
    LoadKeepsBest(s.book.asks, asks);
    if Load(s.book.bids, bids).1.Err? { LoadErrorIsFault(s.book.bids, bids); }
    else if Load(s.book.asks, asks).1.Err? { LoadErrorIsFault(s.book.asks, asks); }
  }

  /** Everything a snapshot can be answered, by what it lists and what is buffered. */
  ghost predicate SnapshotAnswered(s: SyncState, seqNo: u64, bids: seq<Level>, asks: seq<Level>, s': SyncState,
                                   r: Result<bool, SyncError>)
    requires WellFormedBook(s.book)
  {
    var newer := NewerUpdates(s.pending, seqNo);
    if s.live.Some? && seqNo < s.live.value then s' == s && r == Ok(false)
    else if !Acceptable(Buy, s.book.bids.capacity, bids) || !Acceptable(Sell, s.book.asks.capacity, asks) then
      WentDown(s, s') && r.Err? && r.error.Invalid? && ListFault(bids, asks, r.error.error)
    else if GapAfter(s.pending, seqNo) then s' == s && r == Err(SnapshotTooOld(seqNo, s.pending[0].first))
    else if !AllValid(newer) then
      WentDown(s, s') && r.Err? && r.error.Invalid? && FirstFault(newer, r.error.error)
    else
      exists b :: Rebuilt(s, b, bids, asks, newer) &&
        if Crosses(b) then WentDown(s, s') && r.Err? && SaysCrossed(b, r.error)
        else s' == s.(book := b, live := Some(LatestOf(s.pending, seqNo)), pending := []) && r == Ok(true)
  }

  lemma SnapshotAnswers(s: SyncState, seqNo: u64, bids: seq<Level>, asks: seq<Level>)
    requires SyncInv(s)
    ensures var (s', r) := OnSnapshot(s, seqNo, bids, asks);
            SnapshotAnswered(s, seqNo, bids, asks, s', r)
  {
    LoadBookAnswers(s, bids, asks);
    if LoadBook(s.book, bids, asks).1.Ok? {
      var loaded := LoadBook(s.book, bids, asks).0;
      LoadBookSets(s.book, bids, asks);
      ReplayChain(loaded, seqNo, s.pending);
      if !GapAfter(s.pending, seqNo) && !(s.live.Some? && seqNo < s.live.value) {
        LoadedAnswers(s, seqNo, bids, asks, loaded);
      }
    }
  }

  /** A snapshot that loads and meets no gap. */
  lemma LoadedAnswers(s: SyncState, seqNo: u64, bids: seq<Level>, asks: seq<Level>, loaded: BookState)
    requires SyncInv(s) && WellFormedBook(loaded) && LoadBook(s.book, bids, asks) == (loaded, Ok(()))
    requires !(s.live.Some? && seqNo < s.live.value) && !GapAfter(s.pending, seqNo)
    requires Acceptable(Buy, s.book.bids.capacity, bids) && Acceptable(Sell, s.book.asks.capacity, asks)
    ensures var (s', r) := OnSnapshot(s, seqNo, bids, asks);
            SnapshotAnswered(s, seqNo, bids, asks, s', r)
  {
    var newer, replayed := NewerUpdates(s.pending, seqNo), Replay(loaded, seqNo, s.pending);
    ReplayAnswers(loaded, seqNo, s.pending);
    if replayed.Caught? {
      RebuiltBook(s, bids, asks, newer, loaded, replayed.book);
      GoLiveAnswers(s, replayed.book, replayed.cursor);
    } else {
      var k :| FaultAt(newer, replayed.error, k);
    }
  }

  lemma RebuiltBook(s: SyncState, bids: seq<Level>, asks: seq<Level>, updates: seq<LevelUpdate>, loaded: BookState,
                    b: BookState)
    requires WellFormedBook(s.book) && WellFormedBook(loaded) && LoadBook(s.book, bids, asks) == (loaded, Ok(()))
    requires Took(loaded, b, updates)
    ensures Rebuilt(s, b, bids, asks, updates)
  {
    RunLoaded(s.book.bids, bids, OpsOf(updates, Buy));
    RunLoaded(s.book.asks, asks, OpsOf(updates, Sell));
  }

  /** Everything a delta can be answered while the sync is live. */
  ghost predicate DeltaAnswered(s: SyncState, d: Delta, s': SyncState, r: Result<DeltaOutcome, SyncError>)
    requires WellFormedBook(s.book) && s.live.Some?
  {
    var last := s.live.value;
    if d.last <= last then s' == s && r == Ok(Stale)
    else if d.first > last + 1 then
      && r == Err(Gap(last + 1, d.first, d.last))
      && WentDown(s, s'.(pending := []))
      && s'.pending == if |d.updates| <= s.config.bufferedUpdates then [d] else []
    else if !AllValid(d.updates) then
      WentDown(s, s') && r.Err? && r.error.Invalid? && FirstFault(d.updates, r.error.error)
    else
      exists b :: Took(s.book, b, d.updates) &&
        if Crosses(b) then WentDown(s, s') && r.Err? && SaysCrossed(b, r.error)
        else s' == s.(book := b, live := Some(d.last)) && r == Ok(DeltaApplied)
  }

  lemma DeltaAnswers(s: SyncState, d: Delta)
    requires SyncInv(s) && s.live.Some? && d.first <= d.last
    ensures var (s', r) := OnDelta(s, d); DeltaAnswered(s, d, s', r)
  {
    if d.last > s.live.value && d.first <= s.live.value + 1 {
      AppliesAnswers(s, d);
    } else if d.last > s.live.value {
      assert [] + [d] == [d];
    }
  }

  lemma AppliesAnswers(s: SyncState, d: Delta)
    requires SyncInv(s) && s.live.Some? && d.first <= s.live.value + 1 && s.live.value < d.last
    ensures var (s', r) := OnDelta(s, d); DeltaAnswered(s, d, s', r)
  {
    ApplyAllAnswers(s.book, d.updates);
    if ApplyAll(s.book, d.updates).Ok? {
      var b := ApplyAll(s.book, d.updates).value;
      assert Took(s.book, b, d.updates);
      GoLiveAnswers(s, b, d.last);
    }
  }

  /** A book is used unless it is crossed. */
  lemma GoLiveAnswers(s: SyncState, b: BookState, last: u64)
    requires WellFormedBook(b)
    ensures var (s', e) := GoLive(s, b, last);
            if Crosses(b) then WentDown(s, s') && e.Some? && SaysCrossed(b, e.value)
            else s' == s.(book := b, live := Some(last), pending := []) && e.None?
  {
    CrossedIff(b);
  }

  /** What may be buffered: an unbroken chain within both limits. */
  ghost predicate Fits(config: SyncConfig, pending: seq<Delta>) {
    Chain(pending) && |pending| <= config.bufferedMessages && TotalUpdates(pending) <= config.bufferedUpdates
  }

  /** While no snapshot has been used, a delta that is not stale is kept with what is buffered if all of
      it may be; if there are only too many updates, nothing is kept; and if the chain breaks or there are
      too many messages, it starts a new chain by itself, as long as it fits. */
  lemma BufferAnswers(s: SyncState, d: Delta)
    requires SyncInv(s) && s.live.None? && d.first <= d.last
    ensures var (s', r) := OnDelta(s, d);
            && s' == s.(pending := s'.pending)
            && (if s.pending != [] && d.last <= s.pending[|s.pending| - 1].last then s' == s && r == Ok(Stale)
                else
                  && r == Ok(Buffered)
                  && s'.pending == if Fits(s.config, s.pending + [d]) then s.pending + [d]
                                   else if Chain(s.pending + [d]) && |s.pending| < s.config.bufferedMessages then []
                                   else if Fits(s.config, [d]) then [d] else [])
  {
    if s.pending == [] || d.last > s.pending[|s.pending| - 1].last {
      FitsMore(s, d);
      FitsAlone(s, d);
      ChainIff(s.pending, d);
      BufferIs(s, d);
    }
  }

  lemma FitsMore(s: SyncState, d: Delta)
    requires SyncInv(s) && d.first <= d.last
    ensures Fits(s.config, s.pending + [d]) <==>
              && (s.pending != [] ==> Follows(s.pending[|s.pending| - 1], d))
              && |s.pending| < s.config.bufferedMessages
              && TotalUpdates(s.pending) + |d.updates| <= s.config.bufferedUpdates
  {
    ChainIff(s.pending, d);
    TotalAppend(s.pending, d);
  }

  lemma FitsAlone(s: SyncState, d: Delta)
    requires SyncInv(s) && d.first <= d.last
    ensures Fits(s.config, [d]) <==> |d.updates| <= s.config.bufferedUpdates
  {
    assert [] + [d] == [d];
    ChainIff([], d);
    TotalAppend([], d);
  }

  lemma BufferIs(s: SyncState, d: Delta)
    requires SyncInv(s) && d.first <= d.last
    requires s.pending != [] ==> s.pending[|s.pending| - 1].last < d.last
    ensures var follows := s.pending != [] ==> Follows(s.pending[|s.pending| - 1], d);
            var goesOn := follows && |s.pending| < s.config.bufferedMessages;
            var kept := if goesOn then s.pending else [];
            var total := if goesOn then TotalUpdates(s.pending) else 0;
            var pending := if total + |d.updates| <= s.config.bufferedUpdates then kept + [d] else [];
            Buffer(s, d) == (s.(pending := pending), Buffered)
  {
  }

  lemma ChainIff(pending: seq<Delta>, d: Delta)
    requires Chain(pending) && d.first <= d.last
    ensures Chain(pending + [d]) <==> (pending != [] ==> Follows(pending[|pending| - 1], d))
  {
    assert (pending + [d])[..|pending|] == pending;
  }

  // ---------------------------------------------------------------- the flat buffer

  /** A buffered message: where its updates lie in the flat list of buffered updates. */
  datatype Pending = Pending(first: u64, last: u64, start: nat, len: nat)

  /** The messages' spans lie one after the other and cover `flat` exactly. */
  ghost predicate Partition(pending: seq<Pending>, flat: seq<LevelUpdate>) {
    var n := |pending|;
    if n == 0 then flat == []
    else
      && pending[n - 1].start + pending[n - 1].len == |flat|
      && Partition(pending[..n - 1], flat[..pending[n - 1].start])
  }

  ghost function Unflatten(pending: seq<Pending>, flat: seq<LevelUpdate>): (r: seq<Delta>)
    requires Partition(pending, flat)
    ensures |r| == |pending| && TotalUpdates(r) == |flat|
  {
    var n := |pending|;
    if n == 0 then []
    else
      var m := pending[n - 1];
      var r := Unflatten(pending[..n - 1], flat[..m.start]);
      TotalAppend(r, Delta(m.first, m.last, flat[m.start..]));
      r + [Delta(m.first, m.last, flat[m.start..])]
  }

  lemma UnflattenAppend(pending: seq<Pending>, flat: seq<LevelUpdate>, m: Pending, updates: seq<LevelUpdate>)
    requires Partition(pending, flat) && m.start == |flat| && m.len == |updates|
    ensures Partition(pending + [m], flat + updates)
    ensures Unflatten(pending + [m], flat + updates)
         == Unflatten(pending, flat) + [Delta(m.first, m.last, updates)]
  {
    assert (pending + [m])[..|pending|] == pending;
    assert (flat + updates)[..m.start] == flat;
    assert (flat + updates)[m.start..] == updates;
  }

  /** The buffered message at `k` is the part of the flat list its span names. */
  lemma {:induction false} UnflattenAt(pending: seq<Pending>, flat: seq<LevelUpdate>, k: nat)
    requires Partition(pending, flat) && k < |pending|
    ensures pending[k].start + pending[k].len <= |flat|
    ensures Unflatten(pending, flat)[k]
         == Delta(pending[k].first, pending[k].last, flat[pending[k].start..pending[k].start + pending[k].len])
  {
    var n := |pending|;
    var m := pending[n - 1];
    if k == n - 1 {
      assert flat[m.start..m.start + m.len] == flat[m.start..];
    } else {
      UnflattenAt(pending[..n - 1], flat[..m.start], k);
    }
  }

  lemma ReplayNext(book: BookState, seqNo: u64, pending: seq<Delta>, k: nat)
    requires WellFormedBook(book) && k < |pending|
    ensures Replay(book, seqNo, pending[..k + 1]) == ReplayOne(Replay(book, seqNo, pending[..k]), pending[k])
  {
    assert pending[..k + 1][..k] == pending[..k];
  }

  lemma {:induction false} ReplayStops(book: BookState, seqNo: u64, pending: seq<Delta>, k: nat)
    requires WellFormedBook(book) && k <= |pending| && !Replay(book, seqNo, pending[..k]).Caught?
    ensures Replay(book, seqNo, pending) == Replay(book, seqNo, pending[..k])
    decreases |pending|
  {
    if k == |pending| {
      assert pending[..k] == pending;
    } else {
      var rest := pending[..|pending| - 1];
      assert rest[..k] == pending[..k];
      ReplayStops(book, seqNo, rest, k);
    }
  }

  lemma {:induction false} ApplyAllStops(book: BookState, updates: seq<LevelUpdate>, k: nat)
    requires WellFormedBook(book) && k <= |updates| && ApplyAll(book, updates[..k]).Err?
    ensures ApplyAll(book, updates) == ApplyAll(book, updates[..k])
    decreases |updates|
  {
    if k == |updates| {
      assert updates[..k] == updates;
    } else {
      var rest := updates[..|updates| - 1];
      assert rest[..k] == updates[..k];
      ApplyAllStops(book, rest, k);
    }
  }

  // ---------------------------------------------------------------- the sync itself

  /** What the replay loop returns and leaves in the book, for each way a replay can end. */
  ghost predicate Answers(seqNo: u64, replayed: Replayed, r: Result<u64, SyncError>, book: BookState) {
    match replayed
    case Caught(b, cursor) => r == Ok(cursor) && book == b
    case TooOld(f) => r == Err(SnapshotTooOld(seqNo, f))
    case BadUpdate(e) => r == Err(Invalid(e))
  }

  class BookSync {
    const book: Book
    const config: SyncConfig
    var live: Option<u64>
    var pending: seq<Pending>
    var pendingUpdates: seq<LevelUpdate>

    /** The representation is sound: this is all the engine's code itself needs. */
    ghost predicate Sound()
      reads this, book, book.bids, book.asks
    {
      book.Valid() && Partition(pending, pendingUpdates)
    }

    ghost predicate Valid()
      reads this, book, book.bids, book.asks
    {
      Sound() && SyncInv(View())
    }

    ghost function View(): SyncState
      requires Sound()
      reads this, book, book.bids, book.asks
    {
      SyncState(book.View(), live, Unflatten(pending, pendingUpdates), config)
    }

    constructor (levelsPerSide: nat, config: SyncConfig)
      requires 0 < levelsPerSide && 0 < config.bufferedMessages && 0 < config.bufferedUpdates
      ensures Valid() && fresh(book) && fresh(book.bids) && fresh(book.asks)
      ensures live == None && pending == []
    {
      this.config := config;
      book := new Book(levelsPerSide);
      live := None;
      pending := [];
      pendingUpdates := [];
    }

    method ResetSync()
      requires Sound()
      modifies this, book.bids, book.asks
      ensures Sound() && View() == Reset(old(View()))
    {
      book.Clear();
      ClearedWellFormed(old(book.View()));
      live := None;
      pending := [];
      pendingUpdates := [];
    }

    method RestartBuffer()
      requires Sound()
      modifies this`pending, this`pendingUpdates
      ensures Sound() && View() == old(View()).(pending := [])
    {
      pending := [];
      pendingUpdates := [];
    }

    /** Copies updates into the flat buffer while there is room. */
    method PushUpdates(updates: seq<LevelUpdate>) returns (fits: bool)
      requires |pendingUpdates| <= config.bufferedUpdates
      modifies this`pendingUpdates
      ensures fits <==> old(|pendingUpdates|) + |updates| <= config.bufferedUpdates
      ensures fits ==> pendingUpdates == old(pendingUpdates) + updates
    {
      var i := 0;
      while i < |updates|
        invariant 0 <= i <= |updates|
        invariant pendingUpdates == old(pendingUpdates) + updates[..i]
        invariant |pendingUpdates| <= config.bufferedUpdates
      {
        if |pendingUpdates| >= config.bufferedUpdates {
          return false;
        }
        pendingUpdates := pendingUpdates + [updates[i]];
        i := i + 1;
      }
      assert updates[..i] == updates;
      return true;
    }

    method BufferDelta(first: u64, last: u64, updates: seq<LevelUpdate>) returns (outcome: DeltaOutcome)
      requires Sound() && 0 < config.bufferedMessages
      requires |pendingUpdates| <= config.bufferedUpdates
      modifies this`pending, this`pendingUpdates
      ensures Sound() && (View(), outcome) == Buffer(old(View()), Delta(first, last, updates))
    {
      var n := |pending|;
      if n > 0 {
        UnflattenAt(pending, pendingUpdates, n - 1);
        if last <= pending[n - 1].last {
          return Stale;
        }
        if !Continues(first, pending[n - 1].last) {
          RestartBuffer();
        }
      }
      if |pending| >= config.bufferedMessages {
        RestartBuffer();
      }
      ghost var d := Delta(first, last, updates);
      assert View() == old(View()).(pending := Extendable(old(View()), d));
      var m := Pending(first, last, |pendingUpdates|, |updates|);
      UnflattenAppend(pending, pendingUpdates, m, updates);
      var fits := PushUpdates(updates);
      if fits {
        pending := pending + [m];
      } else {
        pending := [];
        pendingUpdates := [];
      }
      return Buffered;
    }

    /** Applies updates until one is invalid. */
    method ApplyUpdates(updates: seq<LevelUpdate>) returns (r: Result<(), BookError>)
      requires book.Valid()
      modifies book.bids, book.asks
      ensures book.Valid()
      ensures match ApplyAll(old(book.View()), updates)
              case Ok(b) => r == Ok(()) && book.View() == b
              case Err(e) => r == Err(e)
    {
      var i := 0;
      while i < |updates|
        invariant 0 <= i <= |updates|
        invariant book.Valid()
        invariant ApplyAll(old(book.View()), updates[..i]) == Ok(book.View())
      {
        assert updates[..i + 1][..i] == updates[..i];
        var applied := book.ApplyUpdate(updates[i]);
        if applied.Err? {
          ApplyAllStops(old(book.View()), updates, i + 1);
          return Err(applied.error);
        }
        i := i + 1;
      }
      assert updates[..i] == updates;
      return Ok(());
    }

    method CheckCrossed() returns (crossed: Option<SyncError>)
      requires Sound()
      modifies this, book.bids, book.asks
      ensures Sound()
      ensures crossed.None? <==> !Crossed(old(book.View()))
      ensures crossed.None? ==> View() == old(View())
      ensures crossed.Some? ==>
                && View() == Reset(old(View()))
                && crossed.value == CrossedBook(Best(old(book.View()).bids).value.price,
                    Best(old(book.View()).asks).value.price)
    {
      var bids, asks := book.bids.levels, book.asks.levels;
      if bids != [] && asks != [] && bids[|bids| - 1].price >= asks[|asks| - 1].price {
        ResetSync();
        return Some(CrossedBook(bids[|bids| - 1].price, asks[|asks| - 1].price));
      }
      return None;
    }

    method HandleDelta(first: u64, last: u64, updates: seq<LevelUpdate>) returns (r: Result<DeltaOutcome, SyncError>)
      requires Valid() && first <= last
      modifies this, book.bids, book.asks
      ensures Valid()
      ensures (View(), r) == OnDelta(old(View()), Delta(first, last, updates))
    {
      ghost var d := Delta(first, last, updates);
      OnDeltaInv(View(), d);
      if live.None? {
        var outcome := BufferDelta(first, last, updates);
        return Ok(outcome);
      }
      var reached := live.value;
      if last <= reached {
        return Ok(Stale);
      }
      if !Continues(first, reached) {
        ResetSync();
        var _ := BufferDelta(first, last, updates);
        return Err(Gap(SatAdd(reached, 1), first, last));
      }
      var applied := ApplyUpdates(updates);
      if applied.Err? {
        ResetSync();
        return Err(Invalid(applied.error));
      }
      live := Some(last);
      var crossed := CheckCrossed();
      if crossed.Some? {
        return Err(crossed.value);
      }
      return Ok(DeltaApplied);
    }

    /** One buffered message: skipped if the book is past it, refused if it starts after a gap. */
    method ReplayMessage(seqNo: u64, cursor: u64, message: Pending) returns (r: Result<u64, SyncError>)
      requires book.Valid() && message.start + message.len <= |pendingUpdates|
      modifies book.bids, book.asks
      ensures book.Valid()
      ensures var d := Delta(message.first, message.last, pendingUpdates[message.start..message.start + message.len]);
              Answers(seqNo, ReplayOne(Caught(old(book.View()), cursor), d), r, book.View())
    {
      if message.last <= cursor {
        return Ok(cursor);
      }
      if !Continues(message.first, cursor) {
        return Err(SnapshotTooOld(seqNo, message.first));
      }
      var applied := ApplyUpdates(pendingUpdates[message.start..message.start + message.len]);
      if applied.Err? {
        return Err(Invalid(applied.error));
      }
      return Ok(message.last);
    }

    /** Brings a loaded snapshot forward through the buffered deltas. `r` is the sequence number
        reached; an error leaves the book and state for the caller to clear up. */
    method ReplayPending(seqNo: u64) returns (r: Result<u64, SyncError>)
      requires Sound()
      modifies book.bids, book.asks
      ensures book.Valid()
      ensures Answers(seqNo, Replay(old(book.View()), seqNo, old(View()).pending), r, book.View())
    {
      ghost var b0 := book.View();
      ghost var deltas := Unflatten(pending, pendingUpdates);
      r := Ok(seqNo);
      var k := 0;
      while k < |pending|
        invariant 0 <= k <= |pending|
        invariant book.Valid() && r.Ok?
        invariant Replay(b0, seqNo, deltas[..k]) == Caught(book.View(), r.value)
      {
        UnflattenAt(pending, pendingUpdates, k);
        ReplayNext(b0, seqNo, deltas, k);
        r := ReplayMessage(seqNo, r.value, pending[k]);
        if r.Err? {
          ReplayStops(b0, seqNo, deltas, k + 1);
          return;
        }
        k := k + 1;
      }
      assert deltas[..k] == deltas;
    }

    /** Loads a snapshot into the book and replays what is buffered. Leaves the state alone. */
    method LoadAndReplay(seqNo: u64, bids: seq<Level>, asks: seq<Level>) returns (r: Result<u64, SyncError>)
      requires Sound()
      modifies book.bids, book.asks
      ensures book.Valid()
      ensures var (loaded, ok) := LoadBook(old(book.View()), bids, asks);
              if ok.Err? then r == Err(Invalid(ok.error))
              else
                && WellFormedBook(loaded)
                && Answers(seqNo, Replay(loaded, seqNo, old(View()).pending), r, book.View())
    {
      var ok := book.LoadSides(bids, asks);
      if ok.Err? {
        return Err(Invalid(ok.error));
      }
      r := ReplayPending(seqNo);
    }

    method HandleSnapshot(seqNo: u64, bids: seq<Level>, asks: seq<Level>) returns (r: Result<bool, SyncError>)
      requires Valid()
      modifies this, book.bids, book.asks
      ensures Sound() && (View(), r) == OnSnapshot(old(View()), seqNo, bids, asks)
      ensures Valid()
    {
      OnSnapshotInv(View(), seqNo, bids, asks);
      if live.Some? && seqNo < live.value {
        return Ok(false);
      }
      var caught := LoadAndReplay(seqNo, bids, asks);
      if caught.Err? {
        if caught.error.SnapshotTooOld? {
          book.Clear();
          live := None;
        } else {
          ResetSync();
        }
        return Err(caught.error);
      }
      pending, pendingUpdates, live := [], [], Some(caught.value);
      var crossed := CheckCrossed();
      if crossed.Some? {
        return Err(crossed.value);
      }
      return Ok(true);
    }
  }
}
