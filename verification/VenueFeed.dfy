/** The venue behind a feed, and what a synchronised book promises about it
    (crates/bowst-book/src/sync.rs, module documentation and `BookSync`).

    The venue is a history: the quantity resting at each side and price after each sequence number.
    Whatever deltas are lost, repeated or overlapping, and whenever snapshots arrive or the sync is
    reset, a live book shows the venue's own quantities at the last applied sequence number. */
module VenueFeed {
  import opened Common
  import opened Ladders
  import opened Books
  import opened BookSyncs

  type History = (int, Side, int) -> int

  /** A delta tells the truth: a price it mentions gets its quantity as of `last`, and a price it
      omits does not change from just before `first` up to `last`. */
  ghost predicate HonestAt(h: History, d: Delta, s: Side, p: int) {
    match Mention(d.updates, s, p)
    case Some(q) => q == h(d.last, s, p)
    case None => forall k :: d.first - 1 <= k <= d.last ==> h(k, s, p) == h(d.last, s, p)
  }

  ghost predicate Honest(h: History, d: Delta) {
    d.first <= d.last && forall s, p :: HonestAt(h, d, s, p)
  }

  /** A snapshot of some depth, taken at `seqNo`. */
  datatype Snapshot = Snapshot(seqNo: u64, bids: seq<Level>, asks: seq<Level>)

  /** The snapshot is right about this price: it lists the venue's quantity, or omits a price at
      which nothing rests. A truncated snapshot is right only up to its last level. */
  ghost predicate ExactAt(h: History, snap: Snapshot, s: Side, p: int) {
    QtyAt(if s.Buy? then snap.bids else snap.asks, p) == h(snap.seqNo, s, p)
  }

  /** The book shows the venue's quantities at `at`, wherever the snapshot it grew from was exact
      and the book still looks. */
  ghost predicate Tracks(h: History, snap: Snapshot, b: BookState, at: int) {
    forall s, p :: ExactAt(h, snap, s, p) && !Unknown(b, s, p) ==> Qty(b, s, p) == h(at, s, p)
  }

  datatype FeedEvent = Deliver(delta: Delta) | Load(snapshot: Snapshot) | Restart

  /** A sync together with the snapshot its book was last loaded from. */
  datatype Feed = Feed(sync: SyncState, loaded: Option<Snapshot>)

  function FeedStep(f: Feed, e: FeedEvent): Feed
    requires WellFormedBook(f.sync.book)
  {
    match e
    case Deliver(d) => f.(sync := OnDelta(f.sync, d).0)
    case Load(snap) =>
      var (s', r) := OnSnapshot(f.sync, snap.seqNo, snap.bids, snap.asks);
      Feed(s', if r == Ok(true) then Some(snap) else f.loaded)
    case Restart => f.(sync := Reset(f.sync))
  }

  ghost predicate HonestEvent(h: History, e: FeedEvent) {
    e.Deliver? ==> Honest(h, e.delta)
  }

  ghost predicate HonestBuffer(h: History, pending: seq<Delta>) {
    forall d :: d in pending ==> Honest(h, d)
  }

  ghost predicate FeedInv(h: History, f: Feed) {
    && SyncInv(f.sync)
    && HonestBuffer(h, f.sync.pending)
    && (f.sync.live.Some? ==> f.loaded.Some? && Tracks(h, f.loaded.value, f.sync.book, f.sync.live.value))
  }

  /** Applying an honest delta that leaves no gap moves the book from `at` to the delta's end. */
  lemma DeltaTracks(h: History, snap: Snapshot, b: BookState, at: u64, d: Delta)
    requires WellFormedBook(b) && Tracks(h, snap, b, at) && Honest(h, d)
    requires d.first <= at + 1 && at < d.last && ApplyAll(b, d.updates).Ok?
    ensures Tracks(h, snap, ApplyAll(b, d.updates).value, d.last)
  {
    ApplyAllSets(b, d.updates);
    var b' := ApplyAll(b, d.updates).value;
    forall s, p | ExactAt(h, snap, s, p) && !Unknown(b', s, p) ensures Qty(b', s, p) == h(d.last, s, p) {
      assert HonestAt(h, d, s, p);
      assert !Unknown(b, s, p);
    }
  }

  lemma ContinuesMeans(first: u64, last: u64, prev: u64)
    requires Continues(first, prev) && prev < last
    ensures first <= prev + 1
  {
  }

  lemma {:induction false} ReplayTracks(h: History, snap: Snapshot, b: BookState, pending: seq<Delta>)
    requires WellFormedBook(b) && Tracks(h, snap, b, snap.seqNo) && HonestBuffer(h, pending)
    requires Replay(b, snap.seqNo, pending).Caught?
    ensures Tracks(h, snap, Replay(b, snap.seqNo, pending).book, Replay(b, snap.seqNo, pending).cursor)
  {
    var n := |pending|;
    if n > 0 {
      ReplayTracks(h, snap, b, pending[..n - 1]);
      var before := Replay(b, snap.seqNo, pending[..n - 1]);
      if pending[n - 1].last > before.cursor {
        ContinuesMeans(pending[n - 1].first, pending[n - 1].last, before.cursor);
        DeltaTracks(h, snap, before.book, before.cursor, pending[n - 1]);
      }
    }
  }

  lemma DeliverKeeps(h: History, f: Feed, d: Delta)
    requires FeedInv(h, f) && Honest(h, d)
    ensures FeedInv(h, FeedStep(f, Deliver(d)))
  {
    var s := f.sync;
    OnDeltaInv(s, d);
    if s.live.None? {
      BufferInv(s, d);
    } else if d.last > s.live.value {
      if !Continues(d.first, s.live.value) {
        ResetInv(s);
        BufferInv(Reset(s), d);
      } else {
        ContinuesMeans(d.first, d.last, s.live.value);
        if ApplyAll(s.book, d.updates).Ok? {
          DeltaTracks(h, f.loaded.value, s.book, s.live.value, d);
        }
      }
    }
  }

  lemma LoadKeeps(h: History, f: Feed, snap: Snapshot)
    requires FeedInv(h, f)
    ensures FeedInv(h, FeedStep(f, Load(snap)))
  {
    var s := f.sync;
    OnSnapshotInv(s, snap.seqNo, snap.bids, snap.asks);
    if !(s.live.Some? && snap.seqNo < s.live.value) && LoadBook(s.book, snap.bids, snap.asks).1.Ok? {
      LoadBookSets(s.book, snap.bids, snap.asks);
      var loaded := LoadBook(s.book, snap.bids, snap.asks).0;
      if Replay(loaded, snap.seqNo, s.pending).Caught? {
        ReplayTracks(h, snap, loaded, s.pending);
      }
    }
  }

  lemma FeedStepKeeps(h: History, f: Feed, e: FeedEvent)
    requires FeedInv(h, f) && HonestEvent(h, e)
    ensures FeedInv(h, FeedStep(f, e))
  {
    match e
    case Deliver(d) => DeliverKeeps(h, f, d);
    case Load(snap) => LoadKeeps(h, f, snap);
    case Restart => ResetInv(f.sync);
  }

  /** What the engine's types rule out: a delta's range never runs backwards. */
  predicate ValidEvent(e: FeedEvent) {
    e.Deliver? ==> e.delta.first <= e.delta.last
  }

  lemma FeedStepInv(f: Feed, e: FeedEvent)
    requires SyncInv(f.sync) && ValidEvent(e)
    ensures SyncInv(FeedStep(f, e).sync)
  {
    match e
    case Deliver(d) => OnDeltaInv(f.sync, d);
    case Load(snap) => OnSnapshotInv(f.sync, snap.seqNo, snap.bids, snap.asks);
    case Restart => ResetInv(f.sync);
  }

  /** Any run of deltas, snapshots and resets, honest or not, keeps the sync's run invariant. */
  function RunFeed(start: Feed, events: seq<FeedEvent>): (f: Feed)
    requires SyncInv(start.sync) && forall e :: e in events ==> ValidEvent(e)
    ensures SyncInv(f.sync)
  {
    var n := |events|;
    if n == 0 then start
    else
      var before := RunFeed(start, events[..n - 1]);
      FeedStepInv(before, events[n - 1]);
      FeedStep(before, events[n - 1])
  }

  lemma {:induction false} RunKeeps(h: History, start: Feed, events: seq<FeedEvent>)
    requires FeedInv(h, start)
    requires forall e :: e in events ==> ValidEvent(e) && HonestEvent(h, e)
    ensures FeedInv(h, RunFeed(start, events))
  {
    var n := |events|;
    if n > 0 {
      RunKeeps(h, start, events[..n - 1]);
      FeedStepKeeps(h, RunFeed(start, events[..n - 1]), events[n - 1]);
    }
  }

  function NewSync(levelsPerSide: nat, config: SyncConfig): SyncState {
    SyncState(BookState(LadderState(Buy, levelsPerSide, [], None), LadderState(Sell, levelsPerSide, [], None)),
              None, [], config)
  }

  /** The promise of the feed: over every run of honest deltas, of any snapshots, and of resets,
      whenever the sync is live its uncrossed book shows the venue's quantity, as of the last
      sequence number applied, at every price that the loaded snapshot had right and that is not
      beyond the horizon of its side. */
  lemma LiveBookShowsVenue(h: History, levelsPerSide: nat, config: SyncConfig, events: seq<FeedEvent>)
    requires 0 < levelsPerSide && 0 < config.bufferedMessages && 0 < config.bufferedUpdates
    requires forall e :: e in events ==> ValidEvent(e) && HonestEvent(h, e)
    ensures var f := RunFeed(Feed(NewSync(levelsPerSide, config), None), events);
            f.sync.live.Some? ==>
              && !Crossed(f.sync.book) && f.loaded.Some?
              && forall s, p :: ExactAt(h, f.loaded.value, s, p) && !Unknown(f.sync.book, s, p) ==>
                   Qty(f.sync.book, s, p) == h(f.sync.live.value, s, p)
  {
    RunKeeps(h, Feed(NewSync(levelsPerSide, config), None), events);
  }
}
