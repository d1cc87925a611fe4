/** Pieces of the runs in which a right book fails its verification: lists of consecutive bids, messages
    that remove them, and the run that loads a book and verifies it once. */
module VerificationRuns {
  import opened Common
  import opened Ladders
  import opened Books
  import opened BookSyncs
  import VenueFeed
  import opened MdBooks
  import opened MdVerification

  // ---------------------------------------------------------------- bids and their removal

  /** One lot bid at each of the `n` prices from `lo` on, best first. */
  function Bids(lo: int, n: nat): seq<Level> {
    seq(n, j => Level(lo + n - 1 - j, 1))
  }

  lemma BidsShow(lo: int, n: nat, p: int)
    ensures QtyAt(Bids(lo, n), p) == if lo <= p < lo + n then 1 else 0
  {
    if lo <= p < lo + n { assert Bids(lo, n)[lo + n - 1 - p].price == p; }
  }

  lemma BidsLoad(l: LadderState, lo: int, n: nat)
    requires l.side == Buy && 0 < l.capacity && 0 < lo
    ensures Load(l, Bids(lo, n)).1.Ok? && Keeps(Load(l, Bids(lo, n)).0, Bids(lo, n))
    ensures Load(l, Bids(lo, n)).0.side == Buy && Load(l, Bids(lo, n)).0.capacity == l.capacity
  {
    LoadKeepsBest(l, Bids(lo, n));
    assert Acceptable(Buy, l.capacity, Bids(lo, n));
  }

  /** With room for all bids, the ladder shows them all and nothing else. */
  lemma AllBidsLoad(l: LadderState, lo: int, n: nat, p: int)
    requires l.side == Buy && n <= l.capacity && 0 < l.capacity && 0 < lo
    ensures Load(l, Bids(lo, n)).0.horizon.None?
    ensures QtyAt(Load(l, Bids(lo, n)).0.levels, p) == if lo <= p < lo + n then 1 else 0
  {
    BidsLoad(l, lo, n);
    LoadSets(l, Bids(lo, n));
    BidsShow(lo, n, p);
  }

  /** Removals of the `n` bids from 10 on. */
  function Removals(n: nat): seq<LevelUpdate> {
    seq(n, j => LevelUpdate(Buy, 10 + j, 0))
  }

  lemma {:induction false} RemovalsMention(n: nat, s: Side, p: int)
    ensures Mention(Removals(n), s, p) == if s.Buy? && 10 <= p < 10 + n then Some(0) else None
  {
    if n > 0 {
      assert Removals(n)[..n - 1] == Removals(n - 1);
      RemovalsMention(n - 1, s, p);
    }
  }

  /** Removals are always accepted, and change nothing but the levels of the bids. */
  lemma {:induction false} RemovalsApply(b: BookState, n: nat)
    requires WellFormedBook(b)
    ensures ApplyAll(b, Removals(n)).Ok?
    ensures var levels := ApplyAll(b, Removals(n)).value.bids.levels;
            ApplyAll(b, Removals(n)).value == b.(bids := b.bids.(levels := levels))
  {
    if n > 0 {
      assert Removals(n)[..n - 1] == Removals(n - 1);
      RemovalsApply(b, n - 1);
    }
  }

  /** The bids that removals leave. */
  function Left(b: BookState, n: nat): (r: LadderState)
    requires WellFormedBook(b)
    ensures WellFormed(r) && r == b.bids.(levels := r.levels)
    ensures ApplyAll(b, Removals(n)) == Ok(b.(bids := r))
  {
    RemovalsApply(b, n);
    ApplyAll(b, Removals(n)).value.bids
  }

  lemma LeftShows(b: BookState, n: nat, p: int)
    requires WellFormedBook(b) && !Beyond(b.bids, p)
    ensures QtyAt(Left(b, n).levels, p) == if 10 <= p < 10 + n then 0 else QtyAt(b.bids.levels, p)
  {
    RemovalsApply(b, n);
    ApplyAllSets(b, Removals(n));
    RemovalsMention(n, Buy, p);
    assert !Unknown(b.(bids := Left(b, n)), Buy, p);
  }

  /** A ladder that shows no quantity up to its horizon is empty. */
  lemma ShowsNone(l: LadderState)
    requires WellFormed(l) && forall p :: !Beyond(l, p) ==> QtyAt(l.levels, p) == 0
    ensures l.levels == []
  {
    if l.levels != [] { QtyIs(l.side, l.levels, 0); }
  }

  /** And one that shows a quantity at one price has one level. */
  lemma ShowsOne(l: LadderState, price: int)
    requires WellFormed(l) && QtyAt(l.levels, price) > 0
    requires forall p :: !Beyond(l, p) && p != price ==> QtyAt(l.levels, p) == 0
    ensures |l.levels| == 1
  {
    assert |l.levels| > 1 ==> Better(l.side, l.levels[1].price, l.levels[0].price);
    forall k | 0 <= k < |l.levels| ensures l.levels[k].price == price {
      QtyIs(l.side, l.levels, k);
    }
  }

  // ---------------------------------------------------------------- the syncs

  const CONFIG: SyncConfig := SyncConfig(5, 5)

  type Capacity = c: nat | 0 < c witness 1

  /** A live sync with these bids and no asks. */
  function LiveWith(capacity: Capacity, bids: LadderState, at: u64): SyncState {
    var sync := VenueFeed.NewSync(capacity, CONFIG);
    sync.(book := sync.book.(bids := bids), live := Some(at))
  }

  lemma LiveWithInv(capacity: Capacity, bids: LadderState, at: u64)
    requires WellFormed(bids) && bids.side == Buy
    ensures SyncInv(LiveWith(capacity, bids, at)) && SyncInv(VenueFeed.NewSync(capacity, CONFIG))
  {
  }

  /** The bids once loaded. */
  function Loaded(capacity: Capacity, lo: int, n: nat): (l: LadderState)
    requires 0 < lo
    ensures WellFormed(l) && l.side == Buy && l.capacity == capacity && Keeps(l, Bids(lo, n))
  {
    BidsLoad(VenueFeed.NewSync(capacity, CONFIG).book.bids, lo, n);
    Load(VenueFeed.NewSync(capacity, CONFIG).book.bids, Bids(lo, n)).0
  }

  lemma LoadedShows(capacity: Capacity, lo: int, n: nat, p: int)
    requires 0 < lo && n <= capacity
    ensures Loaded(capacity, lo, n).horizon.None?
    ensures QtyAt(Loaded(capacity, lo, n).levels, p) == if lo <= p < lo + n then 1 else 0
  {
    AllBidsLoad(VenueFeed.NewSync(capacity, CONFIG).book.bids, lo, n, p);
  }

  lemma LoadsNoAsks(capacity: Capacity)
    ensures Load(LadderState(Sell, capacity, [], None), []) == (LadderState(Sell, capacity, [], None), Ok(()))
  {
  }

  lemma GoesLive(capacity: Capacity, at: u64, lo: int, n: nat)
    requires 0 < lo
    ensures SyncInv(VenueFeed.NewSync(capacity, CONFIG)) && SyncInv(LiveWith(capacity, Loaded(capacity, lo, n), at))
    ensures OnSnapshot(VenueFeed.NewSync(capacity, CONFIG), at, Bids(lo, n), [])
            == (LiveWith(capacity, Loaded(capacity, lo, n), at), Ok(true))
  {
    BidsLoad(VenueFeed.NewSync(capacity, CONFIG).book.bids, lo, n);
    LoadsNoAsks(capacity);
    LiveWithInv(capacity, Loaded(capacity, lo, n), at);
  }

  /** A live sync takes removals that follow on. */
  lemma TakesRemovals(capacity: Capacity, bids: LadderState, at: u64, d: Delta, n: nat)
    requires SyncInv(LiveWith(capacity, bids, at)) && d.updates == Removals(n) && d.first <= at + 1 && at < d.last
    ensures OnDelta(LiveWith(capacity, bids, at), d)
            == (LiveWith(capacity, Left(LiveWith(capacity, bids, at).book, n), d.last), Ok(DeltaApplied))
  {
  }

  // ---------------------------------------------------------------- the run

  /** Load the book, start a verification, and load its snapshot. */
  function VerifyOnce(body: SnapshotBody, edges: Edges, check: SnapshotBody, checkEdges: Edges): seq<MdEvent> {
    [OnSnapshotBody(0, body, 0, edges), OnStartVerification(0), OnVerificationBody(0, check, checkEdges)]
  }

  function NewMd(capacity: Capacity): MdFeed {
    NewFeed(1, capacity, CONFIG)
  }

  lemma NewMdIs(capacity: Capacity)
    ensures var sync := VenueFeed.NewSync(capacity, CONFIG);
            NewMd(capacity) == MdFeed(MdState([sync], sync, None, false), [NO_EDGES], NO_EDGES)
  {
    assert NewMd(capacity).books.syncs == [VenueFeed.NewSync(capacity, CONFIG)] && NewMd(capacity).edges == [NO_EDGES];
  }

  /** Both books are loaded, and not yet at the same update. */
  function Waiting(live: SyncState, shadow: SyncState): MdState {
    MdState([live], shadow, Some(0), true)
  }

  lemma StepToLive(dec: Decoders, idle: SyncState, body: SnapshotBody, edges: Edges, live: SyncState)
    requires SyncInv(idle) && OnSnapshot(idle, body.seqNo, body.bids, body.asks) == (live, Ok(true))
    ensures var start := MdFeed(MdState([idle], idle, None, false), [NO_EDGES], NO_EDGES);
            FeedSound(start)
            && MdStep(dec, start, OnSnapshotBody(0, body, 0, edges))
               == MdFeed(MdState([live], idle, None, false), [edges], NO_EDGES)
  {
    assert [idle][0 := live] == [live] && [NO_EDGES][0 := edges] == [edges];
  }

  lemma StepToVerifying(dec: Decoders, idle: SyncState, live: SyncState, edges: Edges)
    requires SyncInv(idle) && SyncInv(live) && live.live.Some? && Reset(idle) == idle
    ensures var started := MdFeed(MdState([live], idle, None, false), [edges], NO_EDGES);
            FeedSound(started)
            && MdStep(dec, started, OnStartVerification(0))
               == MdFeed(MdState([live], idle, Some(0), false), [edges], NO_EDGES)
  {
  }

  lemma LoadsAhead(idle: SyncState, live: SyncState, body: SnapshotBody, shadow: SyncState)
    requires SyncInv(idle) && SyncInv(live) && live.live != shadow.live
    requires OnSnapshot(idle, body.seqNo, body.bids, body.asks) == (shadow, Ok(true))
    ensures MdInv(MdState([live], idle, Some(0), false))
    ensures TakeVerificationSnapshot(MdState([live], idle, Some(0), false), 0, body).0 == Waiting(live, shadow)
  {
  }

  lemma StepToWaiting(dec: Decoders, f: MdFeed, body: SnapshotBody, edges: Edges, s: MdState)
    requires FeedSound(f) && TakeVerificationSnapshot(f.books, 0, body).0 == s
    requires f.books.verifying == Some(0) && !f.books.loaded && Uses(f.books.shadow, body)
    ensures MdStep(dec, f, OnVerificationBody(0, body, edges)) == f.(books := s, shadowEdges := edges)
  {
  }

  lemma RunThree(dec: Decoders, start: MdFeed, es: seq<MdEvent>, one: MdFeed, two: MdFeed)
    requires |es| == 3 && FeedSound(start) && FeedSound(one) && FeedSound(two)
    requires MdStep(dec, start, es[0]) == one && MdStep(dec, one, es[1]) == two
    ensures RunMd(dec, start, es) == MdStep(dec, two, es[2])
  {
    assert es[..2][..1] == es[..1] && es[..1][..0] == [];
    assert RunMd(dec, start, []) == start;
    assert RunMd(dec, start, es[..1]) == one;
    assert RunMd(dec, start, es[..2]) == two;
  }

  /** From new books, the run leaves both books loaded. */
  lemma RunWaits(dec: Decoders, capacity: Capacity, body: SnapshotBody, edges: Edges, check: SnapshotBody,
                 checkEdges: Edges, live: SyncState, shadow: SyncState)
    requires SyncInv(VenueFeed.NewSync(capacity, CONFIG)) && SyncInv(live)
    requires live.live.Some? && live.live != shadow.live
    requires OnSnapshot(VenueFeed.NewSync(capacity, CONFIG), body.seqNo, body.bids, body.asks) == (live, Ok(true))
    requires OnSnapshot(VenueFeed.NewSync(capacity, CONFIG), check.seqNo, check.bids, check.asks) == (shadow, Ok(true))
    ensures FeedSound(NewMd(capacity))
    ensures RunMd(dec, NewMd(capacity), VerifyOnce(body, edges, check, checkEdges))
            == MdFeed(Waiting(live, shadow), [edges], checkEdges)
  {
    var sync := VenueFeed.NewSync(capacity, CONFIG);
    var one := MdFeed(MdState([live], sync, None, false), [edges], NO_EDGES);
    var two := MdFeed(MdState([live], sync, Some(0), false), [edges], NO_EDGES);
    NewMdIs(capacity);
    StepToLive(dec, sync, body, edges, live);
    StepToVerifying(dec, sync, live, edges);
    LoadsAhead(sync, live, check, shadow);
    StepToWaiting(dec, two, check, checkEdges, Waiting(live, shadow));
    RunThree(dec, NewMd(capacity), VerifyOnce(body, edges, check, checkEdges), one, two);
  }

  /** A message that both syncs take, and that brings them level, makes a comparison due. */
  lemma ComesLevel(dec: Decoders, live: SyncState, shadow: SyncState, d: ValidDelta, live': SyncState,
                   shadow': SyncState, outcome: DeltaOutcome)
    requires MdInv(Waiting(live, shadow)) && dec.message([]) == Some(Update(0, 0, d))
    requires SyncInv(live) && SyncInv(shadow)
    requires OnDelta(live, d) == (live', Ok(DeltaApplied)) && OnDelta(shadow, d) == (shadow', Ok(outcome))
    requires live'.live.Some? && live'.live == shadow'.live
    ensures ComparedByMessage(dec, Waiting(live, shadow), []) == Some(Waiting(live', shadow'))
  {
    assert [live][0 := live'] == [live'];
    assert MdBooks.Feed(Waiting(live, shadow), 0, d) == (Waiting(live', shadow'), Ok(DeltaApplied));
  }
}
