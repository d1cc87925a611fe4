/** When verification reports a mismatch although venue, messages and snapshots are right
    (crates/bowst-venue/src/binance/books.rs, module documentation): exactly when the two books
    compared show different numbers of levels, as far as both know the levels that are compared.

    A snapshot may be cut off: it is right up to an edge on each side, which goes with the book
    loaded from it. */
module MdVerification {
  import opened Common
  import opened Ladders
  import opened Books
  import opened BookSyncs
  import opened VenueFeed
  import opened MdBooks

  /** One history for each instrument. */
  type Venue = nat -> History

  /** The worst price on each side that a snapshot knows about, if there is a worst. */
  datatype Edges = Edges(bids: Option<int>, asks: Option<int>)

  const NO_EDGES: Edges := Edges(None, None)

  function EdgeOf(e: Edges, side: Side): Option<int> {
    if side.Buy? then e.bids else e.asks
  }

  /** The price is at or better than the edge. */
  predicate Within(side: Side, edge: Option<int>, price: int) {
    edge.Some? ==> !Better(side, edge.value, price)
  }

  /** A snapshot right about every price up to its edges. */
  ghost predicate RightUpTo(h: History, snap: Snapshot, e: Edges) {
    forall s, p :: Within(s, EdgeOf(e, s), p) ==> ExactAt(h, snap, s, p)
  }

  /** The sync has only been fed honest deltas, and its book was loaded from a snapshot that was right
      up to the edges. */
  ghost predicate FedHonestly(h: History, s: SyncState, e: Edges) {
    exists loaded: Option<Snapshot> ::
      VenueFeed.FeedInv(h, VenueFeed.Feed(s, loaded)) && (loaded.Some? ==> RightUpTo(h, loaded.value, e))
  }

  /** What a live book fed honestly shows: the venue's quantity at every price up to the edge and the
      horizon. */
  ghost predicate Mirrors(q: int -> int, l: LadderState, edge: Option<int>) {
    WellFormed(l) && forall p :: !Beyond(l, p) && Within(l.side, edge, p) ==> QtyAt(l.levels, p) == q(p)
  }

  lemma HonestBookMirrors(h: History, s: SyncState, e: Edges, side: Side)
    requires FedHonestly(h, s, e) && s.live.Some?
    ensures SideOf(s.book, side).side == side
    ensures Mirrors(p => h(s.live.value, side, p), SideOf(s.book, side), EdgeOf(e, side))
  {
    var loaded: Option<Snapshot> :|
      VenueFeed.FeedInv(h, VenueFeed.Feed(s, loaded)) && (loaded.Some? ==> RightUpTo(h, loaded.value, e));
    forall p | !Beyond(SideOf(s.book, side), p) && Within(side, EdgeOf(e, side), p)
      ensures QtyAt(SideOf(s.book, side).levels, p) == h(s.live.value, side, p)
    {
      assert ExactAt(h, loaded.value, side, p) && !Unknown(s.book, side, p);
      assert Qty(s.book, side, p) == h(s.live.value, side, p);
    }
  }

  // ---------------------------------------------------------------- two mirrors of one venue

  /** The top levels that verification looks at are all within the edge: there is none, or there are
      so many levels up to it. */
  predicate Trusted(l: LadderState, edge: Option<int>) {
    edge.None? || Covers(l, edge)
  }

  /** At least as many levels as verification looks at are within the edge (and the horizon, as all
      levels are). */
  predicate Covers(l: LadderState, edge: Option<int>) {
    NthBest(l, VERIFY_LEVELS - 1).Some? && Within(l.side, edge, NthBest(l, VERIFY_LEVELS - 1).value.price)
  }

  /** The ladder leaves out nothing that verification looks at. */
  predicate Enough(l: LadderState, edge: Option<int>) {
    (edge.None? && l.horizon.None?) || Covers(l, edge)
  }

  /** The ladder has an `n`-th best level, or is sure that there is none. */
  predicate Shows(l: LadderState, edge: Option<int>, n: nat) {
    NthBest(l, n).Some? || (edge.None? && l.horizon.None?)
  }

  lemma InOrder(l: LadderState, n: nat, m: nat)
    requires WellFormed(l) && n < m && NthBest(l, m).Some?
    ensures NthBest(l, n).Some? && Better(l.side, NthBest(l, n).value.price, NthBest(l, m).value.price)
  {
  }

  lemma TrustedWithin(l: LadderState, edge: Option<int>, n: nat)
    requires WellFormed(l) && Trusted(l, edge) && n < VERIFY_LEVELS && NthBest(l, n).Some?
    ensures Within(l.side, edge, NthBest(l, n).value.price)
  {
    if n < VERIFY_LEVELS - 1 && edge.Some? { InOrder(l, n, VERIFY_LEVELS - 1); }
  }

  lemma EnoughShows(l: LadderState, edge: Option<int>, n: nat)
    requires WellFormed(l) && Enough(l, edge) && n < VERIFY_LEVELS
    ensures Trusted(l, edge) && Shows(l, edge, n)
  {
  }

  /** A price with a quantity is some level, counted from the best. */
  lemma RankOf(l: LadderState, price: int) returns (m: nat)
    requires QtyAt(l.levels, price) > 0
    ensures NthBest(l, m).Some? && NthBest(l, m).value.price == price
  {
    var j :| 0 <= j < |l.levels| && l.levels[j].price == price;
    m := |l.levels| - 1 - j;
  }

  /** A level within the edge has the venue's quantity. */
  lemma NthIsRight(q: int -> int, l: LadderState, edge: Option<int>, n: nat)
    requires Mirrors(q, l, edge) && NthBest(l, n).Some? && Within(l.side, edge, NthBest(l, n).value.price)
    ensures NthBest(l, n).value.qty == q(NthBest(l, n).value.price) > 0
    ensures !Beyond(l, NthBest(l, n).value.price)
  {
    QtyIs(l.side, l.levels, |l.levels| - 1 - n);
  }

  /** If `b` knows about the price of `a`'s `n`-th level, it has at least as many levels. */
  lemma KnownIsHeld(q: int -> int, a: LadderState, b: LadderState, eb: Option<int>, n: nat)
    requires WellFormed(a) && Mirrors(q, b, eb) && NthBest(a, n).Some? && a.side == b.side
    requires q(NthBest(a, n).value.price) > 0
    requires !Beyond(b, NthBest(a, n).value.price) && Within(b.side, eb, NthBest(a, n).value.price)
    requires forall m :: 0 <= m < n ==> NthBest(a, m) == NthBest(b, m)
    ensures NthBest(b, n).Some? && !Better(a.side, NthBest(a, n).value.price, NthBest(b, n).value.price)
  {
    var x := NthBest(a, n).value;
    var m := RankOf(b, x.price);
    forall k: nat | k < n ensures NthBest(b, k).value.price != x.price {
      InOrder(a, k, n);
      assert NthBest(a, k) == NthBest(b, k);
    }
    assert m >= n;
    if m > n { InOrder(b, n, m); }
  }

  /** If `a` has an `n`-th best level and `b` shows one or is sure there is none, then `b` has one at
      least as good. */
  lemma ReachesAsFar(q: int -> int, a: LadderState, ea: Option<int>, b: LadderState, eb: Option<int>, n: nat)
    requires Mirrors(q, a, ea) && Mirrors(q, b, eb) && a.side == b.side && Trusted(a, ea) && Trusted(b, eb)
    requires n < VERIFY_LEVELS && NthBest(a, n).Some? && Shows(b, eb, n)
    requires forall m :: 0 <= m < n ==> NthBest(a, m) == NthBest(b, m)
    ensures NthBest(b, n).Some? && !Better(a.side, NthBest(a, n).value.price, NthBest(b, n).value.price)
  {
    var x := NthBest(a, n).value;
    TrustedWithin(a, ea, n);
    NthIsRight(q, a, ea, n);
    if !Beyond(b, x.price) && Within(b.side, eb, x.price) {
      KnownIsHeld(q, a, b, eb, n);
    } else {
      TrustedWithin(b, eb, n);
      NthIsRight(q, b, eb, n);
    }
  }

  lemma NthAgree(q: int -> int, a: LadderState, ea: Option<int>, b: LadderState, eb: Option<int>, n: nat)
    requires Mirrors(q, a, ea) && Mirrors(q, b, eb) && a.side == b.side && Trusted(a, ea) && Trusted(b, eb)
    requires n < VERIFY_LEVELS
    requires NthBest(a, n).Some? ==> Shows(b, eb, n)
    requires NthBest(b, n).Some? ==> Shows(a, ea, n)
    requires forall m :: 0 <= m < n ==> NthBest(a, m) == NthBest(b, m)
    ensures NthBest(a, n) == NthBest(b, n)
  {
    if NthBest(a, n).Some? { ReachesAsFar(q, a, ea, b, eb, n); }
    if NthBest(b, n).Some? {
      ReachesAsFar(q, b, eb, a, ea, n);
      TrustedWithin(a, ea, n);
      TrustedWithin(b, eb, n);
      NthIsRight(q, a, ea, n);
      NthIsRight(q, b, eb, n);
    }
  }

  /** Two books that show one venue have the same best levels, as long as each shows what the other has. */
  lemma {:induction false} MirrorsAgree(q: int -> int, a: LadderState, ea: Option<int>, b: LadderState, eb: Option<int>,
                                        n: nat)
    requires Mirrors(q, a, ea) && Mirrors(q, b, eb) && a.side == b.side && Trusted(a, ea) && Trusted(b, eb)
    requires n <= VERIFY_LEVELS
    requires forall m :: 0 <= m < n && NthBest(a, m).Some? ==> Shows(b, eb, m)
    requires forall m :: 0 <= m < n && NthBest(b, m).Some? ==> Shows(a, ea, m)
    ensures forall m :: 0 <= m < n ==> NthBest(a, m) == NthBest(b, m)
  {
    if n > 0 {
      MirrorsAgree(q, a, ea, b, eb, n - 1);
      NthAgree(q, a, ea, b, eb, n - 1);
    }
  }

  /** As many levels on both, counted up to what verification looks at. */
  predicate SameCount(a: LadderState, b: LadderState) {
    Min(|a.levels|, VERIFY_LEVELS) == Min(|b.levels|, VERIFY_LEVELS)
  }

  /** Different numbers of levels never agree, whatever the levels are. */
  lemma CountsTell(a: LadderState, b: LadderState)
    ensures TopAgree(a, b, 0) ==> SameCount(a, b)
  {
    if !SameCount(a, b) {
      assert NthBest(a, Min(|a.levels|, |b.levels|)) != NthBest(b, Min(|a.levels|, |b.levels|));
    }
  }

  /** The top levels of two trusted mirrors of one venue agree exactly when there are as many of them. */
  lemma SideIff(q: int -> int, a: LadderState, ea: Option<int>, b: LadderState, eb: Option<int>)
    requires Mirrors(q, a, ea) && Mirrors(q, b, eb) && a.side == b.side && Trusted(a, ea) && Trusted(b, eb)
    ensures TopAgree(a, b, 0) <==> SameCount(a, b)
  {
    CountsTell(a, b);
    if SameCount(a, b) { MirrorsAgree(q, a, ea, b, eb, VERIFY_LEVELS); }
  }

  /** And they do agree if neither leaves out anything that verification looks at. */
  lemma EnoughAgree(q: int -> int, a: LadderState, ea: Option<int>, b: LadderState, eb: Option<int>)
    requires Mirrors(q, a, ea) && Mirrors(q, b, eb) && a.side == b.side && Enough(a, ea) && Enough(b, eb)
    ensures TopAgree(a, b, 0)
  {
    forall m: nat | m < VERIFY_LEVELS ensures Trusted(a, ea) && Trusted(b, eb) && Shows(a, ea, m) && Shows(b, eb, m) {
      EnoughShows(a, ea, m);
      EnoughShows(b, eb, m);
    }
    EnoughShows(a, ea, 0);
    EnoughShows(b, eb, 0);
    MirrorsAgree(q, a, ea, b, eb, VERIFY_LEVELS);
  }

  // ---------------------------------------------------------------- honest runs

  /** Every snapshot comes with the edges up to which it is right. */
  datatype MdEvent =
    | OnMessage(message: seq<byte>)
    | OnSnapshotBody(instrument: nat, body: SnapshotBody, time: int, edges: Edges)
    | OnStartVerification(instrument: nat)
    | OnCancelVerification
    | OnVerificationBody(instrument: nat, body: SnapshotBody, edges: Edges)
    | OnReset

  /** The books, and the edges of the snapshot that each was last loaded from. */
  datatype MdFeed = MdFeed(books: MdState, edges: seq<Edges>, shadowEdges: Edges)

  /** Whether a snapshot replaces the book of a sync. */
  predicate Uses(s: SyncState, body: SnapshotBody)
    requires SyncInv(s)
  {
    OnSnapshot(s, body.seqNo, body.bids, body.asks).1 == Ok(true)
  }

  function EdgesAfter(f: MdFeed, i: nat, body: SnapshotBody, e: Edges): seq<Edges>
    requires MdInv(f.books) && |f.edges| == |f.books.syncs|
  {
    if i < |f.edges| && Uses(f.books.syncs[i], body) then f.edges[i := e] else f.edges
  }

  function ShadowEdgesAfter(f: MdFeed, i: nat, body: SnapshotBody, e: Edges): Edges
    requires MdInv(f.books)
  {
    if f.books.verifying == Some(i) && !f.books.loaded && Uses(f.books.shadow, body) then e else f.shadowEdges
  }

  ghost predicate FeedSound(f: MdFeed) {
    MdInv(f.books) && |f.edges| == |f.books.syncs|
  }

  function MdStep(dec: Decoders, f: MdFeed, e: MdEvent): MdFeed
    requires FeedSound(f)
  {
    match e
    case OnMessage(m) => f.(books := ApplyMessage(dec, f.books, m).0)
    case OnSnapshotBody(i, body, time, edges) =>
      f.(books := TakeSnapshot(f.books, i, body, time).0, edges := EdgesAfter(f, i, body, edges))
    case OnStartVerification(i) => f.(books := StartVerification(f.books, i).0)
    case OnCancelVerification => f.(books := CancelVerification(f.books))
    case OnVerificationBody(i, body, edges) =>
      f.(books := TakeVerificationSnapshot(f.books, i, body).0, shadowEdges := ShadowEdgesAfter(f, i, body, edges))
    case OnReset => f.(books := ResetAll(f.books))
  }

  function AsSnapshot(body: SnapshotBody): Snapshot {
    Snapshot(body.seqNo, body.bids, body.asks)
  }

  ghost predicate HonestMdEvent(dec: Decoders, v: Venue, e: MdEvent) {
    match e
    case OnMessage(m) => dec.message(m).Some? ==> Honest(v(dec.message(m).value.instrument), dec.message(m).value.delta)
    case OnSnapshotBody(i, body, _, edges) => RightUpTo(v(i), AsSnapshot(body), edges)
    case OnVerificationBody(i, body, edges) => RightUpTo(v(i), AsSnapshot(body), edges)
    case _ => true
  }

  ghost predicate HonestState(v: Venue, s: MdState, edges: seq<Edges>, shadowEdges: Edges) {
    && MdInv(s) && |edges| == |s.syncs|
    && (forall i :: 0 <= i < |s.syncs| ==> FedHonestly(v(i), s.syncs[i], edges[i]))
    && (s.verifying.Some? ==> FedHonestly(v(s.verifying.value), s.shadow, shadowEdges))
  }

  ghost predicate HonestFeed(v: Venue, f: MdFeed) {
    HonestState(v, f.books, f.edges, f.shadowEdges)
  }

  lemma ResetIsHonest(h: History, s: SyncState, e: Edges)
    requires SyncInv(s)
    ensures FedHonestly(h, Reset(s), e)
  {
    ResetInv(s);
    assert VenueFeed.FeedInv(h, VenueFeed.Feed(Reset(s), None));
  }

  lemma DeltaIsHonest(h: History, s: SyncState, e: Edges, d: ValidDelta)
    requires FedHonestly(h, s, e) && Honest(h, d)
    ensures FedHonestly(h, OnDelta(s, d).0, e)
  {
    var loaded: Option<Snapshot> :|
      VenueFeed.FeedInv(h, VenueFeed.Feed(s, loaded)) && (loaded.Some? ==> RightUpTo(h, loaded.value, e));
    FeedStepKeeps(h, VenueFeed.Feed(s, loaded), Deliver(d));
  }

  lemma SnapshotIsHonest(h: History, s: SyncState, e: Edges, body: SnapshotBody, e': Edges)
    requires FedHonestly(h, s, e) && RightUpTo(h, AsSnapshot(body), e')
    ensures SyncInv(s)
    ensures FedHonestly(h, OnSnapshot(s, body.seqNo, body.bids, body.asks).0, if Uses(s, body) then e' else e)
  {
    var loaded: Option<Snapshot> :|
      VenueFeed.FeedInv(h, VenueFeed.Feed(s, loaded)) && (loaded.Some? ==> RightUpTo(h, loaded.value, e));
    FeedStepKeeps(h, VenueFeed.Feed(s, loaded), Load(AsSnapshot(body)));
    var f := FeedStep(VenueFeed.Feed(s, loaded), Load(AsSnapshot(body)));
    assert VenueFeed.FeedInv(h, VenueFeed.Feed(f.sync, f.loaded));
  }

  lemma FeedIsHonest(v: Venue, s: MdState, edges: seq<Edges>, shadowEdges: Edges, i: nat, d: ValidDelta)
    requires HonestState(v, s, edges, shadowEdges) && i < |s.syncs| && Honest(v(i), d)
    ensures HonestState(v, MdBooks.Feed(s, i, d).0, edges, shadowEdges)
  {
    MdBooks.FeedInv(s, i, d);
    DeltaIsHonest(v(i), s.syncs[i], edges[i], d);
    FeedShape(s, i, d);
    if s.verifying == Some(i) { DeltaIsHonest(v(i), s.shadow, shadowEdges, d); }
  }

  /** A delta goes to the sync of its instrument, and to the shadow if it verifies the same one. */
  lemma FeedShape(s: MdState, i: nat, d: ValidDelta)
    requires MdInv(s) && i < |s.syncs|
    ensures var fed := MdBooks.Feed(s, i, d).0;
            && fed.syncs == s.syncs[i := OnDelta(s.syncs[i], d).0]
            && (fed.verifying.Some? ==> fed.verifying == s.verifying)
            && (fed.verifying.Some? ==>
                  fed.shadow == if s.verifying == Some(i) then OnDelta(s.shadow, d).0 else s.shadow)
  {
  }

  lemma SettleIsHonest(v: Venue, s: MdState, edges: seq<Edges>, shadowEdges: Edges)
    requires HonestState(v, s, edges, shadowEdges)
    ensures HonestState(v, Settle(s).0, edges, shadowEdges)
  {
    SettleInv(s);
    if Due(s) {
      var i := s.verifying.value;
      ResetIsHonest(v(i), s.syncs[i], edges[i]);
    }
  }

  /** The state in which a verification snapshot may be compared right away. */
  function ShadowLoaded(s: MdState, body: SnapshotBody): MdState
    requires MdInv(s)
  {
    s.(shadow := OnSnapshot(s.shadow, body.seqNo, body.bids, body.asks).0, loaded := true)
  }

  lemma ShadowLoadedIsHonest(v: Venue, f: MdFeed, i: nat, body: SnapshotBody, e: Edges)
    requires HonestFeed(v, f) && f.books.verifying == Some(i) && !f.books.loaded && RightUpTo(v(i), AsSnapshot(body), e)
    ensures HonestState(v, ShadowLoaded(f.books, body), f.edges, ShadowEdgesAfter(f, i, body, e))
  {
    OnSnapshotInv(f.books.shadow, body.seqNo, body.bids, body.asks);
    SnapshotIsHonest(v(i), f.books.shadow, f.shadowEdges, body, e);
  }

  lemma TakeSnapshotIsHonest(v: Venue, f: MdFeed, i: nat, body: SnapshotBody, time: int, e: Edges)
    requires HonestFeed(v, f) && RightUpTo(v(i), AsSnapshot(body), e)
    ensures HonestState(v, TakeSnapshot(f.books, i, body, time).0, EdgesAfter(f, i, body, e), f.shadowEdges)
  {
    TakeSnapshotInv(f.books, i, body, time);
    if i < |f.books.syncs| { SnapshotIsHonest(v(i), f.books.syncs[i], f.edges[i], body, e); }
  }

  lemma StartIsHonest(v: Venue, s: MdState, edges: seq<Edges>, shadowEdges: Edges, i: nat)
    requires HonestState(v, s, edges, shadowEdges)
    ensures HonestState(v, StartVerification(s, i).0, edges, shadowEdges)
    ensures HonestState(v, CancelVerification(s), edges, shadowEdges)
  {
    ShadowResetInv(s);
    ResetIsHonest(v(i), s.shadow, shadowEdges);
  }

  lemma ResetAllIsHonest(v: Venue, s: MdState, edges: seq<Edges>, shadowEdges: Edges)
    requires HonestState(v, s, edges, shadowEdges)
    ensures HonestState(v, ResetAll(s), edges, shadowEdges)
  {
    ResetAllInv(s);
    forall i | 0 <= i < |s.syncs| ensures FedHonestly(v(i), Reset(s.syncs[i]), edges[i]) {
      ResetIsHonest(v(i), s.syncs[i], edges[i]);
    }
  }

  lemma MessageIsHonest(dec: Decoders, v: Venue, s: MdState, edges: seq<Edges>, shadowEdges: Edges, m: seq<byte>)
    requires HonestState(v, s, edges, shadowEdges) && HonestMdEvent(dec, v, OnMessage(m))
    ensures HonestState(v, ApplyMessage(dec, s, m).0, edges, shadowEdges)
  {
    var u := dec.message(m);
    if u.Some? && u.value.instrument < |s.syncs| {
      FeedIsHonest(v, s, edges, shadowEdges, u.value.instrument, u.value.delta);
      SettleIsHonest(v, MdBooks.Feed(s, u.value.instrument, u.value.delta).0, edges, shadowEdges);
      MessageShape(dec, s, m);
    }
  }

  /** A message feeds its delta, and settles if that may have brought two books level. */
  lemma MessageShape(dec: Decoders, s: MdState, m: seq<byte>)
    requires MdInv(s) && dec.message(m).Some? && dec.message(m).value.instrument < |s.syncs|
    ensures var u := dec.message(m).value;
            var (fed, r) := MdBooks.Feed(s, u.instrument, u.delta);
            ApplyMessage(dec, s, m).0
            == if r == Ok(DeltaApplied) && s.verifying == Some(u.instrument) then Settle(fed).0 else fed
  {
  }

  lemma VerificationIsHonest(v: Venue, f: MdFeed, i: nat, body: SnapshotBody, e: Edges)
    requires HonestFeed(v, f) && RightUpTo(v(i), AsSnapshot(body), e)
    ensures HonestState(v, TakeVerificationSnapshot(f.books, i, body).0, f.edges, ShadowEdgesAfter(f, i, body, e))
  {
    TakeVerificationSnapshotInv(f.books, i, body);
    if f.books.verifying == Some(i) && !f.books.loaded {
      ShadowLoadedIsHonest(v, f, i, body, e);
      SettleIsHonest(v, ShadowLoaded(f.books, body), f.edges, ShadowEdgesAfter(f, i, body, e));
    }
  }

  lemma MdStepIsHonest(dec: Decoders, v: Venue, f: MdFeed, e: MdEvent)
    requires HonestFeed(v, f) && HonestMdEvent(dec, v, e)
    ensures HonestFeed(v, MdStep(dec, f, e))
  {
    match e
    case OnMessage(m) => MessageIsHonest(dec, v, f.books, f.edges, f.shadowEdges, m);
    case OnSnapshotBody(i, body, time, edges) => TakeSnapshotIsHonest(v, f, i, body, time, edges);
    case OnStartVerification(i) => StartIsHonest(v, f.books, f.edges, f.shadowEdges, i);
    case OnCancelVerification => StartIsHonest(v, f.books, f.edges, f.shadowEdges, 0);
    case OnVerificationBody(i, body, edges) => VerificationIsHonest(v, f, i, body, edges);
    case OnReset => ResetAllIsHonest(v, f.books, f.edges, f.shadowEdges);
  }

  function RunMd(dec: Decoders, start: MdFeed, events: seq<MdEvent>): (f: MdFeed)
    requires FeedSound(start)
    ensures FeedSound(f)
  {
    var n := |events|;
    if n == 0 then start
    else
      var before := RunMd(dec, start, events[..n - 1]);
      MdStepInv(dec, before, events[n - 1]);
      MdStep(dec, before, events[n - 1])
  }

  lemma MessageSound(dec: Decoders, f: MdFeed, m: seq<byte>)
    requires FeedSound(f)
    ensures FeedSound(f.(books := ApplyMessage(dec, f.books, m).0))
  {
    ApplyMessageInv(dec, f.books, m);
  }

  lemma VerificationSound(f: MdFeed, i: nat, body: SnapshotBody)
    requires FeedSound(f)
    ensures FeedSound(f.(books := TakeVerificationSnapshot(f.books, i, body).0))
  {
    TakeVerificationSnapshotInv(f.books, i, body);
  }

  lemma MdStepInv(dec: Decoders, f: MdFeed, e: MdEvent)
    requires FeedSound(f)
    ensures FeedSound(MdStep(dec, f, e))
  {
    match e
    case OnMessage(m) => MessageSound(dec, f, m);
    case OnSnapshotBody(i, body, time, _) => TakeSnapshotInv(f.books, i, body, time);
    case OnStartVerification(_) => ShadowResetInv(f.books);
    case OnCancelVerification => ShadowResetInv(f.books);
    case OnVerificationBody(i, body, _) => VerificationSound(f, i, body);
    case OnReset => ResetAllInv(f.books);
  }

  ghost predicate AllHonest(dec: Decoders, v: Venue, events: seq<MdEvent>) {
    forall k :: 0 <= k < |events| ==> HonestMdEvent(dec, v, events[k])
  }

  lemma {:induction false} RunIsHonest(dec: Decoders, v: Venue, start: MdFeed, events: seq<MdEvent>)
    requires HonestFeed(v, start) && AllHonest(dec, v, events)
    ensures HonestFeed(v, RunMd(dec, start, events))
  {
    var n := |events|;
    if n > 0 {
      RunIsHonest(dec, v, start, events[..n - 1]);
      MdStepIsHonest(dec, v, RunMd(dec, start, events[..n - 1]), events[n - 1]);
    }
  }

  // ---------------------------------------------------------------- what a comparison finds

  predicate BookTrusted(b: BookState, e: Edges) {
    Trusted(b.bids, e.bids) && Trusted(b.asks, e.asks)
  }

  predicate BookEnough(b: BookState, e: Edges) {
    Enough(b.bids, e.bids) && Enough(b.asks, e.asks)
  }

  /** The two books that are compared. */
  function LiveBook(s: MdState): BookState
    requires Due(s)
  {
    s.syncs[s.verifying.value].book
  }

  /** On each side the two books show as many levels, counted up to what verification looks at. */
  predicate SameCounts(s: MdState)
    requires Due(s)
  {
    SameCount(LiveBook(s).bids, s.shadow.book.bids) && SameCount(LiveBook(s).asks, s.shadow.book.asks)
  }

  /** Both books are within their edges as far as they are compared. */
  predicate BothTrusted(s: MdState, edges: seq<Edges>, shadowEdges: Edges)
    requires Due(s) && |edges| == |s.syncs|
  {
    BookTrusted(LiveBook(s), edges[s.verifying.value]) && BookTrusted(s.shadow.book, shadowEdges)
  }

  /** Neither book leaves out anything that is compared. */
  predicate BothEnough(s: MdState, edges: seq<Edges>, shadowEdges: Edges)
    requires Due(s) && |edges| == |s.syncs|
  {
    BookEnough(LiveBook(s), edges[s.verifying.value]) && BookEnough(s.shadow.book, shadowEdges)
  }

  lemma SideVerdict(v: Venue, s: MdState, edges: seq<Edges>, shadowEdges: Edges, side: Side)
    requires HonestState(v, s, edges, shadowEdges) && Due(s)
    ensures var a, ea := SideOf(LiveBook(s), side), EdgeOf(edges[s.verifying.value], side);
            var b, eb := SideOf(s.shadow.book, side), EdgeOf(shadowEdges, side);
            && (Trusted(a, ea) && Trusted(b, eb) ==> (TopAgree(a, b, 0) <==> SameCount(a, b)))
            && (Enough(a, ea) && Enough(b, eb) ==> TopAgree(a, b, 0))
  {
    var i := s.verifying.value;
    var live := s.syncs[i];
    var a, ea := SideOf(live.book, side), EdgeOf(edges[i], side);
    var b, eb := SideOf(s.shadow.book, side), EdgeOf(shadowEdges, side);
    HonestBookMirrors(v(i), live, edges[i], side);
    HonestBookMirrors(v(i), s.shadow, shadowEdges, side);
    var q := p => v(i)(live.live.value, side, p);
    assert Mirrors(q, a, ea) && Mirrors(q, b, eb);
    if Trusted(a, ea) && Trusted(b, eb) { SideIff(q, a, ea, b, eb); }
    if Enough(a, ea) && Enough(b, eb) { EnoughAgree(q, a, ea, b, eb); }
  }

  /** A comparison of two books fed honestly: a mismatch if they show different numbers of levels, and
      only then as far as both are within their edges; and none if neither leaves out anything compared. */
  lemma HonestVerdict(v: Venue, s: MdState, edges: seq<Edges>, shadowEdges: Edges)
    requires HonestState(v, s, edges, shadowEdges) && Due(s)
    ensures !SameCounts(s) ==> Settle(s).1.Some?
    ensures BothTrusted(s, edges, shadowEdges) && SameCounts(s) ==> Settle(s).1.None?
    ensures BothEnough(s, edges, shadowEdges) ==> Settle(s).1.None?
  {
    SideVerdict(v, s, edges, shadowEdges, Buy);
    SideVerdict(v, s, edges, shadowEdges, Sell);
    CountsTell(LiveBook(s).bids, s.shadow.book.bids);
    CountsTell(LiveBook(s).asks, s.shadow.book.asks);
    SettleVerdict(s);
  }

  // ---------------------------------------------------------------- over whole runs

  /** The books as a message leaves them for comparison, if it makes one due. */
  function ComparedByMessage(dec: Decoders, s: MdState, m: seq<byte>): (c: Option<MdState>)
    requires MdInv(s)
    ensures c.Some? ==> Due(c.value) && |c.value.syncs| == |s.syncs|
  {
    match dec.message(m)
    case None => None
    case Some(u) =>
      if u.instrument >= |s.syncs| || s.verifying != Some(u.instrument) then None
      else
        var (fed, r) := MdBooks.Feed(s, u.instrument, u.delta);
        if r == Ok(DeltaApplied) && Due(fed) then Some(fed) else None
  }

  /** The message is reported as a mismatch. */
  predicate MismatchOn(dec: Decoders, s: MdState, m: seq<byte>)
    requires MdInv(s)
  {
    var outcome := ApplyMessage(dec, s, m).1;
    outcome.Some? && outcome.value.WentDown? && outcome.value.reason.MismatchDown?
  }

  /** The books once a verification snapshot is loaded, if that makes a comparison due. */
  function ComparedByLoading(s: MdState, i: nat, body: SnapshotBody): (c: Option<MdState>)
    requires MdInv(s)
    ensures c.Some? ==> Due(c.value) && |c.value.syncs| == |s.syncs|
  {
    if s.verifying != Some(i) || s.loaded || OnSnapshot(s.shadow, body.seqNo, body.bids, body.asks).1.Err? then None
    else if Due(ShadowLoaded(s, body)) then Some(ShadowLoaded(s, body))
    else None
  }

  lemma MismatchIsSettled(dec: Decoders, s: MdState, m: seq<byte>)
    requires MdInv(s)
    ensures var c := ComparedByMessage(dec, s, m);
            MismatchOn(dec, s, m) <==> c.Some? && Settle(c.value).1.Some?
  {
  }

  lemma DiffersIsSettled(s: MdState, i: nat, body: SnapshotBody)
    requires MdInv(s)
    ensures var c := ComparedByLoading(s, i, body);
            TakeVerificationSnapshot(s, i, body).1.Differs? <==> c.Some? && Settle(c.value).1.Some?
  {
  }

  lemma ComparedIsHonest(dec: Decoders, v: Venue, s: MdState, edges: seq<Edges>, shadowEdges: Edges, m: seq<byte>)
    requires HonestState(v, s, edges, shadowEdges) && HonestMdEvent(dec, v, OnMessage(m))
    ensures var c := ComparedByMessage(dec, s, m);
            c.Some? ==> HonestState(v, c.value, edges, shadowEdges)
  {
    if ComparedByMessage(dec, s, m).Some? {
      var u := dec.message(m).value;
      FeedIsHonest(v, s, edges, shadowEdges, u.instrument, u.delta);
    }
  }

  /** Over every honest run, for every message: a mismatch is reported if a comparison is due and the two
      books show different numbers of levels on some side. As long as both are within their edges there,
      it is reported only then; and it never is if neither leaves out levels that are compared. */
  lemma MessageMismatchIff(dec: Decoders, v: Venue, start: MdFeed, events: seq<MdEvent>, m: seq<byte>)
    requires HonestFeed(v, start) && AllHonest(dec, v, events) && HonestMdEvent(dec, v, OnMessage(m))
    ensures var f := RunMd(dec, start, events);
            var c := ComparedByMessage(dec, f.books, m);
            && (c.Some? && !SameCounts(c.value) ==> MismatchOn(dec, f.books, m))
            && (MismatchOn(dec, f.books, m) ==> c.Some? && !BothEnough(c.value, f.edges, f.shadowEdges))
            && (MismatchOn(dec, f.books, m) && BothTrusted(c.value, f.edges, f.shadowEdges) ==> !SameCounts(c.value))
  {
    var f := RunMd(dec, start, events);
    RunIsHonest(dec, v, start, events);
    MismatchIsSettled(dec, f.books, m);
    ComparedIsHonest(dec, v, f.books, f.edges, f.shadowEdges, m);
    var c := ComparedByMessage(dec, f.books, m);
    if c.Some? { HonestVerdict(v, c.value, f.edges, f.shadowEdges); }
  }

  /** The same for a verification snapshot that is compared as soon as it is loaded. */
  lemma SnapshotMismatchIff(dec: Decoders, v: Venue, start: MdFeed, events: seq<MdEvent>, i: nat, body: SnapshotBody,
                            e: Edges)
    requires HonestFeed(v, start) && AllHonest(dec, v, events) && RightUpTo(v(i), AsSnapshot(body), e)
    ensures var f := RunMd(dec, start, events);
            var c, after := ComparedByLoading(f.books, i, body), ShadowEdgesAfter(f, i, body, e);
            var differs := TakeVerificationSnapshot(f.books, i, body).1.Differs?;
            && (c.Some? && !SameCounts(c.value) ==> differs)
            && (differs ==> c.Some? && !BothEnough(c.value, f.edges, after))
            && (differs && BothTrusted(c.value, f.edges, after) ==> !SameCounts(c.value))
  {
    var f := RunMd(dec, start, events);
    RunIsHonest(dec, v, start, events);
    DiffersIsSettled(f.books, i, body);
    var c := ComparedByLoading(f.books, i, body);
    if c.Some? {
      ShadowLoadedIsHonest(v, f, i, body, e);
      HonestVerdict(v, c.value, f.edges, ShadowEdgesAfter(f, i, body, e));
    }
  }

  // ---------------------------------------------------------------- full-depth snapshots

  predicate NoEdges(f: MdFeed) {
    f.shadowEdges == NO_EDGES && forall i :: 0 <= i < |f.edges| ==> f.edges[i] == NO_EDGES
  }

  predicate FullDepthEvent(e: MdEvent) {
    e.OnSnapshotBody? || e.OnVerificationBody? ==> e.edges == NO_EDGES
  }

  predicate AllFullDepth(events: seq<MdEvent>) {
    forall k :: 0 <= k < |events| ==> FullDepthEvent(events[k])
  }

  lemma {:induction false} RunHasNoEdges(dec: Decoders, start: MdFeed, events: seq<MdEvent>)
    requires FeedSound(start) && NoEdges(start) && AllFullDepth(events)
    ensures NoEdges(RunMd(dec, start, events))
  {
    var n := |events|;
    if n > 0 {
      RunHasNoEdges(dec, start, events[..n - 1]);
      StepHasNoEdges(dec, RunMd(dec, start, events[..n - 1]), events[n - 1]);
    }
  }

  lemma StepHasNoEdges(dec: Decoders, f: MdFeed, e: MdEvent)
    requires FeedSound(f) && NoEdges(f) && FullDepthEvent(e)
    ensures NoEdges(MdStep(dec, f, e))
  {
  }

  /** The ladder shows every level that verification looks at, if its snapshot was of full depth. */
  predicate Sufficient(l: LadderState) {
    l.horizon.None? || |l.levels| >= VERIFY_LEVELS
  }

  /** Neither of the books compared is too short. */
  predicate TallEnough(s: MdState)
    requires Due(s)
  {
    && Sufficient(LiveBook(s).bids) && Sufficient(LiveBook(s).asks)
    && Sufficient(s.shadow.book.bids) && Sufficient(s.shadow.book.asks)
  }

  lemma SufficientIsEnough(l: LadderState)
    ensures Sufficient(l) ==> Enough(l, None)
  {
  }

  /** Without edges every book is within them, and leaves nothing out unless it has dropped levels. */
  lemma WithoutEdges(f: MdFeed, c: MdState)
    requires NoEdges(f) && Due(c) && |f.edges| == |c.syncs|
    ensures BothTrusted(c, f.edges, f.shadowEdges)
    ensures TallEnough(c) ==> BothEnough(c, f.edges, f.shadowEdges)
  {
    assert f.edges[c.verifying.value] == NO_EDGES;
    SufficientIsEnough(LiveBook(c).bids);
    SufficientIsEnough(LiveBook(c).asks);
    SufficientIsEnough(c.shadow.book.bids);
    SufficientIsEnough(c.shadow.book.asks);
  }

  /** With every snapshot of full depth, a message is reported as a mismatch if and only if it makes a
      comparison due and the two books show different numbers of levels, counted up to what verification
      looks at, on some side. */
  lemma FullDepthMessageIff(dec: Decoders, v: Venue, start: MdFeed, events: seq<MdEvent>, m: seq<byte>)
    requires HonestFeed(v, start) && AllHonest(dec, v, events) && HonestMdEvent(dec, v, OnMessage(m))
    requires NoEdges(start) && AllFullDepth(events)
    ensures var s := RunMd(dec, start, events).books;
            var c := ComparedByMessage(dec, s, m);
            && (MismatchOn(dec, s, m) <==> c.Some? && !SameCounts(c.value))
            && (MismatchOn(dec, s, m) ==> !TallEnough(c.value))
  {
    var f := RunMd(dec, start, events);
    RunHasNoEdges(dec, start, events);
    MessageMismatchIff(dec, v, start, events, m);
    var c := ComparedByMessage(dec, f.books, m);
    if c.Some? { WithoutEdges(f, c.value); }
  }

  /** And so is a verification snapshot. */
  lemma FullDepthSnapshotIff(dec: Decoders, v: Venue, start: MdFeed, events: seq<MdEvent>, i: nat, body: SnapshotBody)
    requires HonestFeed(v, start) && AllHonest(dec, v, events) && RightUpTo(v(i), AsSnapshot(body), NO_EDGES)
    requires NoEdges(start) && AllFullDepth(events)
    ensures var s := RunMd(dec, start, events).books;
            var c := ComparedByLoading(s, i, body);
            var differs := TakeVerificationSnapshot(s, i, body).1.Differs?;
            (differs <==> c.Some? && !SameCounts(c.value)) && (differs ==> !TallEnough(c.value))
  {
    var f := RunMd(dec, start, events);
    RunHasNoEdges(dec, start, events);
    SnapshotMismatchIff(dec, v, start, events, i, body, NO_EDGES);
    var c := ComparedByLoading(f.books, i, body);
    if c.Some? { WithoutEdges(f.(shadowEdges := ShadowEdgesAfter(f, i, body, NO_EDGES)), c.value); }
  }

  // ---------------------------------------------------------------- new books

  /** A session's books before anything is received. */
  function NewBooks(instruments: nat, levelsPerSide: nat, config: SyncConfig): MdState {
    MdState(seq(instruments, i => NewSync(levelsPerSide, config)), NewSync(levelsPerSide, config), None, false)
  }

  function NewFeed(instruments: nat, levelsPerSide: nat, config: SyncConfig): MdFeed {
    MdFeed(NewBooks(instruments, levelsPerSide, config), seq(instruments, i => NO_EDGES), NO_EDGES)
  }

  lemma NewBooksAreHonest(v: Venue, instruments: nat, levelsPerSide: nat, config: SyncConfig)
    requires 0 < levelsPerSide && 0 < config.bufferedMessages && 0 < config.bufferedUpdates
    ensures HonestFeed(v, NewFeed(instruments, levelsPerSide, config))
    ensures NoEdges(NewFeed(instruments, levelsPerSide, config))
  {
    var sync := NewSync(levelsPerSide, config);
    assert Reset(sync) == sync;
    forall i: nat ensures FedHonestly(v(i), sync, NO_EDGES) { ResetIsHonest(v(i), sync, NO_EDGES); }
  }
}
