/** Why verification can report a mismatch on an honest feed: a book that has dropped levels, and then
    lost the ones it kept, shows fewer levels than the venue has. */
module VerificationLimit {
  import opened Common
  import opened Ladders
  import opened Books
  import opened BookSyncs
  import VenueFeed
  import opened MdBooks
  import opened MdVerification
  import opened VerificationRuns

  /** One lot is bid at 9 all along, and one at each of the `n` prices above up to update 5. */
  function Rests(n: nat): VenueFeed.History {
    (update, side: Side, price) =>
      if side.Buy? && (price == 9 || (update <= 5 && 10 <= price < 10 + n)) then 1 else 0
  }

  function OneVenue(n: nat): Venue {
    i => Rests(n)
  }

  function Body5(n: nat): SnapshotBody {
    SnapshotBody(5, Bids(9, n + 1), [])
  }

  function Body6(): SnapshotBody {
    SnapshotBody(6, Bids(9, 1), [])
  }

  /** All bids but the one at 9 go away with update 6. */
  function Gone(n: nat): ValidDelta {
    Delta(6, 6, Removals(n))
  }

  function LimitDecoders(n: nat): Decoders {
    Decoders(m => Some(Update(0, 0, Gone(n))), (i, raw) => None)
  }

  /** The snapshot for the verification is ahead of the book. */
  function Events(n: nat): seq<MdEvent> {
    VerifyOnce(Body5(n), NO_EDGES, Body6(), NO_EDGES)
  }

  // ---------------------------------------------------------------- everything is honest

  lemma BodiesAreRight(n: nat)
    ensures RightUpTo(Rests(n), AsSnapshot(Body5(n)), NO_EDGES) && RightUpTo(Rests(n), AsSnapshot(Body6()), NO_EDGES)
  {
    forall s: Side, p: int
      ensures VenueFeed.ExactAt(Rests(n), AsSnapshot(Body5(n)), s, p)
      ensures VenueFeed.ExactAt(Rests(n), AsSnapshot(Body6()), s, p)
    {
      BidsShow(9, n + 1, p);
      BidsShow(9, 1, p);
    }
  }

  lemma GoneIsHonest(n: nat)
    ensures VenueFeed.Honest(Rests(n), Gone(n))
  {
    forall s: Side, p: int ensures VenueFeed.HonestAt(Rests(n), Gone(n), s, p) {
      RemovalsMention(n, s, p);
    }
  }

  lemma EventsAreHonest(n: Capacity)
    ensures HonestFeed(OneVenue(n), NewMd(n)) && NoEdges(NewMd(n))
    ensures AllHonest(LimitDecoders(n), OneVenue(n), Events(n)) && AllFullDepth(Events(n))
    ensures HonestMdEvent(LimitDecoders(n), OneVenue(n), OnMessage([]))
  {
    NewBooksAreHonest(OneVenue(n), 1, n, CONFIG);
    BodiesAreRight(n);
    GoneIsHonest(n);
  }

  // ---------------------------------------------------------------- the books

  /** Consecutive prices, all of which are listed, take up as many places. */
  lemma {:induction false} Climbs(levels: seq<Level>, from: int, n: nat) returns (k: nat)
    requires StrictlySorted(Buy, levels)
    requires forall p :: from <= p <= from + n ==> Lists(levels, p)
    ensures n <= k < |levels| && levels[k].price == from + n
  {
    assert Lists(levels, from + n) by { assert from <= from + n; }
    k :| 0 <= k < |levels| && levels[k].price == from + n;
    if n > 0 {
      var before := Climbs(levels, from, n - 1);
      assert k > before;
    }
  }

  /** A book of `n` levels drops the bid at 9. */
  lemma NineIsDropped(n: Capacity, l: LadderState)
    requires l.side == Buy && l.capacity == n && Keeps(l, Bids(9, n + 1))
    ensures forall x :: x in l.levels ==> 10 <= x.price < 10 + n
  {
    var input := Bids(9, n + 1);
    if x :| x in l.levels && x.price == 9 {
      assert l.levels[0] in input;
      forall p | 9 <= p <= 9 + n ensures Lists(l.levels, p) {
        assert input[9 + n - p] in input;
        assert input[9 + n - p] in l.levels;
      }
      var k := Climbs(l.levels, 9, n);
      assert false;
    }
  }

  function Live(n: Capacity): SyncState {
    LiveWith(n, Loaded(n, 9, n + 1), 5)
  }

  function Shadow(n: Capacity): SyncState {
    LiveWith(n, Loaded(n, 9, 1), 6)
  }

  /** The removals leave nothing of what the book shows. */
  lemma NothingLeft(n: Capacity)
    requires SyncInv(Live(n))
    ensures Left(Live(n).book, n).levels == []
  {
    var b := Live(n).book;
    NineIsDropped(n, b.bids);
    forall p | !Beyond(b.bids, p) ensures QtyAt(Left(b, n).levels, p) == 0 {
      LeftShows(b, n, p);
    }
    ShowsNone(Left(b, n));
  }

  lemma SeenAlready(n: Capacity)
    requires SyncInv(Shadow(n))
    ensures OnDelta(Shadow(n), Gone(n)) == (Shadow(n), Ok(Stale))
  {
  }

  // ---------------------------------------------------------------- the run

  lemma RunToWaiting(n: Capacity)
    ensures FeedSound(NewMd(n)) && SyncInv(Live(n)) && SyncInv(Shadow(n)) && MdInv(Waiting(Live(n), Shadow(n)))
    ensures RunMd(LimitDecoders(n), NewMd(n), Events(n))
            == MdFeed(Waiting(Live(n), Shadow(n)), [NO_EDGES], NO_EDGES)
  {
    GoesLive(n, 5, 9, n + 1);
    GoesLive(n, 6, 9, 1);
    RunWaits(LimitDecoders(n), n, Body5(n), NO_EDGES, Body6(), NO_EDGES, Live(n), Shadow(n));
  }

  /** The message brings the book level with the shadow, which has seen it already: the book shows no
      bid, the shadow the one at 9. */
  lemma CountsDiffer(n: Capacity)
    requires SyncInv(Live(n)) && SyncInv(Shadow(n)) && MdInv(Waiting(Live(n), Shadow(n)))
    ensures var c := ComparedByMessage(LimitDecoders(n), Waiting(Live(n), Shadow(n)), []);
            c.Some? && !SameCounts(c.value)
  {
    NothingLeft(n);
    TakesRemovals(n, Live(n).book.bids, 5, Gone(n), n);
    SeenAlready(n);
    ComesLevel(LimitDecoders(n), Live(n), Shadow(n), Gone(n), LiveWith(n, Left(Live(n).book, n), 6), Shadow(n), Stale);
  }

  /** However deep the books are: from new books, with every message honest and every snapshot of full
      depth, a mismatch is reported. */
  lemma ShortBookCriesWolf(n: Capacity)
    ensures HonestFeed(OneVenue(n), NewMd(n)) && NoEdges(NewMd(n))
    ensures AllHonest(LimitDecoders(n), OneVenue(n), Events(n)) && AllFullDepth(Events(n))
    ensures HonestMdEvent(LimitDecoders(n), OneVenue(n), OnMessage([]))
    ensures MismatchOn(LimitDecoders(n), RunMd(LimitDecoders(n), NewMd(n), Events(n)).books, [])
  {
    EventsAreHonest(n);
    RunToWaiting(n);
    CountsDiffer(n);
    FullDepthMessageIff(LimitDecoders(n), OneVenue(n), NewMd(n), Events(n), []);
  }
}
