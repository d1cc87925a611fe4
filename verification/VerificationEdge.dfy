/** Levels beyond the edge of a verification snapshot can be compared: when the levels that the
    snapshot lists go away before the comparison, the live book shows what it knows beyond them. */
module VerificationEdge {
  import opened Common
  import opened Ladders
  import opened Books
  import opened BookSyncs
  import VenueFeed
  import opened MdBooks
  import opened MdVerification
  import opened VerificationRuns

  /** Snapshots list at most `limit` levels a side, and the books have room for them. */
  datatype Sizing = Sizing(limit: nat, capacity: Capacity)

  type Sized = z: Sizing | 0 < z.limit <= z.capacity witness Sizing(1, 1)

  /** One lot is bid at each of `limit` prices from 9 on, and from update 5 at one more; from update 6
      on at 9 alone. */
  function Rests(z: Sized): VenueFeed.History {
    (update, side: Side, price) =>
      if side.Sell? then 0
      else if update <= 4 then (if 9 <= price < 9 + z.limit then 1 else 0)
      else if update == 5 then (if 9 <= price < 10 + z.limit then 1 else 0)
      else if price == 9 then 1 else 0
  }

  function OneVenue(z: Sized): Venue {
    i => Rests(z)
  }

  /** All the bids there are at update 4. */
  function Body4(z: Sized): SnapshotBody {
    SnapshotBody(4, Bids(9, z.limit), [])
  }

  /** The best `limit` bids at update 5, which end at 10. */
  function Body5(z: Sized): SnapshotBody {
    SnapshotBody(5, Bids(10, z.limit), [])
  }

  const EDGE: Edges := Edges(Some(10), None)

  /** One message for the updates 5 and 6. */
  function Gone(z: Sized): ValidDelta {
    Delta(5, 6, Removals(z.limit))
  }

  function EdgeDecoders(z: Sized): Decoders {
    Decoders(m => Some(Update(0, 0, Gone(z))), (i, raw) => None)
  }

  function Events(z: Sized): seq<MdEvent> {
    VerifyOnce(Body4(z), NO_EDGES, Body5(z), EDGE)
  }

  // ---------------------------------------------------------------- everything is honest

  lemma BodiesAreRight(z: Sized)
    ensures RightUpTo(Rests(z), AsSnapshot(Body4(z)), NO_EDGES)
    ensures RightUpTo(Rests(z), AsSnapshot(Body5(z)), EDGE)
  {
    forall s: Side, p: int
      ensures VenueFeed.ExactAt(Rests(z), AsSnapshot(Body4(z)), s, p)
      ensures Within(s, EdgeOf(EDGE, s), p) ==> VenueFeed.ExactAt(Rests(z), AsSnapshot(Body5(z)), s, p)
    {
      BidsShow(9, z.limit, p);
      BidsShow(10, z.limit, p);
    }
  }

  lemma GoneIsHonest(z: Sized)
    ensures VenueFeed.Honest(Rests(z), Gone(z))
  {
    forall s: Side, p: int ensures VenueFeed.HonestAt(Rests(z), Gone(z), s, p) {
      RemovalsMention(z.limit, s, p);
    }
  }

  lemma EventsAreHonest(z: Sized)
    ensures HonestFeed(OneVenue(z), NewMd(z.capacity))
    ensures AllHonest(EdgeDecoders(z), OneVenue(z), Events(z))
    ensures HonestMdEvent(EdgeDecoders(z), OneVenue(z), OnMessage([]))
  {
    NewBooksAreHonest(OneVenue(z), 1, z.capacity, CONFIG);
    BodiesAreRight(z);
    GoneIsHonest(z);
  }

  // ---------------------------------------------------------------- the books

  function Live(z: Sized): SyncState {
    LiveWith(z.capacity, Loaded(z.capacity, 9, z.limit), 4)
  }

  function Shadow(z: Sized): SyncState {
    LiveWith(z.capacity, Loaded(z.capacity, 10, z.limit), 5)
  }

  function Kept(z: Sized): LadderState {
    Left(Live(z).book, z.limit)
  }

  function Emptied(z: Sized): LadderState {
    Left(Shadow(z).book, z.limit)
  }

  /** The live book is left with the bid at 9. */
  lemma KeepsNine(z: Sized)
    ensures Kept(z).horizon.None? && |Kept(z).levels| == 1 && Kept(z).levels[0].price == 9
  {
    forall p ensures QtyAt(Kept(z).levels, p) == if p == 9 then 1 else 0 {
      LoadedShows(z.capacity, 9, z.limit, p);
      LeftShows(Live(z).book, z.limit, p);
    }
    ShowsOne(Kept(z), 9);
    QtyIs(Buy, Kept(z).levels, 0);
  }

  /** The rebuilt book is left with nothing. */
  lemma NothingLeft(z: Sized)
    ensures Emptied(z).horizon.None? && Emptied(z).levels == []
  {
    forall p ensures QtyAt(Emptied(z).levels, p) == 0 {
      LoadedShows(z.capacity, 10, z.limit, p);
      LeftShows(Shadow(z).book, z.limit, p);
    }
    ShowsNone(Emptied(z));
  }

  // ---------------------------------------------------------------- the run

  lemma RunToWaiting(z: Sized)
    ensures FeedSound(NewMd(z.capacity))
    ensures SyncInv(Live(z)) && SyncInv(Shadow(z)) && MdInv(Waiting(Live(z), Shadow(z)))
    ensures RunMd(EdgeDecoders(z), NewMd(z.capacity), Events(z))
            == MdFeed(Waiting(Live(z), Shadow(z)), [NO_EDGES], EDGE)
  {
    GoesLive(z.capacity, 4, 9, z.limit);
    GoesLive(z.capacity, 5, 10, z.limit);
    RunWaits(EdgeDecoders(z), z.capacity, Body4(z), NO_EDGES, Body5(z), EDGE, Live(z), Shadow(z));
  }

  /** What is compared after the message. */
  function Compared(z: Sized): MdState {
    Waiting(LiveWith(z.capacity, Kept(z), 6), LiveWith(z.capacity, Emptied(z), 6))
  }

  lemma BothTakeIt(z: Sized)
    requires SyncInv(Live(z)) && SyncInv(Shadow(z)) && MdInv(Waiting(Live(z), Shadow(z)))
    ensures ComparedByMessage(EdgeDecoders(z), Waiting(Live(z), Shadow(z)), []) == Some(Compared(z))
  {
    TakesRemovals(z.capacity, Live(z).book.bids, 4, Gone(z), z.limit);
    TakesRemovals(z.capacity, Shadow(z).book.bids, 5, Gone(z), z.limit);
    ComesLevel(EdgeDecoders(z), Live(z), Shadow(z), Gone(z), LiveWith(z.capacity, Kept(z), 6),
               LiveWith(z.capacity, Emptied(z), 6), DeltaApplied);
  }

  /** No book compared has dropped a level, and one shows a bid that is beyond the snapshot's edge. */
  ghost predicate DiffersBeyondEdge(c: MdState, edges: Edges)
    requires Due(c)
  {
    && LiveBook(c).bids.horizon.None? && c.shadow.book.bids.horizon.None?
    && c.shadow.book.bids.levels == []
    && |LiveBook(c).bids.levels| == 1 && !Within(Buy, edges.bids, LiveBook(c).bids.levels[0].price)
  }

  /** Whatever the depth of snapshots and books: from new books, with every message honest and every
      snapshot right up to its edge, a level beyond the edge of the verification snapshot is compared,
      and a mismatch is reported. */
  lemma ComparesBeyondEdge(z: Sized)
    ensures HonestFeed(OneVenue(z), NewMd(z.capacity))
    ensures AllHonest(EdgeDecoders(z), OneVenue(z), Events(z))
    ensures HonestMdEvent(EdgeDecoders(z), OneVenue(z), OnMessage([]))
    ensures var s := RunMd(EdgeDecoders(z), NewMd(z.capacity), Events(z)).books;
            var c := ComparedByMessage(EdgeDecoders(z), s, []);
            && MismatchOn(EdgeDecoders(z), s, [])
            && c.Some? && DiffersBeyondEdge(c.value, EDGE)
  {
    EventsAreHonest(z);
    RunToWaiting(z);
    BothTakeIt(z);
    KeepsNine(z);
    NothingLeft(z);
    MessageMismatchIff(EdgeDecoders(z), OneVenue(z), NewMd(z.capacity), Events(z), []);
  }
}
