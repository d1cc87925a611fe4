/** A two-sided level-2 book (crates/bowst-book/src/book.rs). */
module Books {
  import opened Common
  import opened Ladders

  datatype LevelUpdate = LevelUpdate(side: Side, price: int, qty: int)

  datatype BookState = BookState(bids: LadderState, asks: LadderState)

  function SideOf(b: BookState, side: Side): LadderState {
    if side.Buy? then b.bids else b.asks
  }

  ghost predicate WellFormedBook(b: BookState) {
    && WellFormed(b.bids) && b.bids.side == Buy
    && WellFormed(b.asks) && b.asks.side == Sell
  }

  predicate EmptyBook(b: BookState) {
    b == ClearedBook(b)
  }

  function Best(l: LadderState): Option<Level> {
    if l.levels == [] then None else Some(l.levels[|l.levels| - 1])
  }

  predicate Crossed(b: BookState) {
    Best(b.bids).Some? && Best(b.asks).Some? && Best(b.bids).value.price >= Best(b.asks).value.price
  }

  function ApplyTo(b: BookState, u: LevelUpdate): (BookState, Result<Applied, BookError>)
    requires WellFormedBook(b)
  {
    var (l, r) := Apply(SideOf(b, u.side), u.price, u.qty);
    (if u.side.Buy? then b.(bids := l) else b.(asks := l), r)
  }

  function ClearedBook(b: BookState): BookState {
    BookState(Cleared(b.bids), Cleared(b.asks))
  }

  /** Loads the bids, then (only if that worked) the asks; any error empties both sides. */
  function LoadBook(b: BookState, bids: seq<Level>, asks: seq<Level>): (BookState, Result<(), BookError>)
    requires WellFormedBook(b)
  {
    var (newBids, r) := Load(b.bids, bids);
    if r.Err? then (ClearedBook(b), r)
    else
      var (newAsks, r') := Load(b.asks, asks);
      if r'.Err? then (ClearedBook(b), r') else (BookState(newBids, newAsks), Ok(()))
  }

  // ---------------------------------------------------------------- quantities on both sides

  ghost function Qty(b: BookState, side: Side, price: int): int {
    QtyAt(SideOf(b, side).levels, price)
  }

  /** The price lies beyond what that side of the book still knows exactly. */
  ghost predicate Unknown(b: BookState, side: Side, price: int) {
    Beyond(SideOf(b, side), price)
  }

  /** Applies updates in order, stopping at the first invalid one. */
  function ApplyAll(b: BookState, updates: seq<LevelUpdate>): (r: Result<BookState, BookError>)
    requires WellFormedBook(b)
    ensures r.Ok? ==> WellFormedBook(r.value)
  {
    var n := |updates|;
    if n == 0 then Ok(b)
    else
      match ApplyAll(b, updates[..n - 1])
      case Err(e) => Err(e)
      case Ok(b') =>
        var (b'', r) := ApplyTo(b', updates[n - 1]);
        if r.Err? then Err(r.error)
        else
          ApplyToSets(b', updates[n - 1]);
          Ok(b'')
  }

  /** The last quantity `updates` gives for a price, if it mentions the price at all. */
  function Mention(updates: seq<LevelUpdate>, side: Side, price: int): Option<int> {
    var n := |updates|;
    if n == 0 then None
    else if updates[n - 1].side == side && updates[n - 1].price == price then Some(updates[n - 1].qty)
    else Mention(updates[..n - 1], side, price)
  }

  lemma ApplyToSets(b: BookState, u: LevelUpdate)
    requires WellFormedBook(b) && ApplyTo(b, u).1.Ok?
    ensures WellFormedBook(ApplyTo(b, u).0)
    ensures forall s, p :: !Unknown(ApplyTo(b, u).0, s, p) ==>
              && !Unknown(b, s, p)
              && Qty(ApplyTo(b, u).0, s, p) == if s == u.side && p == u.price then u.qty else Qty(b, s, p)
  {
    ApplySets(SideOf(b, u.side), u.price, u.qty);
  }

  /** A list of updates sets exactly the prices it mentions, each to its last mention. */
  lemma {:induction false} ApplyAllSets(b: BookState, updates: seq<LevelUpdate>)
    requires WellFormedBook(b) && ApplyAll(b, updates).Ok?
    ensures forall s, p :: !Unknown(ApplyAll(b, updates).value, s, p) ==>
              && !Unknown(b, s, p)
              && Qty(ApplyAll(b, updates).value, s, p)
                 == match Mention(updates, s, p) case Some(q) => q case None => Qty(b, s, p)
  {
    var n := |updates|;
    if n > 0 {
      ApplyAllSets(b, updates[..n - 1]);
      ApplyToSets(ApplyAll(b, updates[..n - 1]).value, updates[n - 1]);
    }
  }

  /** What one side of a book sees of a list of updates. */
  function OpsOf(updates: seq<LevelUpdate>, side: Side): seq<LadderOp> {
    if updates == [] then []
    else
      var u := updates[|updates| - 1];
      OpsOf(updates[..|updates| - 1], side) + if u.side == side then [OpApply(u.price, u.qty)] else []
  }

  lemma {:induction false} OpsSplit(a: seq<LevelUpdate>, b: seq<LevelUpdate>, side: Side)
    ensures OpsOf(a + b, side) == OpsOf(a, side) + OpsOf(b, side)
    decreases |b|
  {
    if b == [] {
      assert a + b == a;
    } else {
      EndsIn(a, b);
      OpsSplit(a, b[..|b| - 1], side);
    }
  }

  /** The venue may send this update. */
  predicate ValidUpdate(u: LevelUpdate) {
    u.price > 0 && u.qty >= 0
  }

  ghost predicate AllValid(updates: seq<LevelUpdate>) {
    forall u :: u in updates ==> ValidUpdate(u)
  }

  /** The first update that is not valid, and why. */
  ghost predicate FirstFault(updates: seq<LevelUpdate>, e: BookError) {
    exists k :: FaultAt(updates, e, k)
  }

  ghost predicate FaultAt(updates: seq<LevelUpdate>, e: BookError, k: int) {
    && 0 <= k < |updates| && !ValidUpdate(updates[k]) && AllValid(updates[..k])
    && e == if updates[k].price <= 0 then InvalidPrice(updates[k].side, updates[k].price)
            else InvalidQty(updates[k].side, updates[k].price, updates[k].qty)
  }

  lemma FaultStaysFirst(updates: seq<LevelUpdate>, more: seq<LevelUpdate>, e: BookError)
    requires FirstFault(updates, e)
    ensures FirstFault(updates + more, e)
  {
    var k :| FaultAt(updates, e, k);
    assert (updates + more)[..k] == updates[..k];
    assert FaultAt(updates + more, e, k);
  }

  lemma FaultLater(updates: seq<LevelUpdate>, more: seq<LevelUpdate>, e: BookError)
    requires AllValid(updates) && FirstFault(more, e)
    ensures FirstFault(updates + more, e)
  {
    var k :| FaultAt(more, e, k);
    var all := updates + more;
    assert all[..|updates| + k] == updates + more[..k];
    assert FaultAt(all, e, |updates| + k);
  }

  lemma BothValid(a: seq<LevelUpdate>, b: seq<LevelUpdate>)
    ensures AllValid(a + b) <==> AllValid(a) && AllValid(b)
  {
    assert forall x :: x in a + b <==> x in a || x in b;
  }

  lemma OneMoreValid(updates: seq<LevelUpdate>, u: LevelUpdate)
    ensures AllValid(updates + [u]) <==> AllValid(updates) && ValidUpdate(u)
  {
    assert u in updates + [u] && forall x :: x in updates ==> x in updates + [u];
  }

  /** One more update after a list of valid ones. */
  lemma ApplyToAnswers(b: BookState, u: LevelUpdate)
    requires WellFormedBook(b)
    ensures ApplyTo(b, u).1.Ok? <==> ValidUpdate(u)
    ensures !ValidUpdate(u) ==> FaultAt([u], ApplyTo(b, u).1.error, 0)
    ensures ValidUpdate(u) ==>
              && ApplyTo(b, u).0.bids == (if u.side.Buy? then StepLadder(b.bids, OpApply(u.price, u.qty)) else b.bids)
              && ApplyTo(b, u).0.asks == (if u.side.Buy? then b.asks else StepLadder(b.asks, OpApply(u.price, u.qty)))
  {
    ApplyAnswers(SideOf(b, u.side), u.price, u.qty);
  }

  /** Applying a list of updates works exactly if all of them are valid, and then each side has taken its
      own updates in order; otherwise it fails with what is wrong with the first that is not valid. */
  lemma {:induction false} ApplyAllAnswers(b: BookState, updates: seq<LevelUpdate>)
    requires WellFormedBook(b)
    ensures ApplyAll(b, updates).Ok? <==> AllValid(updates)
    ensures ApplyAll(b, updates).Err? ==> FirstFault(updates, ApplyAll(b, updates).error)
    ensures ApplyAll(b, updates).Ok? ==>
              && ApplyAll(b, updates).value.bids == RunLadder(b.bids, OpsOf(updates, Buy))
              && ApplyAll(b, updates).value.asks == RunLadder(b.asks, OpsOf(updates, Sell))
  {
    var n := |updates|;
    if n > 0 {
      var init, u := updates[..n - 1], updates[n - 1];
      assert updates == init + [u];
      OneMoreValid(init, u);
      ApplyAllAnswers(b, init);
      if ApplyAll(b, init).Err? {
        FaultStaysFirst(init, [u], ApplyAll(b, init).error);
      } else {
        ApplyOneMore(b, ApplyAll(b, init).value, init, u);
      }
    }
  }

  lemma ApplyOneMore(b: BookState, b': BookState, init: seq<LevelUpdate>, u: LevelUpdate)
    requires WellFormedBook(b) && WellFormedBook(b') && AllValid(init)
    requires b'.bids == RunLadder(b.bids, OpsOf(init, Buy)) && b'.asks == RunLadder(b.asks, OpsOf(init, Sell))
    ensures ApplyTo(b', u).1.Ok? <==> ValidUpdate(u)
    ensures !ValidUpdate(u) ==> FirstFault(init + [u], ApplyTo(b', u).1.error)
    ensures ValidUpdate(u) ==>
              && ApplyTo(b', u).0.bids == RunLadder(b.bids, OpsOf(init + [u], Buy))
              && ApplyTo(b', u).0.asks == RunLadder(b.asks, OpsOf(init + [u], Sell))
  {
    ApplyToAnswers(b', u);
    assert (init + [u])[..|init|] == init;
    if ValidUpdate(u) {
      TakesOne(b.bids, init, u, Buy);
      TakesOne(b.asks, init, u, Sell);
    } else {
      assert FaultAt(init + [u], ApplyTo(b', u).1.error, |init|);
    }
  }

  lemma TakesOne(l: LadderState, init: seq<LevelUpdate>, u: LevelUpdate, side: Side)
    requires WellFormed(l)
    ensures RunLadder(l, OpsOf(init + [u], side))
         == var before := RunLadder(l, OpsOf(init, side));
            if u.side == side then StepLadder(before, OpApply(u.price, u.qty)) else before
  {
    var ops, op := OpsOf(init, side), OpApply(u.price, u.qty);
    assert (init + [u])[..|init|] == init;
    if u.side == side {
      assert (ops + [op])[..|ops|] == ops;
    } else {
      assert ops + [] == ops;
    }
  }

  /** Some bid is at or above some ask. */
  ghost predicate Crosses(b: BookState) {
    exists x, y :: x in b.bids.levels && y in b.asks.levels && x.price >= y.price
  }

  ghost predicate IsBest(l: LadderState, price: int) {
    (exists x :: x in l.levels && x.price == price) && forall x :: x in l.levels ==> !Better(l.side, x.price, price)
  }

  lemma BestIsBest(l: LadderState)
    requires WellFormed(l) && Best(l).Some?
    ensures Best(l).value in l.levels && IsBest(l, Best(l).value.price)
  {
    var n := |l.levels|;
    assert l.levels[n - 1] in l.levels;
    forall x | x in l.levels ensures !Better(l.side, x.price, Best(l).value.price) {
      var k :| 0 <= k < n && l.levels[k] == x;
    }
  }

  lemma CrossedIff(b: BookState)
    requires WellFormedBook(b)
    ensures Crossed(b) <==> Crosses(b)
    ensures Crossed(b) ==> IsBest(b.bids, Best(b.bids).value.price) && IsBest(b.asks, Best(b.asks).value.price)
  {
    if Best(b.bids).Some? { BestIsBest(b.bids); }
    if Best(b.asks).Some? { BestIsBest(b.asks); }
    if x, y :| x in b.bids.levels && y in b.asks.levels && x.price >= y.price {
      assert Best(b.bids).Some? && Best(b.asks).Some?;
    }
  }

  /** A loaded snapshot shows the quantities it lists, up to each side's horizon. */
  lemma LoadBookSets(b: BookState, bids: seq<Level>, asks: seq<Level>)
    requires WellFormedBook(b) && LoadBook(b, bids, asks).1.Ok?
    ensures WellFormedBook(LoadBook(b, bids, asks).0)
    ensures forall s: Side, p :: !Unknown(LoadBook(b, bids, asks).0, s, p) ==>
              Qty(LoadBook(b, bids, asks).0, s, p) == QtyAt(if s.Buy? then bids else asks, p)
  {
    LoadKeepsBest(b.bids, bids);
    LoadKeepsBest(b.asks, asks);
    LoadSets(b.bids, bids);
    LoadSets(b.asks, asks);
  }

  // ---------------------------------------------------------------- the book itself

  class Book {
    const bids: Ladder
    const asks: Ladder

    ghost predicate Valid()
      reads this, bids, asks
    {
      bids != asks && WellFormedBook(View())
    }

    ghost function View(): BookState
      reads this, bids, asks
    {
      BookState(bids.View(), asks.View())
    }

    constructor (levelsPerSide: nat)
      requires 0 < levelsPerSide
      ensures Valid() && fresh(bids) && fresh(asks)
      ensures View() == BookState(LadderState(Buy, levelsPerSide, [], None),
                                  LadderState(Sell, levelsPerSide, [], None))
    {
      bids := new Ladder(Buy, levelsPerSide);
      asks := new Ladder(Sell, levelsPerSide);
    }

    method ApplyUpdate(u: LevelUpdate) returns (r: Result<Applied, BookError>)
      requires Valid()
      modifies bids, asks
      ensures Valid()
      ensures (View(), r) == ApplyTo(old(View()), u)
    {
      if u.side.Buy? {
        r := bids.ApplyUpdate(u.price, u.qty);
      } else {
        r := asks.ApplyUpdate(u.price, u.qty);
      }
    }

    method LoadSides(bidLevels: seq<Level>, askLevels: seq<Level>) returns (r: Result<(), BookError>)
      requires Valid()
      modifies bids, asks
      ensures Valid()
      ensures (View(), r) == LoadBook(old(View()), bidLevels, askLevels)
    {
      r := bids.LoadLevels(bidLevels);
      if r.Ok? {
        r := asks.LoadLevels(askLevels);
      }
      LoadKeepsBest(old(bids.View()), bidLevels);
      LoadKeepsBest(old(asks.View()), askLevels);
      if r.Err? {
        Clear();
      }
    }

    method Clear()
      requires bids != asks
      modifies bids, asks
      ensures View() == ClearedBook(old(View()))
    {
      bids.Clear();
      asks.Clear();
    }
  }
}
