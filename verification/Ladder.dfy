/** One side of a level-2 book (crates/bowst-book/src/ladder.rs): a bounded array of levels sorted
    from worst to best, with a horizon beyond which nothing is known.

    The value type `LadderState` and the functions on it say what each operation computes; the
    class `Ladder` at the end performs them step by step and is proved equal to the functions. */
module Ladders {
  import opened Common

  datatype Side = Buy | Sell

  datatype Level = Level(price: int, qty: int)

  datatype BookError =
    | ZeroCapacity
    | InvalidPrice(side: Side, price: int)
    | InvalidQty(side: Side, price: int, qty: int)
    | DuplicateLevel(side: Side, price: int)

  datatype Applied = Inserted | Updated | Removed | Unchanged | BeyondHorizon

  datatype LadderState = LadderState(side: Side, capacity: nat, levels: seq<Level>, horizon: Option<int>)

  /** `Side::is_more_aggressive`: `a` is a strictly better price than `b`. */
  predicate Better(side: Side, a: int, b: int) {
    if side.Buy? then a > b else a < b
  }

  predicate Beyond(l: LadderState, price: int) {
    l.horizon.Some? && Better(l.side, l.horizon.value, price)
  }

  ghost predicate StrictlySorted(side: Side, levels: seq<Level>) {
    forall i, j :: 0 <= i < j < |levels| ==> Better(side, levels[j].price, levels[i].price)
  }

  /** The representation invariant of a ladder. */
  ghost predicate WellFormed(l: LadderState) {
    && 0 < l.capacity
    && |l.levels| <= l.capacity
    && StrictlySorted(l.side, l.levels)
    && (forall i :: 0 <= i < |l.levels| ==>
          && l.levels[i].price > 0
          && l.levels[i].qty > 0
          && !Beyond(l, l.levels[i].price))
  }

  /** The quantity listed at `price`, zero when no level is listed there. */
  ghost function QtyAt(levels: seq<Level>, price: int): int {
    if exists i :: 0 <= i < |levels| && levels[i].price == price then
      var i :| 0 <= i < |levels| && levels[i].price == price;
      levels[i].qty
    else 0
  }

  /** Where `price` belongs: every level before is worse, none from there on is. */
  function Position(side: Side, levels: seq<Level>, price: int): (r: nat)
    requires StrictlySorted(side, levels)
    ensures r <= |levels|
    ensures forall i :: 0 <= i < r ==> Better(side, price, levels[i].price)
    ensures forall i :: r <= i < |levels| ==> !Better(side, price, levels[i].price)
  {
    var n := |levels|;
    if n == 0 then 0
    else if Better(side, price, levels[n - 1].price) then n
    else Position(side, levels[..n - 1], price)
  }

  predicate HeldAt(levels: seq<Level>, i: nat, price: int) {
    i < |levels| && levels[i].price == price
  }

  function Validate(side: Side, price: int, qty: int): Option<BookError> {
    if price <= 0 then Some(InvalidPrice(side, price))
    else if qty < 0 then Some(InvalidQty(side, price, qty))
    else None
  }

  function Insert(l: LadderState, i: nat, level: Level): (LadderState, Applied)
    requires i <= |l.levels|
    requires |l.levels| >= l.capacity ==> 0 < |l.levels|
  {
    if |l.levels| < l.capacity then
      (l.(levels := l.levels[..i] + [level] + l.levels[i..]), Inserted)
    else if i == 0 then
      (l.(horizon := Some(l.levels[0].price)), BeyondHorizon)
    else
      var kept := l.levels[1..i] + [level] + l.levels[i..];
      (l.(levels := kept, horizon := Some(kept[0].price)), Inserted)
  }

  function Apply(l: LadderState, price: int, qty: int): (LadderState, Result<Applied, BookError>)
    requires WellFormed(l)
  {
    if Validate(l.side, price, qty).Some? then (l, Err(Validate(l.side, price, qty).value))
    else if Beyond(l, price) then (l, Ok(BeyondHorizon))
    else
      var i := Position(l.side, l.levels, price);
      if HeldAt(l.levels, i, price) then
        if qty == 0 then (l.(levels := l.levels[..i] + l.levels[i + 1..]), Ok(Removed))
        else (l.(levels := l.levels[i := Level(price, qty)]), Ok(Updated))
      else if qty == 0 then (l, Ok(Unchanged))
      else
        var (l', applied) := Insert(l, i, Level(price, qty));
        (l', Ok(applied))
  }

  function Cleared(l: LadderState): LadderState {
    l.(levels := [], horizon := None)
  }

  // ---------------------------------------------------------------- quantities

  lemma QtyIs(side: Side, levels: seq<Level>, i: nat)
    requires StrictlySorted(side, levels) && i < |levels|
    ensures QtyAt(levels, levels[i].price) == levels[i].qty
  {
  }

  /** Two sorted lists with the same levels at `price` show the same quantity there. */
  lemma SameQty(side: Side, a: seq<Level>, b: seq<Level>, price: int)
    requires StrictlySorted(side, a) && StrictlySorted(side, b)
    requires forall x: Level :: x.price == price ==> (x in a <==> x in b)
    ensures QtyAt(a, price) == QtyAt(b, price)
  {
    if i :| 0 <= i < |a| && a[i].price == price {
      var j :| 0 <= j < |b| && b[j] == a[i];
      QtyIs(side, a, i);
      QtyIs(side, b, j);
    }
  }

  // ---------------------------------------------------------------- one update

  /** `l'` comes from `l` by setting `price` to `qty`: the horizon only improves, and up to the new
      horizon every other price keeps its quantity. */
  ghost predicate Sets(l: LadderState, l': LadderState, price: int, qty: int) {
    && l'.side == l.side
    && l'.capacity == l.capacity
    && forall p :: !Beyond(l', p) ==>
         !Beyond(l, p) && QtyAt(l'.levels, p) == if p == price then qty else QtyAt(l.levels, p)
  }

  /** Where every level is once one has been inserted. */
  lemma InsertedAt(levels: seq<Level>, i: nat, level: Level, k: nat)
    requires i <= |levels| && k <= |levels|
    ensures (levels[..i] + [level] + levels[i..])[k]
         == if k < i then levels[k] else if k == i then level else levels[k - 1]
  {
  }

  lemma InsertedMembers(levels: seq<Level>, i: nat, level: Level)
    requires i <= |levels|
    ensures forall x :: x in levels[..i] + [level] + levels[i..] <==> x in levels || x == level
  {
    assert levels == levels[..i] + levels[i..];
  }

  lemma InsertedSorted(side: Side, levels: seq<Level>, i: nat, level: Level)
    requires StrictlySorted(side, levels)
    requires i == Position(side, levels, level.price) && !HeldAt(levels, i, level.price)
    ensures StrictlySorted(side, levels[..i] + [level] + levels[i..])
  {
    var all := levels[..i] + [level] + levels[i..];
    forall k | i <= k < |levels| ensures Better(side, levels[k].price, level.price) {
      if k != i { assert Better(side, levels[k].price, levels[i].price); }
    }
    forall a, b | 0 <= a < b < |all| ensures Better(side, all[b].price, all[a].price) {
      InsertedAt(levels, i, level, a);
      InsertedAt(levels, i, level, b);
    }
  }

  lemma InsertKeepsSorted(side: Side, levels: seq<Level>, i: nat, level: Level)
    requires StrictlySorted(side, levels)
    requires i == Position(side, levels, level.price) && !HeldAt(levels, i, level.price)
    ensures StrictlySorted(side, levels[..i] + [level] + levels[i..])
    ensures forall x :: x in levels[..i] + [level] + levels[i..] <==> x in levels || x == level
  {
    InsertedSorted(side, levels, i, level);
    InsertedMembers(levels, i, level);
  }

  /** A ladder whose horizon is its worst level leaves none of its levels beyond it. */
  lemma HorizonAtWorst(l: LadderState)
    requires 0 < |l.levels| <= l.capacity && StrictlySorted(l.side, l.levels)
    requires forall x :: x in l.levels ==> ValidLevel(x)
    requires l.horizon == Some(l.levels[0].price)
    ensures WellFormed(l)
  {
    assert forall k :: 0 <= k < |l.levels| ==> l.levels[k] in l.levels;
  }

  lemma InsertWellFormed(l: LadderState, i: nat, level: Level)
    requires WellFormed(l) && level.price > 0 && level.qty > 0 && !Beyond(l, level.price)
    requires i == Position(l.side, l.levels, level.price) && !HeldAt(l.levels, i, level.price)
    ensures WellFormed(Insert(l, i, level).0)
  {
    if |l.levels| < l.capacity {
      InsertedSorted(l.side, l.levels, i, level);
      forall k: nat | k <= |l.levels| { InsertedAt(l.levels, i, level, k); }
    } else if i == 0 {
      HorizonAtWorst(Insert(l, i, level).0);
    } else {
      InsertFullWellFormed(l, i, level);
    }
  }

  lemma InsertFullWellFormed(l: LadderState, i: nat, level: Level)
    requires WellFormed(l) && level.price > 0 && level.qty > 0
    requires i == Position(l.side, l.levels, level.price) && !HeldAt(l.levels, i, level.price)
    requires |l.levels| == l.capacity && 0 < i
    ensures WellFormed(Insert(l, i, level).0)
  {
    var all := l.levels[..i] + [level] + l.levels[i..];
    var l' := Insert(l, i, level).0;
    assert l'.levels == all[1..];
    InsertKeepsSorted(l.side, l.levels, i, level);
    assert forall x :: x in all[1..] ==> x in all;
    HorizonAtWorst(l');
  }

  lemma InsertFullQty(l: LadderState, i: nat, level: Level, p: int)
    requires WellFormed(l) && level.price > 0 && level.qty > 0
    requires i == Position(l.side, l.levels, level.price) && !HeldAt(l.levels, i, level.price) && 0 < i
    requires !Better(l.side, (l.levels[1..i] + [level] + l.levels[i..])[0].price, p)
    ensures QtyAt(l.levels[1..i] + [level] + l.levels[i..], p)
         == if p == level.price then level.qty else QtyAt(l.levels, p)
  {
    var all, kept := l.levels[..i] + [level] + l.levels[i..], l.levels[1..i] + [level] + l.levels[i..];
    InsertKeepsSorted(l.side, l.levels, i, level);
    assert kept == all[1..] && all == [l.levels[0]] + kept;
    assert Better(l.side, all[1].price, all[0].price);
    if p == level.price { QtyIs(l.side, kept, i - 1); } else { SameQty(l.side, kept, l.levels, p); }
  }

  lemma InsertQty(l: LadderState, i: nat, level: Level, p: int)
    requires WellFormed(l) && level.price > 0 && level.qty > 0 && !Beyond(l, level.price)
    requires i == Position(l.side, l.levels, level.price) && !HeldAt(l.levels, i, level.price)
    requires !Beyond(Insert(l, i, level).0, p)
    ensures !Beyond(l, p)
    ensures QtyAt(Insert(l, i, level).0.levels, p) == if p == level.price then level.qty else QtyAt(l.levels, p)
  {
    if |l.levels| < l.capacity {
      var all := l.levels[..i] + [level] + l.levels[i..];
      InsertKeepsSorted(l.side, l.levels, i, level);
      if p == level.price { QtyIs(l.side, all, i); } else { SameQty(l.side, all, l.levels, p); }
    } else if i > 0 {
      InsertFullQty(l, i, level, p);
    }
  }

  /** The one law every caller needs: a successful update leaves a well-formed ladder that differs
      only at the updated price, up to a horizon that only improves. */
  lemma ApplySets(l: LadderState, price: int, qty: int)
    requires WellFormed(l) && Apply(l, price, qty).1.Ok?
    ensures WellFormed(Apply(l, price, qty).0)
    ensures Sets(l, Apply(l, price, qty).0, price, qty)
  {
    var l' := Apply(l, price, qty).0;
    if !Beyond(l, price) {
      var i := Position(l.side, l.levels, price);
      if HeldAt(l.levels, i, price) {
        if qty == 0 { RemoveSets(l, i); } else { ReplaceSets(l, i, qty); }
      } else if qty == 0 {
        forall k | 0 <= k < |l.levels| ensures l.levels[k].price != price {
        }
      } else {
        var level := Level(price, qty);
        InsertWellFormed(l, i, level);
        forall p | !Beyond(l', p) ensures !Beyond(l, p)
          ensures QtyAt(l'.levels, p) == if p == price then qty else QtyAt(l.levels, p)
        {
          InsertQty(l, i, level, p);
        }
      }
    }
  }

  lemma RemoveSets(l: LadderState, i: nat)
    requires WellFormed(l) && i < |l.levels|
    ensures var l' := l.(levels := l.levels[..i] + l.levels[i + 1..]);
            WellFormed(l') && Sets(l, l', l.levels[i].price, 0)
  {
    var a := l.levels;
    var b := a[..i] + a[i + 1..];
    assert a == a[..i] + [a[i]] + a[i + 1..];
    assert forall x :: x in a <==> x in b || x == a[i];
    assert forall k :: 0 <= k < |b| ==> b[k].price != a[i].price;
    forall p ensures QtyAt(b, p) == if p == a[i].price then 0 else QtyAt(a, p) {
      if p != a[i].price { SameQty(l.side, a, b, p); }
    }
  }

  lemma ReplaceSets(l: LadderState, i: nat, qty: int)
    requires WellFormed(l) && i < |l.levels| && qty > 0
    ensures var l' := l.(levels := l.levels[i := Level(l.levels[i].price, qty)]);
            WellFormed(l') && Sets(l, l', l.levels[i].price, qty)
  {
    var a := l.levels;
    var b := a[i := Level(a[i].price, qty)];
    forall p ensures QtyAt(b, p) == if p == a[i].price then qty else QtyAt(a, p) {
      if p == a[i].price {
        QtyIs(l.side, b, i);
      } else {
        forall x: Level | x.price == p ensures x in a <==> x in b {
          if x in a { var k :| 0 <= k < |a| && a[k] == x; assert b[k] == x; }
          if x in b { var k :| 0 <= k < |b| && b[k] == x; assert a[k] == x; }
        }
        SameQty(l.side, a, b, p);
      }
    }
  }

  ghost predicate AllBetter(l: LadderState, price: int) {
    forall x :: x in l.levels ==> Better(l.side, x.price, price)
  }

  /** What an update is answered, from the quantity held at its price and the room there is. */
  ghost function UpdateAnswer(l: LadderState, price: int, qty: int): Result<Applied, BookError> {
    var held := QtyAt(l.levels, price) > 0;
    if price <= 0 then Err(InvalidPrice(l.side, price))
    else if qty < 0 then Err(InvalidQty(l.side, price, qty))
    else if Beyond(l, price) then Ok(BeyondHorizon)
    else if qty == 0 then Ok(if held then Removed else Unchanged)
    else if held then Ok(Updated)
    else if |l.levels| == l.capacity && AllBetter(l, price) then Ok(BeyondHorizon)
    else Ok(Inserted)
  }

  /** The update adds a level to a full ladder, so that one level must go. */
  ghost predicate Overflows(l: LadderState, price: int, qty: int) {
    && price > 0 && qty > 0 && !Beyond(l, price) && QtyAt(l.levels, price) == 0 && |l.levels| == l.capacity
  }

  lemma HeldIff(l: LadderState, price: int)
    requires WellFormed(l)
    ensures HeldAt(l.levels, Position(l.side, l.levels, price), price) <==> QtyAt(l.levels, price) > 0
  {
    var i := Position(l.side, l.levels, price);
    if HeldAt(l.levels, i, price) { QtyIs(l.side, l.levels, i); }
  }

  lemma WorstIff(l: LadderState, price: int)
    requires WellFormed(l) && QtyAt(l.levels, price) == 0
    ensures Position(l.side, l.levels, price) == 0 <==> AllBetter(l, price)
  {
    HeldIff(l, price);
    var i := Position(l.side, l.levels, price);
    if i > 0 { assert l.levels[0] in l.levels; }
    forall x | i == 0 && x in l.levels ensures Better(l.side, x.price, price) {
      var k :| 0 <= k < |l.levels| && l.levels[k] == x;
      QtyIs(l.side, l.levels, k);
    }
  }

  /** What every update answers, and that it forgets a level only if the ladder is full: then the horizon
      moves to the worst level left, and the ladder stays full. */
  lemma ApplyAnswers(l: LadderState, price: int, qty: int)
    requires WellFormed(l)
    ensures var (l', r) := Apply(l, price, qty);
            && r == UpdateAnswer(l, price, qty)
            && (r.Err? ==> l' == l)
            && (if Overflows(l, price, qty) then |l'.levels| == l.capacity && l'.horizon == Some(l'.levels[0].price)
                else l'.horizon == l.horizon)
  {
    HeldIff(l, price);
    if QtyAt(l.levels, price) == 0 { WorstIff(l, price); }
  }

  // ---------------------------------------------------------------- loading a snapshot

  ghost predicate WeaklySorted(side: Side, levels: seq<Level>) {
    forall i, j :: 0 <= i < j < |levels| ==> !Better(side, levels[i].price, levels[j].price)
  }

  function InsertInOrder(side: Side, levels: seq<Level>, x: Level): (r: seq<Level>)
    requires WeaklySorted(side, levels)
    ensures multiset(r) == multiset(levels) + multiset{x}
    ensures WeaklySorted(side, r)
    ensures forall k :: 0 <= k < |r| ==> r[k] == x || r[k] in levels
  {
    var n := |levels|;
    if n == 0 then [x]
    else if !Better(side, levels[n - 1].price, x.price) then levels + [x]
    else
      assert levels == levels[..n - 1] + [levels[n - 1]];
      var r := InsertInOrder(side, levels[..n - 1], x);
      AppendKeepsOrder(side, r, levels[n - 1]);
      r + [levels[n - 1]]
  }

  lemma AppendKeepsOrder(side: Side, levels: seq<Level>, y: Level)
    requires WeaklySorted(side, levels)
    requires forall k :: 0 <= k < |levels| ==> !Better(side, levels[k].price, y.price)
    ensures WeaklySorted(side, levels + [y])
  {
  }

  /** `sort_unstable_by`: the levels in order, worst first. */
  function SortLevels(side: Side, levels: seq<Level>): (r: seq<Level>)
    ensures WeaklySorted(side, r) && multiset(r) == multiset(levels)
  {
    var n := |levels|;
    if n == 0 then []
    else
      assert levels == levels[..n - 1] + [levels[n - 1]];
      InsertInOrder(side, SortLevels(side, levels[..n - 1]), levels[n - 1])
  }

  /** The first price listed twice in a row. */
  function FirstRepeat(levels: seq<Level>): (r: Option<int>)
    ensures r.None? <==> forall i :: 0 <= i < |levels| - 1 ==> levels[i].price != levels[i + 1].price
  {
    if |levels| < 2 then None
    else if levels[0].price == levels[1].price then Some(levels[0].price)
    else
      var r := FirstRepeat(levels[1..]);
      assert forall i :: 0 < i < |levels| - 1 ==> levels[i] == levels[1..][i - 1] && levels[i + 1] == levels[1..][i];
      r
  }

  function SortAndCheck(l: LadderState): Result<LadderState, BookError> {
    var sorted := SortLevels(l.side, l.levels);
    match FirstRepeat(sorted)
    case Some(price) => Err(DuplicateLevel(l.side, price))
    case None => Ok(l.(levels := sorted))
  }

  predicate ValidLevel(x: Level) {
    x.price > 0 && x.qty > 0
  }

  /** What `load_inner` has built so far: unsorted while there is room, a full ladder afterwards. */
  ghost predicate Loading(l: LadderState, sorted: bool) {
    && 0 < l.capacity
    && |l.levels| <= l.capacity
    && (forall i :: 0 <= i < |l.levels| ==> ValidLevel(l.levels[i]))
    && (if sorted then |l.levels| == l.capacity && WellFormed(l) else l.horizon.None?)
  }

  lemma SortedChecked(l: LadderState)
    requires Loading(l, false) && SortAndCheck(l).Ok?
    ensures WellFormed(SortAndCheck(l).value)
    ensures |SortAndCheck(l).value.levels| == |l.levels|
  {
    var r := SortLevels(l.side, l.levels);
    assert |r| == |multiset(r)| == |multiset(l.levels)| == |l.levels|;
    forall i | 0 <= i < |r| ensures ValidLevel(r[i]) {
      assert r[i] in multiset(r);
    }
    forall i, j | 0 <= i < j < |r| ensures Better(l.side, r[j].price, r[i].price) {
      assert r[i].price != r[i + 1].price;
    }
  }

  /** Inserting into a full ladder keeps it full and well formed, even for a price that is already
      beyond the horizon (`load_inner` does not look at the horizon). */
  lemma FullInsert(l: LadderState, i: nat, x: Level)
    requires Loading(l, true) && ValidLevel(x)
    requires i == Position(l.side, l.levels, x.price) && !HeldAt(l.levels, i, x.price)
    ensures Loading(Insert(l, i, x).0, true)
  {
    if i > 0 {
      assert Better(l.side, x.price, l.levels[0].price);
      InsertWellFormed(l, i, x);
    }
  }

  /** How far `load_inner` has got: collecting levels in the order given while there is room, then
      inserting into a full sorted ladder, unless something was wrong. */
  datatype LoadState = Filling(filling: LadderState) | Full(full: LadderState) | Failed(error: BookError)

  ghost predicate LoadReady(st: LoadState) {
    match st
    case Filling(l) => Loading(l, false)
    case Full(l) => Loading(l, true)
    case Failed(_) => true
  }

  /** One round of the loop of `load_inner`. */
  function LoadStep(st: LoadState, x: Level): (r: LoadState)
    requires LoadReady(st)
    ensures LoadReady(r)
  {
    match st
    case Failed(_) => st
    case Filling(l) =>
      if Rejects(l.side, x).Some? then Failed(Rejects(l.side, x).value)
      else if |l.levels| < l.capacity then Filling(l.(levels := l.levels + [x]))
      else (
        match SortAndCheck(l)
        case Err(e) => Failed(e)
        case Ok(full) => SortedChecked(l); InsertNew(full, x)
      )
    case Full(l) =>
      if Rejects(l.side, x).Some? then Failed(Rejects(l.side, x).value) else InsertNew(l, x)
  }

  /** Why a snapshot may not contain `x` on this side. */
  function Rejects(side: Side, x: Level): (r: Option<BookError>)
    ensures r.None? <==> ValidLevel(x)
  {
    if Validate(side, x.price, x.qty).Some? then Validate(side, x.price, x.qty)
    else if x.qty == 0 then Some(InvalidQty(side, x.price, x.qty))
    else None
  }

  function InsertNew(l: LadderState, x: Level): (r: LoadState)
    requires Loading(l, true) && ValidLevel(x)
    ensures LoadReady(r)
  {
    var i := Position(l.side, l.levels, x.price);
    if HeldAt(l.levels, i, x.price) then Failed(DuplicateLevel(l.side, x.price))
    else
      FullInsert(l, i, x);
      Full(Insert(l, i, x).0)
  }

  function LoadPrefix(l: LadderState, input: seq<Level>): (r: LoadState)
    requires 0 < l.capacity
    ensures LoadReady(r)
  {
    var n := |input|;
    if n == 0 then Filling(Cleared(l)) else LoadStep(LoadPrefix(l, input[..n - 1]), input[n - 1])
  }

  function LoadFinish(st: LoadState): Result<LadderState, BookError> {
    match st
    case Failed(e) => Err(e)
    case Filling(l) => SortAndCheck(l)
    case Full(l) => Ok(l)
  }

  /** `Ladder::load`: the new contents, or the error (which leaves the ladder empty). */
  function Load(l: LadderState, input: seq<Level>): (LadderState, Result<(), BookError>)
    requires 0 < l.capacity
  {
    match LoadFinish(LoadPrefix(l, input))
    case Ok(l') => (l', Ok(()))
    case Err(e) => (Cleared(l), Err(e))
  }

  // ---------------------------------------------------------------- what a load keeps

  /** `l` holds exactly the best `capacity` levels of `input`, and a horizon iff some were dropped. */
  ghost predicate Keeps(l: LadderState, input: seq<Level>) {
    && WellFormed(l)
    && |l.levels| == Min(|input|, l.capacity)
    && l.horizon == (if |input| <= l.capacity then None else Some(l.levels[0].price))
    && (forall x :: x in l.levels ==> x in input)
    && (forall x :: x in input && !Beyond(l, x.price) ==> x in l.levels)
  }

  /** How many levels of `s` are better than `price`. */
  function CountBetter(side: Side, s: seq<Level>, price: int): nat {
    if s == [] then 0
    else CountBetter(side, s[..|s| - 1], price) + if Better(side, s[|s| - 1].price, price) then 1 else 0
  }

  /** A repeated price that a load notices: when its second occurrence arrives, fewer than
      `capacity` of the levels already read are better, so the first occurrence is still held. */
  ghost predicate NoticedAt(side: Side, capacity: nat, input: seq<Level>, i: int, j: int) {
    && 0 <= i < j < |input|
    && input[i].price == input[j].price
    && CountBetter(side, input[..j], input[j].price) < capacity
  }

  ghost predicate NoticedRepeat(side: Side, capacity: nat, input: seq<Level>) {
    exists i, j :: NoticedAt(side, capacity, input, i, j)
  }

  ghost predicate Distinct(s: seq<Level>) {
    forall i, j :: 0 <= i < j < |s| ==> s[i].price != s[j].price
  }

  ghost predicate Lists(s: seq<Level>, price: int) {
    exists i :: 0 <= i < |s| && s[i].price == price
  }

  lemma CountAppend(side: Side, a: seq<Level>, b: seq<Level>, price: int)
    ensures CountBetter(side, a + b, price) == CountBetter(side, a, price) + CountBetter(side, b, price)
  {
    if b == [] {
      assert a + b == a;
    } else {
      var n := |b| - 1;
      assert (a + b)[..|a + b| - 1] == a + b[..n];
      CountAppend(side, a, b[..n], price);
    }
  }

  lemma CountBound(side: Side, s: seq<Level>, price: int)
    ensures CountBetter(side, s, price) <= |s|
    ensures CountBetter(side, s, price) == |s| <==> forall i :: 0 <= i < |s| ==> Better(side, s[i].price, price)
  {
    if s != [] {
      CountBound(side, s[..|s| - 1], price);
    }
  }

  lemma CountInsertInOrder(side: Side, s: seq<Level>, x: Level, price: int)
    requires WeaklySorted(side, s)
    ensures CountBetter(side, InsertInOrder(side, s, x), price) == CountBetter(side, s + [x], price)
  {
    var n := |s|;
    assert (s + [x])[..n] == s;
    if n > 0 && Better(side, s[n - 1].price, x.price) {
      CountInsertInOrder(side, s[..n - 1], x, price);
      assert (s[..n - 1] + [x])[..n - 1] == s[..n - 1];
      var r := InsertInOrder(side, s[..n - 1], x);
      assert (r + [s[n - 1]])[..|r|] == r;
    }
  }

  lemma SortKeepsCount(side: Side, s: seq<Level>, price: int)
    ensures CountBetter(side, SortLevels(side, s), price) == CountBetter(side, s, price)
  {
    if s != [] {
      var n := |s| - 1;
      SortKeepsCount(side, s[..n], price);
      var r := SortLevels(side, s[..n]);
      CountInsertInOrder(side, r, s[n], price);
      assert (r + [s[n]])[..|r|] == r;
    }
  }

  /** A repeated element has multiplicity two, and the other way round. */
  lemma Twice(s: seq<Level>, i: nat, j: nat)
    requires i < j < |s| && s[i] == s[j]
    ensures multiset(s)[s[i]] >= 2
  {
    assert s == s[..j] + s[j..];
    assert s[i] in s[..j] && s[j] in s[j..];
  }

  lemma TwoPlaces(s: seq<Level>, x: Level) returns (i: nat, j: nat)
    requires multiset(s)[x] >= 2
    ensures i < |s| && j < |s| && i != j && s[i] == x && s[j] == x
  {
    assert x in s;
    i :| 0 <= i < |s| && s[i] == x;
    assert s == s[..i] + [x] + s[i + 1..];
    if x in s[..i] {
      j :| 0 <= j < i && s[j] == x;
    } else {
      assert x in s[i + 1..];
      var k :| 0 <= k < |s[i + 1..]| && s[i + 1..][k] == x;
      j := i + 1 + k;
    }
  }

  /** The price is listed twice. */
  ghost predicate Repeats(s: seq<Level>, price: int) {
    exists i, j :: 0 <= i < j < |s| && s[i].price == price == s[j].price
  }

  lemma {:induction false} FirstRepeatRepeats(levels: seq<Level>)
    requires FirstRepeat(levels).Some?
    ensures Repeats(levels, FirstRepeat(levels).value)
  {
    if levels[0].price != levels[1].price {
      var rest := levels[1..];
      FirstRepeatRepeats(rest);
      var i, j :| 0 <= i < j < |rest| && rest[i].price == FirstRepeat(levels).value == rest[j].price;
      assert levels[i + 1].price == FirstRepeat(levels).value == levels[j + 1].price;
    }
  }

  lemma PermutationKeepsRepeat(a: seq<Level>, b: seq<Level>)
    requires multiset(a) == multiset(b) && !Distinct(b)
    ensures !Distinct(a)
  {
    var i, j :| 0 <= i < j < |b| && b[i].price == b[j].price;
    PermutationKeepsPrice(a, b, b[i].price);
  }

  lemma PermutationKeepsPrice(a: seq<Level>, b: seq<Level>, price: int)
    requires multiset(a) == multiset(b) && Repeats(b, price)
    ensures Repeats(a, price)
  {
    var i, j :| 0 <= i < j < |b| && b[i].price == price == b[j].price;
    assert b[i] in multiset(b) && b[j] in multiset(b);
    if b[i] == b[j] {
      Twice(b, i, j);
      var k, m := TwoPlaces(a, b[i]);
    } else {
      var k :| 0 <= k < |a| && a[k] == b[i];
      var m :| 0 <= m < |a| && a[m] == b[j];
    }
  }

  /** Sorting and checking succeeds iff the prices are distinct, and then keeps every level. */
  lemma SortAndCheckKeeps(l: LadderState)
    requires Loading(l, false)
    ensures SortAndCheck(l).Ok? <==> Distinct(l.levels)
    ensures SortAndCheck(l).Ok? ==> Keeps(SortAndCheck(l).value, l.levels)
  {
    var r := SortLevels(l.side, l.levels);
    if !Distinct(r) { PermutationKeepsRepeat(l.levels, r); }
    if !Distinct(l.levels) { PermutationKeepsRepeat(r, l.levels); }
    if SortAndCheck(l).Ok? {
      SortedChecked(l);
      assert forall x :: x in r <==> x in multiset(r);
      assert forall x :: x in l.levels <==> x in multiset(l.levels);
    }
  }

  /** The ladder ranks prices as everything read so far does, up to its horizon. */
  ghost predicate Counted(l: LadderState, done: seq<Level>) {
    forall p :: if Beyond(l, p) then CountBetter(l.side, done, p) >= l.capacity
                else CountBetter(l.side, done, p) == CountBetter(l.side, l.levels, p)
  }

  /** What inserting into a full ladder does when the new level is not the worst: the worst level
      goes, and the horizon moves up to the next one. */
  lemma FullInsertDrops(l: LadderState, i: nat, x: Level)
    requires Loading(l, true) && ValidLevel(x) && 0 < i
    requires i == Position(l.side, l.levels, x.price) && !HeldAt(l.levels, i, x.price)
    ensures var l' := Insert(l, i, x).0;
            && l.levels[..i] + [x] + l.levels[i..] == [l.levels[0]] + l'.levels
            && |l'.levels| == |l.levels|
            && l'.horizon == Some(l'.levels[0].price)
            && Better(l.side, l'.levels[0].price, l.levels[0].price)
            && (forall y :: y in l'.levels ==> y in l.levels || y == x)
            && (forall y :: y in l.levels || y == x ==> y == l.levels[0] || y in l'.levels)
  {
    InsertKeepsSorted(l.side, l.levels, i, x);
    var l' := Insert(l, i, x).0;
    var all := l.levels[..i] + [x] + l.levels[i..];
    assert all == [l.levels[0]] + l'.levels;
    assert Better(l.side, all[1].price, all[0].price);
    assert forall y :: y in all <==> y in [l.levels[0]] || y in l'.levels;
  }

  lemma InsertKeeps(l: LadderState, i: nat, x: Level, done: seq<Level>)
    requires Loading(l, true) && Keeps(l, done) && |done| >= l.capacity && ValidLevel(x)
    requires i == Position(l.side, l.levels, x.price) && !HeldAt(l.levels, i, x.price)
    ensures Keeps(Insert(l, i, x).0, done + [x])
  {
    FullInsert(l, i, x);
    if i > 0 {
      FullInsertDrops(l, i, x);
      assert !Beyond(l, l.levels[0].price);
    }
  }

  lemma InsertCounts(l: LadderState, i: nat, x: Level, done: seq<Level>, p: int)
    requires Loading(l, true) && Counted(l, done) && ValidLevel(x)
    requires i == Position(l.side, l.levels, x.price) && !HeldAt(l.levels, i, x.price)
    ensures var l' := Insert(l, i, x).0;
            if Beyond(l', p) then CountBetter(l.side, done + [x], p) >= l.capacity
            else CountBetter(l.side, done + [x], p) == CountBetter(l.side, l'.levels, p)
  {
    CountAppend(l.side, done, [x], p);
    if i == 0 {
      CountBound(l.side, l.levels, p);
      assert !Beyond(l, l.levels[0].price);
    } else {
      InsertCountsDrop(l, i, x, done, p);
    }
  }

  lemma InsertCountsDrop(l: LadderState, i: nat, x: Level, done: seq<Level>, p: int)
    requires Loading(l, true) && Counted(l, done) && ValidLevel(x) && 0 < i
    requires i == Position(l.side, l.levels, x.price) && !HeldAt(l.levels, i, x.price)
    ensures var l' := Insert(l, i, x).0;
            if Beyond(l', p) then CountBetter(l.side, done + [x], p) >= l.capacity
            else CountBetter(l.side, done + [x], p) == CountBetter(l.side, l'.levels, p)
  {
    var l' := Insert(l, i, x).0;
    FullInsert(l, i, x);
    FullInsertDrops(l, i, x);
    CountAppend(l.side, done, [x], p);
    CountOne(l.side, l.levels, i, x, p);
    CountAppend(l.side, [l.levels[0]], l'.levels, p);
    if Beyond(l', p) {
      CountBound(l.side, l'.levels, p);
    }
  }

  lemma CountOne(side: Side, s: seq<Level>, i: nat, x: Level, p: int)
    requires i <= |s|
    ensures CountBetter(side, s[..i] + [x] + s[i..], p) == CountBetter(side, s, p) + CountBetter(side, [x], p)
  {
    assert s == s[..i] + s[i..];
    CountAppend(side, s[..i], s[i..], p);
    CountAppend(side, s[..i] + [x], s[i..], p);
    CountAppend(side, s[..i], [x], p);
  }

  /** A price is held iff it was read before and noticed there. */
  lemma HeldIffNoticed(l: LadderState, done: seq<Level>, x: Level)
    requires Keeps(l, done) && Counted(l, done)
    ensures HeldAt(l.levels, Position(l.side, l.levels, x.price), x.price)
       <==> Lists(done, x.price) && CountBetter(l.side, done, x.price) < l.capacity
  {
    var i := Position(l.side, l.levels, x.price);
    CountBound(l.side, l.levels, x.price);
    if HeldAt(l.levels, i, x.price) {
      assert l.levels[i] in done;
    }
    if k :| 0 <= k < |done| && done[k].price == x.price && !Beyond(l, x.price) {
      assert done[k] in l.levels;
      var m :| 0 <= m < |l.levels| && l.levels[m] == done[k];
    }
  }

  /** Every level read is valid and no repeat has been noticed. */
  ghost predicate Acceptable(side: Side, capacity: nat, done: seq<Level>) {
    (forall i :: 0 <= i < |done| ==> ValidLevel(done[i])) && !NoticedRepeat(side, capacity, done)
  }

  lemma AcceptableStep(side: Side, capacity: nat, done: seq<Level>, x: Level)
    ensures Acceptable(side, capacity, done + [x])
         == (&& Acceptable(side, capacity, done) && ValidLevel(x)
             && !(Lists(done, x.price) && CountBetter(side, done, x.price) < capacity))
  {
    var all := done + [x];
    assert all[..|done|] == done;
    assert forall j :: 0 <= j <= |done| ==> all[..j] == done[..j];
    assert ValidLevel(all[|done|]) == ValidLevel(x);
    if Lists(done, x.price) && CountBetter(side, done, x.price) < capacity {
      var k :| 0 <= k < |done| && done[k].price == x.price;
      assert NoticedAt(side, capacity, all, k, |done|);
    }
    if NoticedRepeat(side, capacity, done) {
      var i, j :| NoticedAt(side, capacity, done, i, j);
      assert NoticedAt(side, capacity, all, i, j);
    }
    if NoticedRepeat(side, capacity, all) {
      var i, j :| NoticedAt(side, capacity, all, i, j);
      if j < |done| { assert NoticedAt(side, capacity, done, i, j); }
    }
  }

  /** The ladder is full and ranks prices as everything read so far does. */
  ghost predicate FullAfter(l: LadderState, done: seq<Level>) {
    Loading(l, true) && Keeps(l, done) && Counted(l, done) && |done| >= l.capacity
  }

  ghost predicate LoadedTo(l0: LadderState, st: LoadState, done: seq<Level>) {
    match st
    case Failed(_) => !Acceptable(l0.side, l0.capacity, done)
    case Filling(l) =>
      && l == Cleared(l0).(levels := done) && |done| <= l0.capacity
      && (forall i :: 0 <= i < |done| ==> ValidLevel(done[i]))
    case Full(l) =>
      && l.side == l0.side && l.capacity == l0.capacity
      && FullAfter(l, done) && Acceptable(l0.side, l0.capacity, done)
  }

  lemma FullStep(l0: LadderState, l: LadderState, done: seq<Level>, x: Level)
    requires l.side == l0.side && l.capacity == l0.capacity
    requires FullAfter(l, done) && Acceptable(l0.side, l0.capacity, done) && ValidLevel(x)
    ensures LoadedTo(l0, InsertNew(l, x), done + [x])
  {
    var i := Position(l.side, l.levels, x.price);
    AcceptableStep(l.side, l.capacity, done, x);
    HeldIffNoticed(l, done, x);
    if !HeldAt(l.levels, i, x.price) {
      FullInsert(l, i, x);
      InsertKeeps(l, i, x, done);
      forall p { InsertCounts(l, i, x, done, p); }
    }
  }

  /** While there is room every repeat is noticed. */
  lemma RepeatsNoticed(side: Side, capacity: nat, done: seq<Level>)
    requires |done| <= capacity
    ensures NoticedRepeat(side, capacity, done) == !Distinct(done)
  {
    if i, j :| 0 <= i < j < |done| && done[i].price == done[j].price {
      CountBound(side, done[..j], done[j].price);
      assert NoticedAt(side, capacity, done, i, j);
    }
  }

  lemma SortedIsFull(l: LadderState)
    requires Loading(l, false) && |l.levels| == l.capacity && SortAndCheck(l).Ok?
    ensures FullAfter(SortAndCheck(l).value, l.levels)
  {
    SortAndCheckKeeps(l);
    forall p { SortKeepsCount(l.side, l.levels, p); }
  }

  lemma FillStep(l0: LadderState, l: LadderState, done: seq<Level>, x: Level)
    requires 0 < l0.capacity && Loading(l, false) && LoadedTo(l0, Filling(l), done)
    ensures LoadedTo(l0, LoadStep(Filling(l), x), done + [x])
  {
    AcceptableStep(l.side, l.capacity, done, x);
    if ValidLevel(x) && |done| == l.capacity {
      RepeatsNoticed(l.side, l.capacity, done);
      SortAndCheckKeeps(l);
      if SortAndCheck(l).Ok? {
        SortedIsFull(l);
        FullStep(l0, SortAndCheck(l).value, done, x);
      }
    }
  }

  lemma {:induction false} LoadPrefixSound(l: LadderState, input: seq<Level>)
    requires 0 < l.capacity
    ensures LoadedTo(l, LoadPrefix(l, input), input)
  {
    var n := |input|;
    if n > 0 {
      var done, x := input[..n - 1], input[n - 1];
      assert input == done + [x];
      LoadPrefixSound(l, done);
      AcceptableStep(l.side, l.capacity, done, x);
      match LoadPrefix(l, done)
      case Failed(_) =>
      case Filling(f) => FillStep(l, f, done, x);
      case Full(f) => if ValidLevel(x) { FullStep(l, f, done, x); }
    }
  }

  /** Loading a snapshot succeeds exactly when every level is valid and no repeated price is
      noticed, and then the ladder holds exactly the best `capacity` levels; otherwise it is empty. */
  lemma LoadKeepsBest(l: LadderState, input: seq<Level>)
    requires 0 < l.capacity
    ensures Load(l, input).1.Ok? == Acceptable(l.side, l.capacity, input)
    ensures Load(l, input).1.Ok? ==> Keeps(Load(l, input).0, input)
    ensures Load(l, input).0.side == l.side && Load(l, input).0.capacity == l.capacity
    ensures Load(l, input).1.Err? ==> Load(l, input).0 == Cleared(l)
  {
    LoadPrefixSound(l, input);
    if LoadPrefix(l, input).Filling? {
      SortAndCheckKeeps(LoadPrefix(l, input).filling);
      RepeatsNoticed(l.side, l.capacity, input);
    }
  }

  /** The error is about something that is in the list. */
  ghost predicate FaultIn(side: Side, input: seq<Level>, e: BookError) {
    match e
    case ZeroCapacity => false
    case InvalidPrice(s, p) => s == side && p <= 0 && exists x :: x in input && x.price == p
    case InvalidQty(s, p, q) => s == side && q <= 0 && Level(p, q) in input
    case DuplicateLevel(s, p) => s == side && Repeats(input, p)
  }

  lemma FaultStays(side: Side, input: seq<Level>, x: Level, e: BookError)
    requires FaultIn(side, input, e)
    ensures FaultIn(side, input + [x], e)
  {
    var all := input + [x];
    assert forall y :: y in input ==> y in all;
    if e.DuplicateLevel? {
      var i, j :| 0 <= i < j < |input| && input[i].price == e.price == input[j].price;
      assert all[i].price == e.price == all[j].price;
    }
  }

  lemma SortFault(l: LadderState)
    requires SortAndCheck(l).Err?
    ensures FaultIn(l.side, l.levels, SortAndCheck(l).error)
  {
    var sorted := SortLevels(l.side, l.levels);
    FirstRepeatRepeats(sorted);
    PermutationKeepsPrice(l.levels, sorted, FirstRepeat(sorted).value);
  }

  lemma InsertFault(l: LadderState, x: Level, done: seq<Level>)
    requires Loading(l, true) && ValidLevel(x) && (forall y :: y in l.levels ==> y in done)
    ensures InsertNew(l, x).Failed? ==> FaultIn(l.side, done + [x], InsertNew(l, x).error)
  {
    if InsertNew(l, x).Failed? {
      var y := l.levels[Position(l.side, l.levels, x.price)];
      assert y in l.levels && y in done;
      var k :| 0 <= k < |done| && done[k] == y;
      assert (done + [x])[k].price == x.price == (done + [x])[|done|].price;
    }
  }

  lemma StepFault(l0: LadderState, st: LoadState, done: seq<Level>, x: Level)
    requires 0 < l0.capacity && LoadReady(st) && LoadedTo(l0, st, done)
    requires st.Failed? ==> FaultIn(l0.side, done, st.error)
    ensures LoadStep(st, x).Failed? ==> FaultIn(l0.side, done + [x], LoadStep(st, x).error)
  {
    assert (done + [x])[|done|] == x;
    match st
    case Failed(e) => FaultStays(l0.side, done, x, e);
    case Filling(l) =>
      if ValidLevel(x) && |done| == l.capacity {
        if SortAndCheck(l).Err? {
          SortFault(l);
          FaultStays(l0.side, done, x, SortAndCheck(l).error);
        } else {
          SortAndCheckKeeps(l);
          SortedChecked(l);
          InsertFault(SortAndCheck(l).value, x, done);
        }
      }
    case Full(l) => if ValidLevel(x) { InsertFault(l, x, done); }
  }

  lemma {:induction false} PrefixFault(l: LadderState, input: seq<Level>)
    requires 0 < l.capacity
    ensures LoadPrefix(l, input).Failed? ==> FaultIn(l.side, input, LoadPrefix(l, input).error)
  {
    var n := |input|;
    if n > 0 {
      var done, x := input[..n - 1], input[n - 1];
      assert input == done + [x];
      PrefixFault(l, done);
      LoadPrefixSound(l, done);
      StepFault(l, LoadPrefix(l, done), done, x);
    }
  }

  /** A load that fails names something wrong with the list. */
  lemma LoadErrorIsFault(l: LadderState, input: seq<Level>)
    requires 0 < l.capacity && Load(l, input).1.Err?
    ensures FaultIn(l.side, input, Load(l, input).1.error)
  {
    PrefixFault(l, input);
    LoadPrefixSound(l, input);
    if LoadPrefix(l, input).Filling? { SortFault(LoadPrefix(l, input).filling); }
  }

  /** The documentation promises `DuplicateLevel` for any repeated price. It is not always given:
      here the repeated price 5 has already been dropped from a one-level bid ladder. */
  lemma UnnoticedRepeat()
    ensures var input := [Level(6, 1), Level(5, 1), Level(5, 2)];
            !Distinct(input) && Load(LadderState(Buy, 1, [], None), input).1.Ok?
  {
    var input := [Level(6, 1), Level(5, 1), Level(5, 2)];
    assert input[1].price == input[2].price;
    assert input[..2] == [Level(6, 1), Level(5, 1)];
    assert input[..2][..1] == [Level(6, 1)];
    forall i, j ensures !NoticedAt(Buy, 1, input, i, j) {
    }
    LoadKeepsBest(LadderState(Buy, 1, [], None), input);
  }

  /** After a successful load, every price up to the horizon shows the quantity the snapshot lists. */
  lemma LoadSets(l: LadderState, input: seq<Level>)
    requires 0 < l.capacity && Load(l, input).1.Ok?
    ensures WellFormed(Load(l, input).0)
    ensures forall p :: !Beyond(Load(l, input).0, p) ==> QtyAt(Load(l, input).0.levels, p) == QtyAt(input, p)
  {
    LoadKeepsBest(l, input);
    var l' := Load(l, input).0;
    forall p | !Beyond(l', p) ensures QtyAt(l'.levels, p) == QtyAt(input, p) {
      if i :| 0 <= i < |input| && input[i].price == p && QtyAt(input, p) == input[i].qty {
        assert input[i] in l'.levels;
        var j :| 0 <= j < |l'.levels| && l'.levels[j] == input[i];
        QtyIs(l.side, l'.levels, j);
      } else if i :| 0 <= i < |l'.levels| && l'.levels[i].price == p {
        assert l'.levels[i] in input;
      }
    }
  }

  // ---------------------------------------------------------------- whole runs

  datatype LadderOp = OpLoad(input: seq<Level>) | OpApply(price: int, qty: int) | OpClear

  function StepLadder(l: LadderState, op: LadderOp): LadderState
    requires WellFormed(l)
  {
    match op
    case OpLoad(input) => Load(l, input).0
    case OpApply(price, qty) => Apply(l, price, qty).0
    case OpClear => Cleared(l)
  }

  /** The same operation on an unbounded book side, given as the quantity at each price. */
  ghost function RefStep(l: LadderState, ref: int -> int, op: LadderOp): int -> int
    requires WellFormed(l)
  {
    match op
    case OpLoad(input) => if Load(l, input).1.Ok? then p => QtyAt(input, p) else p => 0
    case OpApply(price, qty) => if Apply(l, price, qty).1.Ok? then p => if p == price then qty else ref(p) else ref
    case OpClear => p => 0
  }

  ghost predicate Agrees(l: LadderState, ref: int -> int) {
    WellFormed(l) && forall p :: !Beyond(l, p) ==> QtyAt(l.levels, p) == ref(p)
  }

  lemma StepAgrees(l: LadderState, ref: int -> int, op: LadderOp)
    requires Agrees(l, ref)
    ensures Agrees(StepLadder(l, op), RefStep(l, ref, op))
    ensures op.OpApply? ==> forall p :: Beyond(l, p) ==> Beyond(StepLadder(l, op), p)
  {
    match op
    case OpLoad(input) =>
      LoadKeepsBest(l, input);
      if Load(l, input).1.Ok? { LoadSets(l, input); }
    case OpApply(price, qty) =>
      if Apply(l, price, qty).1.Ok? { ApplySets(l, price, qty); }
    case OpClear =>
  }

  function RunLadder(l: LadderState, ops: seq<LadderOp>): (r: LadderState)
    requires WellFormed(l)
    ensures WellFormed(r)
  {
    if ops == [] then l
    else
      var before := RunLadder(l, ops[..|ops| - 1]);
      StepAgrees(before, p => QtyAt(before.levels, p), ops[|ops| - 1]);
      StepLadder(before, ops[|ops| - 1])
  }

  ghost function RefRun(l: LadderState, ops: seq<LadderOp>): int -> int
    requires WellFormed(l)
  {
    if ops == [] then p => QtyAt(l.levels, p)
    else RefStep(RunLadder(l, ops[..|ops| - 1]), RefRun(l, ops[..|ops| - 1]), ops[|ops| - 1])
  }

  /** After any run of loads, updates and clears, the bounded ladder shows at every price up to its
      horizon exactly what an unbounded book would. */
  lemma {:induction false} RunAgrees(l: LadderState, ops: seq<LadderOp>)
    requires WellFormed(l)
    ensures Agrees(RunLadder(l, ops), RefRun(l, ops))
  {
    if ops != [] {
      RunAgrees(l, ops[..|ops| - 1]);
      StepAgrees(RunLadder(l, ops[..|ops| - 1]), RefRun(l, ops[..|ops| - 1]), ops[|ops| - 1]);
    }
  }

  lemma {:induction false} RunSplit(l: LadderState, a: seq<LadderOp>, b: seq<LadderOp>)
    requires WellFormed(l)
    ensures RunLadder(l, a + b) == RunLadder(RunLadder(l, a), b)
    decreases |b|
  {
    if b == [] {
      assert a + b == a;
    } else {
      EndsIn(a, b);
      RunSplit(l, a, b[..|b| - 1]);
    }
  }

  // ---------------------------------------------------------------- the ladder itself

  lemma PositionUnique(side: Side, levels: seq<Level>, price: int, i: nat)
    requires StrictlySorted(side, levels) && i <= |levels|
    requires forall k :: 0 <= k < i ==> Better(side, price, levels[k].price)
    requires forall k :: i <= k < |levels| ==> Better(side, levels[k].price, price)
    ensures Position(side, levels, price) == i && !HeldAt(levels, i, price)
  {
  }

  /** Levels at the top of the book checked linearly before binary search. */
  const TOP_SCAN: nat := 16

  class Ladder {
    const side: Side
    const capacity: nat
    var levels: seq<Level>
    var horizon: Option<int>

    ghost predicate Valid()
      reads this
    {
      WellFormed(View())
    }

    ghost function View(): LadderState
      reads this
    {
      LadderState(side, capacity, levels, horizon)
    }

    constructor (side: Side, capacity: nat)
      requires 0 < capacity
      ensures Valid() && View() == LadderState(side, capacity, [], None)
    {
      this.side := side;
      this.capacity := capacity;
      levels := [];
      horizon := None;
    }

    /** Scans the best few levels, then searches the rest by halving. `Ok` is where the price is
        held, `Err` where it would be inserted. */
    method Search(price: int) returns (r: Result<nat, nat>)
      requires StrictlySorted(side, levels)
      ensures r == var i := Position(side, levels, price);
                   if HeldAt(levels, i, price) then Ok(i) else Err(i)
    {
      var n := |levels|;
      var scanned := Min(n, TOP_SCAN);
      var offset := 0;
      while offset < scanned
        invariant 0 <= offset <= scanned
        invariant forall k :: n - offset <= k < n ==> Better(side, levels[k].price, price)
      {
        var index := n - offset - 1;
        if levels[index].price == price {
          return Ok(index);
        }
        if Better(side, price, levels[index].price) {
          PositionUnique(side, levels, price, index + 1);
          return Err(index + 1);
        }
        offset := offset + 1;
      }
      var lo, hi := 0, n - scanned;
      while lo < hi
        invariant 0 <= lo <= hi <= n - scanned
        invariant forall k :: 0 <= k < lo ==> Better(side, price, levels[k].price)
        invariant forall k :: hi <= k < n ==> Better(side, levels[k].price, price)
      {
        var mid := (lo + hi) / 2;
        if levels[mid].price == price {
          return Ok(mid);
        } else if Better(side, price, levels[mid].price) {
          lo := mid + 1;
        } else {
          hi := mid;
        }
      }
      PositionUnique(side, levels, price, lo);
      return Err(lo);
    }

    method ApplyUpdate(price: int, qty: int) returns (r: Result<Applied, BookError>)
      requires Valid()
      modifies this
      ensures Valid()
      ensures (View(), r) == Apply(old(View()), price, qty)
    {
      if Apply(View(), price, qty).1.Ok? { ApplySets(View(), price, qty); }
      var invalid := Validate(side, price, qty);
      if invalid.Some? {
        return Err(invalid.value);
      }
      if horizon.Some? && Better(side, horizon.value, price) {
        return Ok(BeyondHorizon);
      }
      var found := Search(price);
      match found
      case Ok(index) =>
        if qty == 0 {
          levels := levels[..index] + levels[index + 1..];
          return Ok(Removed);
        }
        levels := levels[index := Level(price, qty)];
        return Ok(Updated);
      case Err(index) =>
        if qty == 0 {
          return Ok(Unchanged);
        }
        var applied := InsertAt(index, Level(price, qty));
        return Ok(applied);
    }

    /** Inserts at a sorted index, dropping the worst level if full. */
    method InsertAt(index: nat, level: Level) returns (applied: Applied)
      requires index <= |levels| && (|levels| >= capacity ==> 0 < |levels|)
      modifies this
      ensures (View(), applied) == Insert(old(View()), index, level)
    {
      if |levels| < capacity {
        levels := levels[..index] + [level] + levels[index..];
        return Inserted;
      }
      if index == 0 {
        horizon := Some(levels[0].price);
        return BeyondHorizon;
      }
      levels := levels[1..];
      levels := levels[..index - 1] + [level] + levels[index - 1..];
      assert levels == old(levels)[1..index] + [level] + old(levels)[index..];
      horizon := Some(levels[0].price);
      return Inserted;
    }

    method Clear()
      modifies this
      ensures View() == Cleared(old(View()))
    {
      levels := [];
      horizon := None;
    }

    method LoadLevels(input: seq<Level>) returns (r: Result<(), BookError>)
      requires 0 < capacity
      modifies this
      ensures Valid()
      ensures (View(), r) == Load(old(View()), input)
    {
      Clear();
      r := LoadInner(old(View()), input);
      if r.Err? {
        Clear();
      } else {
        LoadKeepsBest(old(View()), input);
      }
    }

    method LoadInner(ghost before: LadderState, input: seq<Level>) returns (r: Result<(), BookError>)
      requires 0 < capacity && View() == Cleared(before)
      modifies this
      ensures match LoadFinish(LoadPrefix(before, input))
              case Ok(l) => View() == l && r == Ok(())
              case Err(e) => r == Err(e)
    {
      var sorted := false;
      var k := 0;
      while k < |input|
        invariant 0 <= k <= |input|
        invariant LoadPrefix(before, input[..k]) == if sorted then Full(View()) else Filling(View())
      {
        assert input[..k + 1][..k] == input[..k];
        sorted, r := LoadOne(sorted, input[k]);
        if r.Err? {
          FailedStays(before, input, k + 1);
          return;
        }
        k := k + 1;
      }
      assert input[..k] == input;
      if !sorted {
        r := SortAndCheckLevels();
      } else {
        r := Ok(());
      }
    }

    /** One level of a snapshot. The first one that does not fit has the rest sorted and checked. */
    method LoadOne(wasSorted: bool, x: Level) returns (sorted: bool, r: Result<(), BookError>)
      requires Loading(View(), wasSorted)
      modifies this
      ensures match LoadStep(if wasSorted then Full(old(View())) else Filling(old(View())), x)
              case Failed(e) => r == Err(e)
              case Filling(l) => r == Ok(()) && !sorted && View() == l
              case Full(l) => r == Ok(()) && sorted && View() == l
    {
      sorted := wasSorted;
      var rejected := Rejects(side, x);
      if rejected.Some? {
        return sorted, Err(rejected.value);
      }
      if |levels| < capacity {
        levels := levels + [x];
        return sorted, Ok(());
      }
      if !sorted {
        r := SortAndCheckLevels();
        if r.Err? {
          return sorted, r;
        }
        SortedChecked(old(View()));
        sorted := true;
      }
      var found := Search(x.price);
      if found.Ok? {
        return sorted, Err(DuplicateLevel(side, x.price));
      }
      var _ := InsertAt(found.error, x);
      r := Ok(());
    }

    method SortAndCheckLevels() returns (r: Result<(), BookError>)
      modifies this
      ensures match SortAndCheck(old(View()))
              case Ok(l) => View() == l && r == Ok(())
              case Err(e) => r == Err(e)
    {
      levels := SortLevels(side, levels);
      var i := 0;
      while i + 1 < |levels|
        invariant 0 <= i <= |levels|
        invariant FirstRepeat(levels) == FirstRepeat(levels[i..])
      {
        if levels[i].price == levels[i + 1].price {
          return Err(DuplicateLevel(side, levels[i].price));
        }
        assert levels[i..][1..] == levels[i + 1..];
        i := i + 1;
      }
      return Ok(());
    }
  }

  lemma {:induction false} FailedStays(l: LadderState, input: seq<Level>, k: nat)
    requires 0 < l.capacity && k <= |input| && LoadPrefix(l, input[..k]).Failed?
    ensures LoadPrefix(l, input) == LoadPrefix(l, input[..k])
    decreases |input|
  {
    if k == |input| {
      assert input[..k] == input;
    } else {
      var rest := input[..|input| - 1];
      assert rest[..k] == input[..k];
      FailedStays(l, rest, k);
    }
  }
}
