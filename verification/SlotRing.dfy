/** The single-producer/single-consumer slot ring (crates/bowst-core/src/ring.rs) as a protocol:
    two processes whose atomic memory accesses interleave in every possible way.

    Each step is one access to shared memory: loading `head`, writing a slot's value, storing a
    slot's sequence number (publishing), loading a sequence number, reading a value, storing `head`
    (releasing). Stored positions wrap modulo the machine word; the lists of values pushed and popped,
    which only the model keeps, do not. */
module SlotRing {
  import opened Common
  import opened Remainders

  datatype Slot<T> = Slot(seqNo: int, value: Option<T>)

  datatype ProducerAt<T> =
    | Idle
    | MustLoadHead(item: T)
    | MayWrite(item: T)
    | MustPublish(item: T)

  datatype ConsumerAt<T> = Waiting | MayRead | MustRelease(item: T)

  datatype PushResult<T> = Sent | Full(item: T)

  /** `head`, `position`, `cachedHead` and `readPosition` hold wrapped positions. `pushed`,
      `popped` and `seen` (how many pops the cached head stands for) are in the model only. */
  datatype Ring<T> = Ring(
    slots: seq<Slot<T>>, head: int,
    position: int, cachedHead: int, producer: ProducerAt<T>, lastPush: PushResult<T>,
    readPosition: int, consumer: ConsumerAt<T>, lastPop: Option<T>,
    pushed: seq<T>, popped: seq<T>, seen: nat)

  /** Whose turn it is, and what an idle producer is asked to push. */
  datatype Turn<T> = Producer(next: T) | Consumer

  const WORD: int := TWO_64

  function Mask<T>(r: Ring<T>, position: int): (i: int)
    requires 0 < |r.slots|
    ensures 0 <= i < |r.slots|
  {
    position % |r.slots|
  }

  predicate LooksFull<T>(r: Ring<T>, cached: int)
  {
    (r.position - cached) % WORD >= |r.slots|
  }

  /** `Producer::push`, one shared access at a time. */
  function ProducerStep<T>(r: Ring<T>, next: T): Ring<T>
    requires 0 < |r.slots|
  {
    match r.producer
    case Idle =>
      if LooksFull(r, r.cachedHead) then r.(producer := MustLoadHead(next)) else r.(producer := MayWrite(next))
    case MustLoadHead(v) =>
      var r' := r.(cachedHead := r.head, seen := |r.popped|);
      if LooksFull(r', r'.cachedHead) then r'.(producer := Idle, lastPush := Full(v))
      else r'.(producer := MayWrite(v))
    case MayWrite(v) =>
      var i := Mask(r, r.position);
      r.(slots := r.slots[i := r.slots[i].(value := Some(v))], producer := MustPublish(v))
    case MustPublish(v) =>
      var i := Mask(r, r.position);
      var next := (r.position + 1) % WORD;
      r.(slots := r.slots[i := r.slots[i].(seqNo := next)], position := next,
         producer := Idle, lastPush := Sent, pushed := r.pushed + [v])
  }

  /** `Consumer::pop`, one shared access at a time. */
  function ConsumerStep<T>(r: Ring<T>): Ring<T>
    requires 0 < |r.slots|
  {
    var i := Mask(r, r.readPosition);
    var next := (r.readPosition + 1) % WORD;
    match r.consumer
    case Waiting => if r.slots[i].seqNo == next then r.(consumer := MayRead) else r.(lastPop := None)
    case MayRead =>
      if r.slots[i].value.None? then r.(consumer := Waiting) // an uninitialised read; never happens
      else r.(consumer := MustRelease(r.slots[i].value.value))
    case MustRelease(v) =>
      r.(head := next, readPosition := next, consumer := Waiting, lastPop := Some(v), popped := r.popped + [v])
  }

  function Step<T>(r: Ring<T>, turn: Turn<T>): Ring<T>
    requires 0 < |r.slots|
  {
    match turn
    case Producer(next) => ProducerStep(r, next)
    case Consumer => ConsumerStep(r)
  }

  /** Capacities `channel` accepts: powers of two from 2 up. */
  ghost predicate ValidCapacity(capacity: int) {
    2 <= capacity < WORD && PowerOfTwo(capacity)
  }

  function New<T>(capacity: nat, unused: T): Ring<T>
    requires 2 <= capacity
  {
    Ring(seq(capacity, i => Slot((i - 1) % WORD, None)), 0,
         0, 0, Idle, Full(unused), 0, Waiting, None, [], [], 0)
  }

  // ---------------------------------------------------------------- the invariant

  /** The slot position `q` lives in. */
  ghost function SlotOf<T>(slots: seq<Slot<T>>, q: int): Slot<T>
    requires 0 < |slots|
  {
    slots[q % |slots|]
  }

  /** The slots of the last `capacity` positions published carry those positions' numbers, and a
      slot not used yet still carries the number it was created with. */
  ghost predicate Numbered<T>(slots: seq<Slot<T>>, pushed: nat)
    requires 0 < |slots|
  {
    && (forall q :: 0 <= q && pushed - |slots| <= q < pushed ==> SlotOf(slots, q).seqNo == (q + 1) % WORD)
    && (forall q :: pushed <= q < |slots| ==> SlotOf(slots, q).seqNo == (q - 1) % WORD)
  }

  /** Every value published and not yet released is still in its slot. */
  ghost predicate Holds<T>(slots: seq<Slot<T>>, popped: nat, pushed: seq<T>)
    requires 0 < |slots|
  {
    forall q :: popped <= q < |pushed| ==> SlotOf(slots, q).value == Some(pushed[q])
  }

  ghost predicate Positions<T>(r: Ring<T>) {
    && ValidCapacity(|r.slots|)
    && r.popped <= r.pushed
    && r.seen <= |r.popped|
    && |r.pushed| - r.seen <= |r.slots|
    && r.position == |r.pushed| % WORD
    && r.cachedHead == r.seen % WORD
    && r.head == r.readPosition == |r.popped| % WORD
  }

  ghost predicate Agreed<T>(r: Ring<T>)
    requires 0 < |r.slots|
  {
    && (r.producer.MayWrite? || r.producer.MustPublish? ==> |r.pushed| - r.seen < |r.slots|)
    && (r.producer.MustPublish? ==> SlotOf(r.slots, |r.pushed|).value == Some(r.producer.item))
    && (!r.consumer.Waiting? ==> |r.popped| < |r.pushed|)
    && (r.consumer.MustRelease? ==> r.consumer.item == r.pushed[|r.popped|])
  }

  ghost predicate RingInv<T>(r: Ring<T>) {
    Positions(r) && Numbered(r.slots, |r.pushed|) && Holds(r.slots, |r.popped|, r.pushed) && Agreed(r)
  }

  lemma MaskIs<T>(r: Ring<T>, position: int, q: int)
    requires ValidCapacity(|r.slots|) && position == q % WORD
    ensures Mask(r, position) == q % |r.slots|
  {
    WordWrapped(q, |r.slots|);
  }

  /** The producer's test compares true distances, although positions wrap. */
  lemma LooksFullIs<T>(r: Ring<T>, seen: nat)
    requires Positions(r) && seen <= |r.pushed| <= seen + |r.slots|
    ensures LooksFull(r, seen % WORD) <==> |r.pushed| - seen >= |r.slots|
  {
    WrappedDifference(|r.pushed|, seen, WORD);
  }

  /** The consumer's test sees a published value exactly when one is waiting: neither a number left
      from the slot's previous use nor the one it was created with passes for the next one. */
  lemma PublishedIffWaiting<T>(r: Ring<T>)
    requires RingInv(r)
    ensures r.slots[Mask(r, r.readPosition)].seqNo == (r.readPosition + 1) % WORD <==> |r.popped| < |r.pushed|
  {
    var c, n := |r.popped|, |r.slots|;
    MaskIs(r, r.readPosition, c);
    Advance(c, 1, WORD);
    var slot := SlotOf(r.slots, c);
    if c == |r.pushed| {
      if c < n {
        Apart(c - 1, c + 1, WORD);
      } else {
        AddMultiple(c - n, 1, n);
        assert slot == SlotOf(r.slots, c - n);
        Apart(c - n + 1, c + 1, WORD);
      }
    }
  }

  lemma NewInv<T>(capacity: nat, unused: T)
    requires ValidCapacity(capacity)
    ensures RingInv(New(capacity, unused))
  {
    var r := New(capacity, unused);
    forall q | 0 <= q < capacity ensures SlotOf(r.slots, q).seqNo == (q - 1) % WORD {
      Small(q, capacity);
    }
  }

  /** Positions less than `capacity` apart live in different slots. */
  lemma OtherSlot<T>(slots: seq<Slot<T>>, p: int, q: int, slot: Slot<T>)
    requires 0 < |slots| && (0 < p - q < |slots| || 0 < q - p < |slots|)
    ensures SlotOf(slots[p % |slots| := slot], q) == SlotOf(slots, q)
  {
    if q < p { Apart(q, p, |slots|); } else { Apart(p, q, |slots|); }
  }

  lemma WriteKeeps<T>(r: Ring<T>)
    requires RingInv(r) && r.producer.MayWrite?
    ensures RingInv(ProducerStep(r, r.producer.item))
  {
    var p := |r.pushed|;
    MaskIs(r, r.position, p);
    var slots' := ProducerStep(r, r.producer.item).slots;
    var slot := slots'[p % |r.slots|];
    forall q ensures SlotOf(slots', q).seqNo == SlotOf(r.slots, q).seqNo {
      NumberKept(r.slots, p, q, slot);
    }
    forall q | |r.popped| <= q < p ensures SlotOf(slots', q) == SlotOf(r.slots, q) {
      OtherSlot(r.slots, p, q, slot);
    }
  }

  lemma NumberKept<T>(slots: seq<Slot<T>>, p: int, q: int, slot: Slot<T>)
    requires 0 < |slots| && slot.seqNo == SlotOf(slots, p).seqNo
    ensures SlotOf(slots[p % |slots| := slot], q).seqNo == SlotOf(slots, q).seqNo
  {
  }

  lemma PublishNumbers<T>(slots: seq<Slot<T>>, p: nat, slot: Slot<T>)
    requires 0 < |slots| && Numbered(slots, p) && slot.seqNo == (p + 1) % WORD
    ensures Numbered(slots[p % |slots| := slot], p + 1)
  {
    var n := |slots|;
    var slots' := slots[p % n := slot];
    forall q | 0 <= q && p + 1 - n <= q < p + 1 ensures SlotOf(slots', q).seqNo == (q + 1) % WORD {
      if q < p { OtherSlot(slots, p, q, slot); }
    }
    forall q | p + 1 <= q < n ensures SlotOf(slots', q).seqNo == (q - 1) % WORD {
      OtherSlot(slots, p, q, slot);
    }
  }

  lemma PublishHolds<T>(slots: seq<Slot<T>>, popped: nat, pushed: seq<T>, slot: Slot<T>, v: T)
    requires 0 < |slots| && Holds(slots, popped, pushed) && |pushed| - popped < |slots| && popped <= |pushed|
    requires slot.value == Some(v)
    ensures Holds(slots[|pushed| % |slots| := slot], popped, pushed + [v])
  {
    var slots' := slots[|pushed| % |slots| := slot];
    forall q | popped <= q < |pushed| + 1 ensures SlotOf(slots', q).value == Some((pushed + [v])[q]) {
      if q < |pushed| { OtherSlot(slots, |pushed|, q, slot); }
    }
  }

  lemma PublishKeeps<T>(r: Ring<T>)
    requires RingInv(r) && r.producer.MustPublish?
    ensures RingInv(ProducerStep(r, r.producer.item))
  {
    var p := |r.pushed|;
    MaskIs(r, r.position, p);
    Advance(p, 1, WORD);
    var slot := SlotOf(ProducerStep(r, r.producer.item).slots, p);
    PublishNumbers(r.slots, p, slot);
    PublishHolds(r.slots, |r.popped|, r.pushed, slot, r.producer.item);
  }

  lemma ProducerKeeps<T>(r: Ring<T>, next: T)
    requires RingInv(r)
    ensures RingInv(ProducerStep(r, next))
  {
    match r.producer
    case Idle => LooksFullIs(r, r.seen);
    case MustLoadHead(v) => LooksFullIs(r, |r.popped|);
    case MayWrite(v) => WriteKeeps(r);
    case MustPublish(v) => PublishKeeps(r);
  }

  lemma ConsumerKeeps<T>(r: Ring<T>)
    requires RingInv(r)
    ensures RingInv(ConsumerStep(r))
  {
    PublishedIffWaiting(r);
    MaskIs(r, r.readPosition, |r.popped|);
    Advance(|r.popped|, 1, WORD);
  }

  // ---------------------------------------------------------------- every interleaving

  function Run<T>(r: Ring<T>, turns: seq<Turn<T>>): (r': Ring<T>)
    requires 0 < |r.slots|
    ensures |r'.slots| == |r.slots|
  {
    var n := |turns|;
    if n == 0 then r else Step(Run(r, turns[..n - 1]), turns[n - 1])
  }

  lemma {:induction false} RunInv<T>(capacity: nat, unused: T, turns: seq<Turn<T>>)
    requires ValidCapacity(capacity)
    ensures RingInv(Run(New(capacity, unused), turns))
  {
    var n := |turns|;
    if n == 0 {
      NewInv(capacity, unused);
    } else {
      RunInv(capacity, unused, turns[..n - 1]);
      var r := Run(New(capacity, unused), turns[..n - 1]);
      match turns[n - 1]
      case Producer(next) => ProducerKeeps(r, next);
      case Consumer => ConsumerKeeps(r);
    }
  }

  /** In every interleaving the values popped are a prefix of the values pushed, at most `capacity`
      values are in flight, and nothing uninitialised is ever read. */
  lemma PoppedIsPrefix<T>(capacity: nat, unused: T, turns: seq<Turn<T>>)
    requires ValidCapacity(capacity)
    ensures var r := Run(New(capacity, unused), turns);
            && r.popped <= r.pushed
            && |r.pushed| - |r.popped| <= capacity
            && (r.consumer.MayRead? ==>
                  |r.popped| < |r.pushed| && r.slots[Mask(r, r.readPosition)].value == Some(r.pushed[|r.popped|]))
  {
    RunInv(capacity, unused, turns);
    var r := Run(New(capacity, unused), turns);
    MaskIs(r, r.readPosition, |r.popped|);
    assert r.consumer.MayRead? ==> SlotOf(r.slots, |r.popped|).value == Some(r.pushed[|r.popped|]);
  }

  /** In every interleaving, a slot holding a published value that has not been released is not
      the one the producer writes next. */
  lemma NeverOverwrites<T>(capacity: nat, unused: T, turns: seq<Turn<T>>, q: int)
    requires ValidCapacity(capacity)
    ensures var r := Run(New(capacity, unused), turns);
            (r.producer.MayWrite? || r.producer.MustPublish?) && |r.popped| <= q < |r.pushed| ==>
              q % capacity != Mask(r, r.position)
  {
    RunInv(capacity, unused, turns);
    var r := Run(New(capacity, unused), turns);
    MaskIs(r, r.position, |r.pushed|);
    if (r.producer.MayWrite? || r.producer.MustPublish?) && |r.popped| <= q < |r.pushed| {
      Apart(q, |r.pushed|, capacity);
    }
  }

  /** `push` gives up exactly when, at the moment it loads `head`, the ring is full. */
  lemma FullIsExact<T>(capacity: nat, unused: T, turns: seq<Turn<T>>, next: T)
    requires ValidCapacity(capacity)
    requires Run(New(capacity, unused), turns).producer.MustLoadHead?
    ensures var r := Run(New(capacity, unused), turns);
            ProducerStep(r, next).producer.Idle? <==> |r.pushed| - |r.popped| == capacity
  {
    RunInv(capacity, unused, turns);
    var r := Run(New(capacity, unused), turns);
    LooksFullIs(r, |r.popped|);
  }

  /** `pop` finds nothing exactly when the ring is empty: no stale or initial sequence number ever
      looks published. */
  lemma EmptyIsExact<T>(capacity: nat, unused: T, turns: seq<Turn<T>>)
    requires ValidCapacity(capacity)
    requires Run(New(capacity, unused), turns).consumer.Waiting?
    ensures var r := Run(New(capacity, unused), turns);
            ConsumerStep(r).consumer.Waiting? <==> r.popped == r.pushed
  {
    RunInv(capacity, unused, turns);
    PublishedIffWaiting(Run(New(capacity, unused), turns));
  }

  // ---------------------------------------------------------------- what callers are told

  /** A push that has returned: what was offered, the answer, and whether the ring was full just
      before it returned. */
  datatype PushCall<T> = PushCall(item: T, answer: PushResult<T>, full: bool)

  /** The pushes that have returned, the one under way, and how many steps that one has taken. */
  datatype Pushes<T> = Pushes(done: seq<PushCall<T>>, open: Option<T>, steps: nat)

  function PushTurn<T>(p: Pushes<T>, r: Ring<T>, next: T): Pushes<T>
    requires 0 < |r.slots|
  {
    var item := if p.open.Some? then p.open.value else next;
    var r' := ProducerStep(r, next);
    if r'.producer.Idle? then
      Pushes(p.done + [PushCall(item, r'.lastPush, |r.pushed| - |r.popped| == |r.slots|)], None, 0)
    else Pushes(p.done, Some(item), p.steps + 1)
  }

  /** The pushes of a run, as their caller sees them. */
  function PushesOf<T>(r: Ring<T>, turns: seq<Turn<T>>): Pushes<T>
    requires 0 < |r.slots|
  {
    var n := |turns|;
    if n == 0 then Pushes([], None, 0)
    else
      match turns[n - 1]
      case Producer(next) => PushTurn(PushesOf(r, turns[..n - 1]), Run(r, turns[..n - 1]), next)
      case Consumer => PushesOf(r, turns[..n - 1])
  }

  /** The items that were answered `Sent`. */
  function SentItems<T>(done: seq<PushCall<T>>): seq<T> {
    if done == [] then []
    else
      var call := done[|done| - 1];
      SentItems(done[..|done| - 1]) + if call.answer.Sent? then [call.item] else []
  }

  function OfferedTo<T>(at: ProducerAt<T>): Option<T> {
    match at
    case Idle => None
    case MustLoadHead(v) => Some(v)
    case MayWrite(v) => Some(v)
    case MustPublish(v) => Some(v)
  }

  ghost predicate PushesTold<T>(r: Ring<T>, p: Pushes<T>) {
    && p.open == OfferedTo(r.producer)
    && r.pushed == SentItems(p.done)
    && (forall k :: 0 <= k < |p.done| ==>
          p.done[k].answer == if p.done[k].full then Full(p.done[k].item) else Sent)
    && p.steps == (match r.producer case Idle => 0 case MustLoadHead(_) => 1 case _ => p.steps)
    && p.steps <= (if r.producer.MustPublish? then 3 else 2)
  }

  lemma SentAppend<T>(done: seq<PushCall<T>>, call: PushCall<T>)
    ensures SentItems(done + [call]) == SentItems(done) + if call.answer.Sent? then [call.item] else []
  {
    assert (done + [call])[..|done|] == done;
  }

  lemma PushTurnTold<T>(r: Ring<T>, p: Pushes<T>, next: T)
    requires RingInv(r) && PushesTold(r, p)
    ensures PushesTold(ProducerStep(r, next), PushTurn(p, r, next))
  {
    if ProducerStep(r, next).producer.Idle? {
      PushReturns(r, next);
      SentAppend(p.done, PushTurn(p, r, next).done[|p.done|]);
    }
  }

  /** The step by which a push returns. */
  lemma PushReturns<T>(r: Ring<T>, next: T)
    requires RingInv(r) && ProducerStep(r, next).producer.Idle?
    ensures OfferedTo(r.producer).Some?
    ensures var item, r' := OfferedTo(r.producer).value, ProducerStep(r, next);
            && r'.lastPush == (if |r.pushed| - |r.popped| == |r.slots| then Full(item) else Sent)
            && r'.pushed == r.pushed + if r'.lastPush.Sent? then [item] else []
  {
    if r.producer.MustLoadHead? { LooksFullIs(r, |r.popped|); }
  }

  lemma {:induction false} RunPushesTold<T>(capacity: nat, unused: T, turns: seq<Turn<T>>)
    requires ValidCapacity(capacity)
    ensures PushesTold(Run(New(capacity, unused), turns), PushesOf(New(capacity, unused), turns))
  {
    var n := |turns|;
    if n > 0 {
      RunPushesTold(capacity, unused, turns[..n - 1]);
      RunInv(capacity, unused, turns[..n - 1]);
      var r := Run(New(capacity, unused), turns[..n - 1]);
      if turns[n - 1].Producer? { PushTurnTold(r, PushesOf(New(capacity, unused), turns[..n - 1]), turns[n - 1].next); }
    }
  }

  /** In every interleaving: what was pushed is exactly what was offered and answered `Sent`, in that
      order. A push is answered `Full`, with its own item, if the ring is full when it returns and
      `Sent` if not, and it returns by its fourth step. */
  lemma PushAnswers<T>(capacity: nat, unused: T, turns: seq<Turn<T>>)
    requires ValidCapacity(capacity)
    ensures var r, p := Run(New(capacity, unused), turns), PushesOf(New(capacity, unused), turns);
            && r.pushed == SentItems(p.done)
            && (forall k :: 0 <= k < |p.done| ==>
                  p.done[k].answer == if p.done[k].full then Full(p.done[k].item) else Sent)
            && p.steps <= 3
  {
    RunPushesTold(capacity, unused, turns);
  }

  /** A pop that has returned: the answer, and the oldest element just before it returned. */
  datatype PopCall<T> = PopCall(answer: Option<T>, oldest: Option<T>)

  datatype Pops<T> = Pops(done: seq<PopCall<T>>, steps: nat)

  function Oldest<T>(r: Ring<T>): Option<T> {
    if |r.popped| < |r.pushed| then Some(r.pushed[|r.popped|]) else None
  }

  function PopTurn<T>(p: Pops<T>, r: Ring<T>): Pops<T>
    requires 0 < |r.slots|
  {
    var r' := ConsumerStep(r);
    if r'.consumer.Waiting? then Pops(p.done + [PopCall(r'.lastPop, Oldest(r))], 0) else p.(steps := p.steps + 1)
  }

  /** The pops of a run, as their caller sees them. */
  function PopsOf<T>(r: Ring<T>, turns: seq<Turn<T>>): Pops<T>
    requires 0 < |r.slots|
  {
    var n := |turns|;
    if n == 0 then Pops([], 0)
    else if turns[n - 1].Consumer? then PopTurn(PopsOf(r, turns[..n - 1]), Run(r, turns[..n - 1]))
    else PopsOf(r, turns[..n - 1])
  }

  /** The elements handed out. */
  function HandedOut<T>(done: seq<PopCall<T>>): seq<T> {
    if done == [] then []
    else
      var call := done[|done| - 1];
      HandedOut(done[..|done| - 1]) + if call.answer.Some? then [call.answer.value] else []
  }

  ghost predicate PopsTold<T>(r: Ring<T>, p: Pops<T>) {
    && r.popped == HandedOut(p.done)
    && (forall k :: 0 <= k < |p.done| ==> p.done[k].answer == p.done[k].oldest)
    && p.steps == (match r.consumer case Waiting => 0 case MayRead => 1 case MustRelease(_) => 2)
  }

  lemma HandedAppend<T>(done: seq<PopCall<T>>, call: PopCall<T>)
    ensures HandedOut(done + [call]) == HandedOut(done) + if call.answer.Some? then [call.answer.value] else []
  {
    assert (done + [call])[..|done|] == done;
  }

  lemma PopTurnTold<T>(r: Ring<T>, p: Pops<T>)
    requires RingInv(r) && PopsTold(r, p)
    ensures PopsTold(ConsumerStep(r), PopTurn(p, r))
  {
    var p' := PopTurn(p, r);
    PublishedIffWaiting(r);
    MaskIs(r, r.readPosition, |r.popped|);
    if ConsumerStep(r).consumer.Waiting? { HandedAppend(p.done, p'.done[|p.done|]); }
  }

  lemma {:induction false} RunPopsTold<T>(capacity: nat, unused: T, turns: seq<Turn<T>>)
    requires ValidCapacity(capacity)
    ensures PopsTold(Run(New(capacity, unused), turns), PopsOf(New(capacity, unused), turns))
  {
    var n := |turns|;
    if n > 0 {
      RunPopsTold(capacity, unused, turns[..n - 1]);
      RunInv(capacity, unused, turns[..n - 1]);
      var r := Run(New(capacity, unused), turns[..n - 1]);
      if turns[n - 1].Consumer? { PopTurnTold(r, PopsOf(New(capacity, unused), turns[..n - 1])); }
    }
  }

  /** In every interleaving: what was popped is exactly what the pops handed out, in that order. A pop
      hands out the oldest element there is when it returns, and `None` if there is none, and it
      returns by its third step. */
  lemma PopAnswers<T>(capacity: nat, unused: T, turns: seq<Turn<T>>)
    requires ValidCapacity(capacity)
    ensures var r, p := Run(New(capacity, unused), turns), PopsOf(New(capacity, unused), turns);
            && r.popped == HandedOut(p.done)
            && (forall k :: 0 <= k < |p.done| ==> p.done[k].answer == p.done[k].oldest)
            && p.steps <= 2
  {
    RunPopsTold(capacity, unused, turns);
  }
}
