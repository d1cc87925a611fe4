/** The token bucket that budgets venue requests (crates/bowst-venue/src/ratelimit.rs).

    Times are nanoseconds of a monotonic clock, balances are tokens scaled by the window, and every
    saturation of the 128-bit arithmetic is written out. */
module RateLimits {
  import opened Common
  import opened Remainders

  const U128_MAX: int := 0xFFFF_FFFF_FFFF_FFFF_FFFF_FFFF_FFFF_FFFF

  type u128 = x: int | 0 <= x <= U128_MAX

  function SatAdd128(a: u128, b: u128): u128 {
    if a + b > U128_MAX then U128_MAX else a + b
  }

  /** `saturating_mul` of a token count and a span of nanoseconds. */
  function SatMul128(a: nat, b: nat): u128 {
    if a * b > U128_MAX then U128_MAX else a * b
  }

  datatype Bucket = Bucket(capacity: u64, window: nat, scaled: u128, last: u64)

  function Full(capacity: u64, window: nat): u128 {
    SatMul128(capacity, window)
  }

  predicate Sound(b: Bucket) {
    b.window >= 1 && b.scaled <= Full(b.capacity, b.window)
  }

  function NewBucket(capacity: u64, window: nat, now: u64): (b: Bucket)
    ensures Sound(b)
  {
    var w := Max(window, 1);
    Bucket(capacity, w, Full(capacity, w), now)
  }

  function Refill(b: Bucket, now: u64): (r: Bucket)
    ensures r.capacity == b.capacity && r.window == b.window
  {
    var elapsed := if now > b.last then now - b.last else 0;
    var balance := Min(SatAdd128(b.scaled, SatMul128(elapsed, b.capacity)), Full(b.capacity, b.window));
    b.(last := Max(b.last, now), scaled := balance)
  }

  datatype Take = Granted | Wait(nanos: u64) | Never

  /** `div_ceil`. */
  function DivCeil(a: nat, b: nat): nat
    requires b > 0
  {
    (a + b - 1) / b
  }

  function TryTake(b: Bucket, cost: u64, now: u64): (Bucket, Take) {
    if cost > b.capacity then (b, Never)
    else
      var r := Refill(b, now);
      var needed := SatMul128(cost, r.window);
      if r.scaled >= needed then (r.(scaled := r.scaled - needed), Granted)
      else (r, Wait(Min(DivCeil(needed - r.scaled, Max(r.capacity, 1)), U64_MAX)))
  }

  function ObserveUsed(b: Bucket, used: u64, now: u64): Bucket {
    var r := Refill(b, now);
    var left := if used > b.capacity then 0 else b.capacity - used;
    r.(scaled := Min(r.scaled, SatMul128(left, r.window)))
  }

  // ---------------------------------------------------------------- products

  lemma MulAdd(a: nat, b: nat, k: nat)
    ensures (a + b) * k == a * k + b * k
  {
  }

  lemma WordProduct(a: u64, b: u64)
    ensures 0 <= a * b < U128_MAX
  {
    MulMono(a, U64_MAX, b);
    MulMono(b, U64_MAX, U64_MAX);
    assert U64_MAX * b == b * U64_MAX;
  }

  /** What a refill adds never saturates, so the balance is the plain sum, cut off at full. */
  lemma RefillIs(b: Bucket, now: u64)
    requires Sound(b)
    ensures var elapsed := Max(now - b.last, 0);
            && 0 <= elapsed * b.capacity < U128_MAX
            && Refill(b, now) == b.(last := Max(b.last, now),
                                    scaled := Min(b.scaled + elapsed * b.capacity, Full(b.capacity, b.window)))
    ensures Sound(Refill(b, now))
  {
    var elapsed: u64 := if now > b.last then now - b.last else 0;
    WordProduct(elapsed, b.capacity);
  }

  /** Refilling in two steps is refilling once: looking at a bucket never costs it a fraction. */
  lemma RefillTwice(b: Bucket, t1: u64, t2: u64)
    requires Sound(b) && t1 <= t2
    ensures Refill(Refill(b, t1), t2) == Refill(b, t2)
  {
    RefillIs(b, t1);
    RefillIs(b, t2);
    RefillIs(Refill(b, t1), t2);
    var e1, e2 := Max(t1 - b.last, 0), Max(t2 - Max(b.last, t1), 0);
    MulAdd(e1, e2, b.capacity);
    assert Max(t2 - b.last, 0) == e1 + e2;
  }

  /** The answer of a take in plain arithmetic, whatever saturates on the way. `Never` is the answer to a
      cost above the capacity and to no other, and the bucket is not even looked at. Otherwise the take
      is granted exactly when what was left and what has accrued since cover the cost; the bucket is
      charged the cost, and keeps all it has when the take is refused. */
  lemma TakeAnswers(b: Bucket, cost: u64, now: u64)
    requires Sound(b)
    ensures var (r, answer) := TryTake(b, cost, now);
            var accrued := b.scaled + Max(now - b.last, 0) * b.capacity;
            var charge := Min(cost * b.window, U128_MAX);
            && r.capacity == b.capacity && r.window == b.window
            && (answer == Never <==> cost > b.capacity)
            && (answer == Granted <==> cost <= b.capacity && charge <= accrued)
            && (answer == Never ==> r == b)
            && (answer != Never ==> r.last == Max(b.last, now))
            && (answer == Granted ==> r.scaled == Min(accrued, Full(b.capacity, b.window)) - charge)
            && (answer.Wait? ==> r.scaled == accrued)
  {
    RefillIs(b, now);
    if cost <= b.capacity { CostFits(b, cost); }
  }

  // ---------------------------------------------------------------- the wait

  lemma DivCeilLeast(a: nat, b: nat, d: nat)
    requires b > 0
    ensures d >= DivCeil(a, b) <==> d * b >= a
  {
    var q := DivCeil(a, b);
    assert a <= q * b < a + b;
    if d >= q {
      MulMono(q, d, b);
    } else {
      MulMono(d, q - 1, b);
      MulAdd(q - 1, 1, b);
    }
  }

  lemma CostFits(b: Bucket, cost: u64)
    requires cost <= b.capacity
    ensures SatMul128(cost, b.window) <= Full(b.capacity, b.window)
  {
    MulMono(cost, b.capacity, b.window);
  }

  /** How the wait of a refused take follows from the balance it found. */
  lemma RefusedBalance(b: Bucket, cost: u64, now: u64)
    requires Sound(b) && TryTake(b, cost, now).1.Wait?
    ensures var (r, answer) := TryTake(b, cost, now);
            && r == Refill(b, now) && Sound(r) && r.capacity >= 1
            && r.scaled < SatMul128(cost, r.window) <= Full(r.capacity, r.window)
            && answer.nanos == Min(DivCeil(SatMul128(cost, r.window) - r.scaled, r.capacity), U64_MAX)
  {
    RefillIs(b, now);
    CostFits(b, cost);
  }

  /** A take refused at `now` succeeds at a later time exactly when the wait it was given has passed
      since the latest time the bucket has seen. (With a window of more than 2^64 nanoseconds a wait
      can be cut down to the longest duration expressible, which is then too short itself.) */
  lemma WaitIsLeast(b: Bucket, cost: u64, now: u64, later: u64)
    requires Sound(b) && TryTake(b, cost, now).1.Wait?
    requires b.window <= U64_MAX || later - Max(b.last, now) < U64_MAX
    ensures var (r, answer) := TryTake(b, cost, now);
            TryTake(r, cost, later).1 == Granted <==> later >= Max(b.last, now) + answer.nanos
  {
    RefusedBalance(b, cost, now);
    var r := TryTake(b, cost, now).0;
    var needed := SatMul128(cost, r.window);
    var missing := needed - r.scaled;
    var d := Max(later - r.last, 0);
    RefillIs(r, later);
    DivCeilLeast(missing, r.capacity, d);
    DivCeilLeast(missing, r.capacity, 0);
    assert r.last == Max(b.last, now);
    if b.window <= U64_MAX {
      WaitWithinWindow(r, missing);
    }
  }

  lemma WaitWithinWindow(r: Bucket, missing: nat)
    requires r.capacity >= 1 && missing <= Full(r.capacity, r.window)
    ensures DivCeil(missing, r.capacity) <= r.window
  {
    DivCeilLeast(missing, r.capacity, r.window);
  }

  /** So retrying after the advised wait works, and works no earlier, exactly when the clock had not
      gone back: the wait counts from the latest time the bucket has seen. */
  lemma RetryAfterWait(b: Bucket, cost: u64, now: u64)
    requires Sound(b) && b.window <= U64_MAX && TryTake(b, cost, now).1.Wait?
    requires now + TryTake(b, cost, now).1.nanos <= U64_MAX
    ensures var (r, answer) := TryTake(b, cost, now);
            TryTake(r, cost, now + answer.nanos).1 == Granted <==> now >= b.last
  {
    WaitIsLeast(b, cost, now, now + TryTake(b, cost, now).1.nanos);
  }

  /** A clock that goes back: the take is refused at 50 with a wait of 10, and again at 60. */
  lemma ClockBackRefusesAgain()
    ensures var b := Bucket(1, 10, 0, 100);
            var (r, answer) := TryTake(b, 1, 50);
            Sound(b) && answer == Wait(10) && TryTake(r, 1, 60).1 == Wait(10) && TryTake(r, 1, 110).1 == Granted
  {
  }

  // ---------------------------------------------------------------- over whole runs

  datatype Call = AskAvailable(now: u64) | AskTake(cost: u64, now: u64) | Report(used: u64, now: u64)

  function Step(b: Bucket, c: Call): Bucket {
    match c
    case AskAvailable(now) => Refill(b, now)
    case AskTake(cost, now) => TryTake(b, cost, now).0
    case Report(used, now) => ObserveUsed(b, used, now)
  }

  /** The tokens a call hands out. */
  function Grant(b: Bucket, c: Call): nat {
    if c.AskTake? && TryTake(b, c.cost, c.now).1 == Granted then c.cost else 0
  }

  function Run(b: Bucket, calls: seq<Call>): Bucket {
    if calls == [] then b else Step(Run(b, calls[..|calls| - 1]), calls[|calls| - 1])
  }

  function TotalGranted(b: Bucket, calls: seq<Call>): nat {
    if calls == [] then 0
    else
      var before := calls[..|calls| - 1];
      TotalGranted(b, before) + Grant(Run(b, before), calls[|calls| - 1])
  }

  /** The balance and the tokens handed out, against a full bucket and what `elapsed` can add. The
      second line says that a charge cut down by saturation, which only a full bucket of the largest
      balance can meet, cannot happen twice. */
  predicate Accounted(capacity: u64, window: nat, scaled: u128, granted: nat, elapsed: nat) {
    && granted * window + scaled <= capacity * window + capacity * elapsed
    && (granted * window + scaled <= Full(capacity, window) + capacity * elapsed || scaled <= capacity * elapsed)
  }

  lemma TimeAccounted(capacity: u64, window: nat, scaled: u128, granted: nat, elapsed: nat, more: nat, scaled': u128)
    requires Accounted(capacity, window, scaled, granted, elapsed) && scaled' <= scaled + more * capacity
    ensures Accounted(capacity, window, scaled', granted, elapsed + more)
  {
    MulAdd(elapsed, more, capacity);
    assert capacity * (elapsed + more) == capacity * elapsed + more * capacity;
  }

  lemma RefillAccounted(b: Bucket, granted: nat, t0: u64, now: u64)
    requires Sound(b) && t0 <= b.last && Accounted(b.capacity, b.window, b.scaled, granted, b.last - t0)
    ensures var r := Refill(b, now);
            Sound(r) && t0 <= r.last && Accounted(r.capacity, r.window, r.scaled, granted, r.last - t0)
  {
    RefillIs(b, now);
    var r := Refill(b, now);
    TimeAccounted(b.capacity, b.window, b.scaled, granted, b.last - t0, r.last - b.last, r.scaled);
  }

  lemma LowerAccounted(b: Bucket, granted: nat, t0: u64, scaled: u128)
    requires Sound(b) && t0 <= b.last && Accounted(b.capacity, b.window, b.scaled, granted, b.last - t0)
    requires scaled <= b.scaled
    ensures Sound(b.(scaled := scaled)) && Accounted(b.capacity, b.window, scaled, granted, b.last - t0)
  {
  }

  lemma ChargeAccounted(b: Bucket, granted: nat, t0: u64, cost: u64)
    requires Sound(b) && t0 <= b.last && Accounted(b.capacity, b.window, b.scaled, granted, b.last - t0)
    requires cost <= b.capacity && b.scaled >= SatMul128(cost, b.window)
    ensures var left := b.scaled - SatMul128(cost, b.window);
            Sound(b.(scaled := left)) && Accounted(b.capacity, b.window, left, granted + cost, b.last - t0)
  {
    MulAdd(granted, cost, b.window);
    MulMono(cost, b.capacity, b.window);
    WordProduct(b.capacity, b.last - t0);
  }

  lemma StepAccounted(b: Bucket, granted: nat, t0: u64, c: Call)
    requires Sound(b) && t0 <= b.last && Accounted(b.capacity, b.window, b.scaled, granted, b.last - t0)
    ensures var r := Step(b, c);
            && r.capacity == b.capacity && r.window == b.window && Sound(r) && t0 <= r.last
            && Accounted(r.capacity, r.window, r.scaled, granted + Grant(b, c), r.last - t0)
  {
    RefillAccounted(b, granted, t0, c.now);
    match c
    case AskTake(cost, now) =>
      if TryTake(b, cost, now).1 == Granted {
        ChargeAccounted(Refill(b, now), granted, t0, cost);
      }
    case Report(_, now) => LowerAccounted(Refill(b, now), granted, t0, Step(b, c).scaled);
    case _ =>
  }

  lemma {:induction false} RunAccounted(capacity: u64, window: nat, t0: u64, calls: seq<Call>)
    ensures var b := NewBucket(capacity, window, t0);
            var r := Run(b, calls);
            && r.capacity == capacity && r.window == b.window && Sound(r) && t0 <= r.last
            && Accounted(capacity, b.window, r.scaled, TotalGranted(b, calls), r.last - t0)
  {
    var b := NewBucket(capacity, window, t0);
    if calls == [] {
      assert capacity * 0 == 0;
    } else {
      var before := calls[..|calls| - 1];
      RunAccounted(capacity, window, t0, before);
      StepAccounted(Run(b, before), TotalGranted(b, before), t0, calls[|calls| - 1]);
    }
  }

  /** The time a run has reached: the latest any call named, whatever order they came in. */
  function HighWater(t0: u64, calls: seq<Call>): u64 {
    if calls == [] then t0 else Max(HighWater(t0, calls[..|calls| - 1]), calls[|calls| - 1].now)
  }

  /** Calls that touch the clock: a take of more than the whole capacity is turned away unseen. */
  lemma {:induction false} LastWithinHighWater(capacity: u64, window: nat, t0: u64, calls: seq<Call>)
    ensures Run(NewBucket(capacity, window, t0), calls).last <= HighWater(t0, calls)
  {
    if calls != [] {
      LastWithinHighWater(capacity, window, t0, calls[..|calls| - 1]);
    }
  }

  lemma LongerIsMore(full: nat, capacity: nat, e1: nat, e2: nat)
    requires e1 <= e2
    ensures full + capacity * e1 <= full + capacity * e2
  {
    MulMono(e1, e2, capacity);
  }

  /** Over every run of calls, with the clock going back and forth as it may and reports coming in, the
      tokens handed out never exceed the capacity plus what the capacity per window yields over the
      time elapsed. No bound on the capacity or the window is needed: saturation can only cost tokens. */
  lemma GrantsBounded(capacity: u64, window: nat, t0: u64, calls: seq<Call>)
    ensures var b, end := NewBucket(capacity, window, t0), HighWater(t0, calls);
            end >= t0 && TotalGranted(b, calls) * b.window <= capacity * b.window + capacity * (end - t0)
  {
    var b := NewBucket(capacity, window, t0);
    var r := Run(b, calls);
    RunAccounted(capacity, window, t0, calls);
    LastWithinHighWater(capacity, window, t0, calls);
    var e1, e2 := r.last - t0, HighWater(t0, calls) - t0;
    LongerIsMore(capacity * b.window, capacity, e1, e2);
  }

  lemma {:induction false} RunKeepsCapacity(b: Bucket, calls: seq<Call>)
    requires Sound(b)
    ensures var r := Run(b, calls);
            r.capacity == b.capacity && r.window == b.window && Sound(r)
  {
    if calls != [] {
      var before := Run(b, calls[..|calls| - 1]);
      RunKeepsCapacity(b, calls[..|calls| - 1]);
      var c := calls[|calls| - 1];
      RefillIs(before, c.now);
    }
  }

  /** After every run of calls, a cost above the capacity is answered `Never` at any time, and any other
      cost is granted once a whole window has passed since the latest time the bucket has seen. */
  lemma NeverIsForGood(b: Bucket, calls: seq<Call>, cost: u64, now: u64)
    requires Sound(b) && now >= Run(b, calls).last + b.window
    ensures TryTake(Run(b, calls), cost, now).1 == if cost > b.capacity then Never else Granted
  {
    RunKeepsCapacity(b, calls);
    var r := Run(b, calls);
    TakeAnswers(r, cost, now);
    if cost <= b.capacity {
      CostFits(r, cost);
      MulMono(b.window, now - r.last, b.capacity);
    }
  }

  /** A venue report never adds tokens, leaves at most what it says is unspent, and takes nothing
      from a balance already that low. */
  lemma ReportOnlyLowers(b: Bucket, used: u64, now: u64)
    requires Sound(b)
    ensures var r, o := Refill(b, now), ObserveUsed(b, used, now);
            && o.scaled <= r.scaled
            && o.scaled <= Max(b.capacity - used, 0) * b.window
            && (r.scaled <= Max(b.capacity - used, 0) * b.window ==> o == r)
            && o == r.(scaled := Min(r.scaled, Max(b.capacity - used, 0) * b.window))
  {
  }

  lemma QuotientAtLeast(a: nat, b: nat, k: nat)
    requires b > 0
    ensures k <= a / b <==> k * b <= a
  {
    var q := a / b;
    assert q * b <= a < q * b + b;
    if k <= q {
      MulMono(k, q, b);
    } else {
      MulMono(q + 1, k, b);
      MulAdd(q, 1, b);
    }
  }

  lemma QuotientWithin(a: nat, b: nat, c: nat)
    requires b > 0 && a <= c * b
    ensures 0 <= a / b <= c
  {
    QuotientAtLeast(a, b, c + 1);
    MulAdd(c, 1, b);
  }

  lemma BalanceWithinCapacity(b: Bucket)
    requires Sound(b)
    ensures 0 <= b.scaled / b.window <= b.capacity
  {
    QuotientWithin(b.scaled, b.window, b.capacity);
  }

  /** Whole tokens available: the most a single take could have right now. */
  lemma AvailableIsMostTakeable(b: Bucket, cost: u64, now: u64)
    requires Sound(b) && b.capacity * b.window <= U128_MAX
    ensures TryTake(b, cost, now).1 == Granted <==> cost <= Refill(b, now).scaled / b.window
    ensures Refill(b, now).scaled / b.window <= b.capacity
  {
    RefillIs(b, now);
    var r := Refill(b, now);
    BalanceWithinCapacity(r);
    QuotientAtLeast(r.scaled, r.window, cost);
    if cost <= b.capacity {
      MulMono(cost, b.capacity, b.window);
    }
  }

  // ---------------------------------------------------------------- the bucket itself

  class TokenBucket {
    const capacity: u64
    const window: nat
    var scaled: u128
    var last: u64

    ghost function State(): Bucket
      reads this
    {
      Bucket(capacity, window, scaled, last)
    }

    constructor (capacity: u64, window: nat, now: u64)
      ensures State() == NewBucket(capacity, window, now)
    {
      this.capacity := capacity;
      this.window := Max(window, 1);
      scaled := SatMul128(capacity, Max(window, 1));
      last := now;
    }

    method RefillAt(now: u64)
      modifies this
      ensures State() == Refill(old(State()), now)
    {
      var elapsed := if now > last then now - last else 0;
      last := Max(last, now);
      var full := SatMul128(capacity, window);
      scaled := Min(SatAdd128(scaled, SatMul128(elapsed, capacity)), full);
    }

    method Available(now: u64) returns (tokens: u64)
      requires Sound(State())
      modifies this
      ensures State() == Refill(old(State()), now) && Sound(State())
      ensures tokens == scaled / window <= capacity
    {
      RefillAt(now);
      RefillIs(old(State()), now);
      BalanceWithinCapacity(State());
      tokens := scaled / window;
    }

    method Take(cost: u64, now: u64) returns (answer: Take)
      requires Sound(State())
      modifies this
      ensures (State(), answer) == TryTake(old(State()), cost, now)
    {
      if cost > capacity {
        return Never;
      }
      RefillAt(now);
      var needed := SatMul128(cost, window);
      if scaled >= needed {
        scaled := scaled - needed;
        return Granted;
      }
      var missing := needed - scaled;
      answer := Wait(Min(DivCeil(missing, Max(capacity, 1)), U64_MAX));
    }

    method Observe(used: u64, now: u64)
      requires Sound(State())
      modifies this
      ensures State() == ObserveUsed(old(State()), used, now)
    {
      RefillAt(now);
      var remaining := SatMul128(if used > capacity then 0 else capacity - used, window);
      scaled := Min(scaled, remaining);
    }
  }
}
