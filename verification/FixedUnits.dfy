/** Increments, and converting decimals to whole numbers of them (crates/bowst-core/src/fixed.rs). */
module FixedUnits {
  import opened Common
  import opened FixedDecs
  import opened FixedOrder

  predicate InI64(x: int) {
    I64_MIN <= x <= I64_MAX
  }

  predicate InI128(x: int) {
    I128_MIN <= x <= I128_MAX
  }

  // ---------------------------------------------------------------- increments

  datatype Increment = Increment(mantissa: i64, scale: nat)

  predicate ValidIncrement(inc: Increment) {
    inc.mantissa >= 1 && inc.scale <= MAX_PARSE_SCALE
  }

  /** Stored without trailing zeros. */
  predicate Normal(inc: Increment) {
    ValidIncrement(inc) && (inc.scale == 0 || inc.mantissa % 10 != 0)
  }

  function AsDec(inc: Increment): Dec {
    Dec(inc.mantissa, inc.scale)
  }

  /** The value of an increment, as a numerator over `10^MAX_SCALE`. */
  function Step(inc: Increment): (r: int)
    requires ValidIncrement(inc)
    ensures r == Num(AsDec(inc))
  {
    inc.mantissa * Pow10(MAX_SCALE - inc.scale)
  }

  function Stripped(mantissa: i64, scale: nat): Increment
    requires mantissa >= 1
  {
    if scale > 0 && mantissa % 10 == 0 then Stripped(mantissa / 10, scale - 1) else Increment(mantissa, scale)
  }

  lemma {:induction false} StrippedKeepsValue(mantissa: i64, scale: nat)
    requires mantissa >= 1 && scale <= MAX_PARSE_SCALE
    ensures Normal(Stripped(mantissa, scale)) && Step(Stripped(mantissa, scale)) == Num(Dec(mantissa, scale))
  {
    if scale > 0 && mantissa % 10 == 0 {
      StrippedKeepsValue(mantissa / 10, scale - 1);
      MulAssoc(mantissa / 10, 10, Pow10(MAX_SCALE - scale));
    }
  }

  /** `Increment::new`. */
  method NewIncrement(mantissa: i64, scale: nat) returns (r: Result<Increment, FixedError>)
    ensures mantissa <= 0 ==> r == Err(NonPositiveIncrement)
    ensures mantissa > 0 && scale > MAX_PARSE_SCALE ==> r == Err(TooManyDecimals)
    ensures mantissa > 0 && scale <= MAX_PARSE_SCALE ==>
              r.Ok? && Normal(r.value) && Step(r.value) == Num(Dec(mantissa, scale))
  {
    if mantissa <= 0 {
      return Err(NonPositiveIncrement);
    }
    if scale > MAX_PARSE_SCALE {
      return Err(TooManyDecimals);
    }
    StrippedKeepsValue(mantissa, scale);
    var m, s := mantissa, scale;
    while s > 0 && m % 10 == 0
      invariant m >= 1 && Stripped(m, s) == Stripped(mantissa, scale)
      decreases s
    {
      m := m / 10;
      s := s - 1;
    }
    return Ok(Increment(m, s));
  }

  lemma MultipleOfTen(m: int, k: nat)
    requires k > 0
    ensures (m * Pow10(k)) % 10 == 0
  {
    assert m * (Pow10(k - 1) * 10) == (m * Pow10(k - 1)) * 10 by { MulAssoc(m, Pow10(k - 1), 10); }
  }

  lemma Rescale(m: int, a: nat, b: nat)
    requires a <= b <= MAX_SCALE
    ensures m * Pow10(MAX_SCALE - a) == (m * Pow10(b - a)) * Pow10(MAX_SCALE - b)
  {
    Pow10Sum(b - a, MAX_SCALE - b);
    MulAssoc(m, Pow10(b - a), Pow10(MAX_SCALE - b));
  }

  lemma SameScaleFirst(a: Increment, b: Increment)
    requires Normal(a) && Normal(b) && a.scale < b.scale
    ensures Step(a) != Step(b)
  {
    Rescale(a.mantissa, a.scale, b.scale);
    MultipleOfTen(a.mantissa, b.scale - a.scale);
    MulLess(a.mantissa * Pow10(b.scale - a.scale), b.mantissa, Pow10(MAX_SCALE - b.scale));
  }

  /** Increments of the same value are the same increment, however they were written. */
  lemma SameValueSameIncrement(a: Increment, b: Increment)
    requires Normal(a) && Normal(b)
    ensures a == b <==> Step(a) == Step(b)
  {
    if a.scale < b.scale {
      SameScaleFirst(a, b);
    } else if b.scale < a.scale {
      SameScaleFirst(b, a);
    } else {
      MulLess(a.mantissa, b.mantissa, Pow10(MAX_SCALE - a.scale));
    }
  }

  // ---------------------------------------------------------------- converting to units

  datatype Rounding = Down | Up | Exact

  function RoundQuotient(floor: int, exact: bool, rounding: Rounding): Result<int, FixedError> {
    if exact || rounding.Down? then Ok(floor)
    else if rounding.Exact? then Err(NotMultiple)
    else if floor + 1 > I128_MAX then Err(Overflow)
    else Ok(floor + 1)
  }

  function ToI64(x: int): Result<int, FixedError> {
    if InI64(x) then Ok(x) else Err(Overflow)
  }

  function Divide(n: int, d: int, rounding: Rounding): Result<int, FixedError>
    requires d > 0
  {
    match RoundQuotient(n / d, n % d == 0, rounding)
    case Err(e) => Err(e)
    case Ok(units) => ToI64(units)
  }

  function CommonScale(inc: Increment, v: Dec): nat {
    if v.scale > inc.scale then v.scale else inc.scale
  }

  /** Numerator and denominator at the common scale. */
  function Numerator(inc: Increment, v: Dec): int {
    v.mantissa * Pow10(CommonScale(inc, v) - v.scale)
  }

  function Denominator(inc: Increment, v: Dec): (d: int)
    requires ValidIncrement(inc)
    ensures d > 0
  {
    inc.mantissa * Pow10(CommonScale(inc, v) - inc.scale)
  }

  /** The 128-bit path of `to_units`. */
  function ToUnitsWide(inc: Increment, v: Dec, rounding: Rounding): Result<int, FixedError>
    requires ValidIncrement(inc)
  {
    if !InI128(Numerator(inc, v)) || !InI128(Denominator(inc, v)) then Err(Overflow)
    else Divide(Numerator(inc, v), Denominator(inc, v), rounding)
  }

  /** `rescaled_i64`: both numbers, when every step of computing them fits in 64 bits. */
  predicate FitsNarrow(inc: Increment, v: Dec)
    requires ValidIncrement(inc)
  {
    var common := CommonScale(inc, v);
    && InI64(v.mantissa) && common - v.scale < 19 && InI64(Numerator(inc, v))
    && common - inc.scale < 19 && InI64(Denominator(inc, v))
  }

  /** The 64-bit path: the floor must fit in 64 bits before it is rounded. */
  function DivideNarrow(n: int, d: int, rounding: Rounding): Result<int, FixedError>
    requires d > 0
  {
    if !InI64(n / d) then Err(Overflow) else Divide(n, d, rounding)
  }

  /** `Increment::to_units`. */
  function ToUnits(inc: Increment, v: Dec, rounding: Rounding): Result<int, FixedError>
    requires ValidIncrement(inc)
  {
    if FitsNarrow(inc, v) then DivideNarrow(Numerator(inc, v), Denominator(inc, v), rounding)
    else ToUnitsWide(inc, v, rounding)
  }

  lemma QuotientFits(n: int, d: int)
    requires d > 0 && InI64(n)
    ensures InI64(n / d)
  {
    assert n == d * (n / d) + n % d;
    if n >= 0 {
      assert 0 <= n / d;
      MulAtMost(1, d, n / d);
    } else {
      assert n / d <= -1;
      FloorAboveSelf(n, d);
    }
  }

  lemma NegatedProduct(a: int, b: int)
    ensures a * -b == -(a * b)
  {
  }

  lemma FloorAboveSelf(n: int, d: int)
    requires d > 0 && n < 0
    ensures n <= n / d
  {
    if n / d < n {
      assert n / d + 1 <= n;
      MulAtMost(n / d + 1, n, d);
      MulAtMost(1, d, -n);
      NegatedProduct(d, n);
    }
  }

  /** The 64-bit path and the 128-bit path give the same answer wherever the first is taken. */
  lemma NarrowIsWide(inc: Increment, v: Dec, rounding: Rounding)
    requires ValidIncrement(inc)
    ensures ToUnits(inc, v, rounding) == ToUnitsWide(inc, v, rounding)
  {
    if FitsNarrow(inc, v) {
      QuotientFits(Numerator(inc, v), Denominator(inc, v));
    }
  }

  // ---------------------------------------------------------------- what the units mean

  /** `u` steps are the most that do not exceed the value. */
  predicate IsFloor(u: int, inc: Increment, v: Dec)
    requires ValidIncrement(inc) && Legal(v)
  {
    u * Step(inc) <= Num(v) < (u + 1) * Step(inc)
  }

  /** `u` steps are the fewest that reach the value. */
  predicate IsCeiling(u: int, inc: Increment, v: Dec)
    requires ValidIncrement(inc) && Legal(v)
  {
    (u - 1) * Step(inc) < Num(v) <= u * Step(inc)
  }

  /** The increment, written with as many decimals as the value has, fits in 128 bits. */
  predicate DenominatorFits(inc: Increment, v: Dec) {
    inc.mantissa * Pow10(if v.scale > inc.scale then v.scale - inc.scale else 0) <= I128_MAX
  }

  /** Steps and value are the denominator and the numerator, times the same power of ten. */
  lemma SameRatio(inc: Increment, v: Dec) returns (k: int)
    requires ValidIncrement(inc) && Legal(v)
    ensures k > 0 && Num(v) == Numerator(inc, v) * k && Step(inc) == Denominator(inc, v) * k
  {
    var common := CommonScale(inc, v);
    k := Pow10(MAX_SCALE - common);
    Pow10Sum(common - v.scale, MAX_SCALE - common);
    Pow10Sum(common - inc.scale, MAX_SCALE - common);
    MulAssoc(v.mantissa, Pow10(common - v.scale), k);
    MulAssoc(inc.mantissa, Pow10(common - inc.scale), k);
  }

  /** Comparing `u` steps with the value is comparing `u` denominators with the numerator. */
  lemma StepsCompare(inc: Increment, v: Dec, u: int)
    requires ValidIncrement(inc) && Legal(v)
    ensures u * Step(inc) < Num(v) <==> u * Denominator(inc, v) < Numerator(inc, v)
    ensures u * Step(inc) == Num(v) <==> u * Denominator(inc, v) == Numerator(inc, v)
  {
    var k := SameRatio(inc, v);
    MulAssoc(u, Denominator(inc, v), k);
    MulLess(u * Denominator(inc, v), Numerator(inc, v), k);
  }

  lemma FloorOf(n: int, d: int, u: int)
    requires d > 0
    ensures n / d == u <==> u * d <= n < (u + 1) * d
    ensures n % d == 0 <==> (n / d) * d == n
  {
    var q := n / d;
    assert n == q * d + n % d;
    MulAtMost(q + 1, q + 1, d);
    if u < q { MulAtMost(u + 1, q, d); }
    if u > q { MulAtMost(q + 1, u, d); }
  }

  /** The floor is the Euclidean quotient, and the ceiling is one more unless the division is exact. */
  lemma FloorIsQuotient(inc: Increment, v: Dec, u: int)
    requires ValidIncrement(inc) && Legal(v)
    ensures var n, d := Numerator(inc, v), Denominator(inc, v);
            && (IsFloor(u, inc, v) <==> u == n / d)
            && (IsCeiling(u, inc, v) <==> u == n / d + if n % d == 0 then 0 else 1)
            && (n % d == 0 <==> (n / d) * Step(inc) == Num(v))
  {
    var n, d := Numerator(inc, v), Denominator(inc, v);
    StepsCompare(inc, v, u);
    StepsCompare(inc, v, u + 1);
    StepsCompare(inc, v, u - 1);
    StepsCompare(inc, v, n / d);
    FloorOf(n, d, u);
    FloorOf(n, d, u - 1);
    CeilingOf(n, d, u);
  }

  lemma CeilingOf(n: int, d: int, u: int)
    requires d > 0
    ensures (u - 1) * d < n <= u * d <==> u == n / d + if n % d == 0 then 0 else 1
  {
    var q := n / d;
    assert n == q * d + n % d;
    MulAtMost(q + 1, q + 1, d);
    if u <= q - 1 { MulAtMost(u, q - 1, d); MulAtMost(q, q, d); }
    if u >= q + 2 { MulAtMost(q + 1, u - 1, d); }
    MulAtMost(q, q, d);
    MulAtMost(q + 2, q + 2, d);
  }

  /** Every value of up to 18 decimals, which is every value the parser makes, has a fitting denominator. */
  lemma ShortScalesFit(inc: Increment, v: Dec)
    requires ValidIncrement(inc) && v.scale <= MAX_PARSE_SCALE
    ensures DenominatorFits(inc, v)
  {
    var k := if v.scale > inc.scale then v.scale - inc.scale else 0;
    Pow10Grows(k, 18);
    Pow10Values();
    MulAtMost(inc.mantissa, I64_MAX, Pow10(k));
  }

  lemma NarrowProduct(u: int, d: int)
    requires InI64(u) && 0 <= d <= I64_MAX
    ensures InI128(u * d) && InI128(u * d + d) && InI128(u * d - d)
  {
    if u >= 0 {
      MulAtMost(u, I64_MAX, d);
      MulAtMost(0, u, d);
    } else {
      MulAtMost(I64_MIN, u, d);
      MulAtMost(u, 0, d);
    }
  }

  /** A numerator that does not fit in 128 bits has no quotient in 64. */
  lemma WideNumerator(inc: Increment, v: Dec)
    requires ValidIncrement(inc) && Legal(v) && !InI128(Numerator(inc, v))
    ensures DenominatorFits(inc, v)
    ensures !InI64(Numerator(inc, v) / Denominator(inc, v)) && !InI64(Numerator(inc, v) / Denominator(inc, v) + 1)
  {
    assert v.scale < inc.scale;
    assert Pow10(0) == 1;
    var n, d := Numerator(inc, v), Denominator(inc, v);
    assert d == inc.mantissa;
    var q := n / d;
    assert n == q * d + n % d;
    if InI64(q) { NarrowProduct(q, d); }
    if InI64(q + 1) {
      NarrowProduct(q + 1, d);
      MulAtMost(q + 1, q + 1, d);
    }
  }

  /** A denominator that does not fit leaves a quotient that certainly does. */
  lemma WideDenominator(inc: Increment, v: Dec)
    requires ValidIncrement(inc) && Legal(v) && !DenominatorFits(inc, v)
    ensures InI128(Numerator(inc, v)) && !InI128(Denominator(inc, v))
    ensures InI64(Numerator(inc, v) / Denominator(inc, v)) && InI64(Numerator(inc, v) / Denominator(inc, v) + 1)
  {
    assert Pow10(0) == 1;
    assert v.scale > inc.scale;
    var n, d := Numerator(inc, v), Denominator(inc, v);
    FloorOf(n, d, -1);
    FloorOf(n, d, 0);
  }

  lemma FitsIsDenominator(inc: Increment, v: Dec)
    requires ValidIncrement(inc)
    ensures DenominatorFits(inc, v) <==> InI128(Denominator(inc, v))
  {
  }

  /** Rounding down gives the floor of the exact quotient when it fits in 64 bits and an overflow when
      it does not, exactly when the denominator fits; otherwise an overflow is reported although the
      floor fits. */
  lemma DownIsFloor(inc: Increment, v: Dec, u: int)
    requires ValidIncrement(inc) && Legal(v) && IsFloor(u, inc, v)
    ensures ToUnits(inc, v, Down) == ToI64(u) <==> DenominatorFits(inc, v)
    ensures !DenominatorFits(inc, v) ==> ToUnits(inc, v, Down) == Err(Overflow) && InI64(u)
  {
    NarrowIsWide(inc, v, Down);
    FloorIsQuotient(inc, v, u);
    FitsIsDenominator(inc, v);
    if !DenominatorFits(inc, v) {
      WideDenominator(inc, v);
    } else if !InI128(Numerator(inc, v)) {
      WideNumerator(inc, v);
    }
  }

  lemma LargestIsTooWide()
    ensures !DenominatorFits(Increment(I64_MAX, 0), Dec(0, MAX_SCALE))
  {
    Pow10Values();
  }

  /** Such a value: zero with 36 decimals, in whole steps of the largest increment. */
  lemma OverflowThoughZeroFits()
    ensures var inc, v := Increment(I64_MAX, 0), Dec(0, MAX_SCALE);
            IsFloor(0, inc, v) && ToUnits(inc, v, Down) == Err(Overflow)
  {
    var inc, v := Increment(I64_MAX, 0), Dec(0, MAX_SCALE);
    LargestIsTooWide();
    DownIsFloor(inc, v, 0);
  }

  /** Likewise rounding up and the ceiling. */
  lemma UpIsCeiling(inc: Increment, v: Dec, u: int)
    requires ValidIncrement(inc) && Legal(v) && IsCeiling(u, inc, v)
    ensures ToUnits(inc, v, Up) == ToI64(u) <==> DenominatorFits(inc, v)
    ensures !DenominatorFits(inc, v) ==> ToUnits(inc, v, Up) == Err(Overflow) && InI64(u)
  {
    NarrowIsWide(inc, v, Up);
    FloorIsQuotient(inc, v, u);
    FitsIsDenominator(inc, v);
    if !DenominatorFits(inc, v) {
      WideDenominator(inc, v);
    } else if !InI128(Numerator(inc, v)) {
      WideNumerator(inc, v);
    }
  }

  /** Every value has a floor and a ceiling. */
  lemma FloorAndCeilingExist(inc: Increment, v: Dec) returns (floor: int, ceiling: int)
    requires ValidIncrement(inc) && Legal(v)
    ensures IsFloor(floor, inc, v) && IsCeiling(ceiling, inc, v) && floor <= ceiling <= floor + 1
  {
    var n, d := Numerator(inc, v), Denominator(inc, v);
    floor := n / d;
    ceiling := floor + if n % d == 0 then 0 else 1;
    FloorIsQuotient(inc, v, floor);
    FloorIsQuotient(inc, v, ceiling);
  }

  /** A value that is exactly `u` steps converts to `u`, whatever the rounding. */
  lemma ExactValue(inc: Increment, v: Dec, u: int, rounding: Rounding)
    requires ValidIncrement(inc) && Legal(v) && DenominatorFits(inc, v)
    requires Num(v) == u * Step(inc) && InI64(u)
    ensures ToUnits(inc, v, rounding) == Ok(u)
  {
    var n, d := Numerator(inc, v), Denominator(inc, v);
    NarrowIsWide(inc, v, rounding);
    FitsIsDenominator(inc, v);
    StepsCompare(inc, v, u);
    MulAtMost(u + 1, u + 1, d);
    FloorOf(n, d, u);
    if !InI128(n) {
      WideNumerator(inc, v);
    }
  }

  /** Exact conversion succeeds with `u` only for a value that is exactly `u` steps, and calls nothing
      else a multiple. */
  lemma ExactMeansExact(inc: Increment, v: Dec)
    requires ValidIncrement(inc) && Legal(v)
    ensures var r := ToUnits(inc, v, Exact);
            && (r.Ok? ==> InI64(r.value) && r.value * Step(inc) == Num(v))
            && (r == Err(NotMultiple) ==> forall u :: u * Step(inc) != Num(v))
            && (r.Err? ==> r.error == NotMultiple || r.error == Overflow)
  {
    var n, d := Numerator(inc, v), Denominator(inc, v);
    var r := ToUnits(inc, v, Exact);
    NarrowIsWide(inc, v, Exact);
    StepsCompare(inc, v, n / d);
    FloorOf(n, d, n / d);
    if r == Err(NotMultiple) {
      forall u ensures u * Step(inc) != Num(v) {
        StepsCompare(inc, v, u);
        MulAtMost(u + 1, u + 1, d);
        FloorOf(n, d, u);
      }
    }
  }

  /** The value, written with as many decimals as the increment has, fits in 128 bits. */
  predicate NumeratorFits(inc: Increment, v: Dec) {
    InI128(v.mantissa * Pow10(if inc.scale > v.scale then inc.scale - v.scale else 0))
  }

  lemma FitsIsNumerator(inc: Increment, v: Dec)
    ensures NumeratorFits(inc, v) <==> InI128(Numerator(inc, v))
  {
  }

  /** A value that is exactly `u` steps: exact conversion gives `u` when it fits in 64 bits and an
      overflow when it does not, exactly when the denominator fits. */
  lemma ExactOfMultiple(inc: Increment, v: Dec, u: int)
    requires ValidIncrement(inc) && Legal(v) && Num(v) == u * Step(inc)
    ensures ToUnits(inc, v, Exact) == ToI64(u) <==> DenominatorFits(inc, v)
    ensures !DenominatorFits(inc, v) ==> ToUnits(inc, v, Exact) == Err(Overflow) && InI64(u)
  {
    var n, d := Numerator(inc, v), Denominator(inc, v);
    NarrowIsWide(inc, v, Exact);
    FitsIsDenominator(inc, v);
    StepsCompare(inc, v, u);
    MulAtMost(u + 1, u + 1, d);
    FloorOf(n, d, u);
    if !DenominatorFits(inc, v) {
      WideDenominator(inc, v);
    } else if !InI128(n) {
      WideNumerator(inc, v);
    }
  }

  /** A value that is no whole number of steps: exact conversion says so when both the numerator and the
      denominator fit in 128 bits, and reports an overflow when either does not. */
  lemma ExactOfOther(inc: Increment, v: Dec)
    requires ValidIncrement(inc) && Legal(v) && forall u :: u * Step(inc) != Num(v)
    ensures ToUnits(inc, v, Exact)
         == if NumeratorFits(inc, v) && DenominatorFits(inc, v) then Err(NotMultiple) else Err(Overflow)
  {
    var n, d := Numerator(inc, v), Denominator(inc, v);
    NarrowIsWide(inc, v, Exact);
    FitsIsDenominator(inc, v);
    FitsIsNumerator(inc, v);
    StepsCompare(inc, v, n / d);
    FloorOf(n, d, n / d);
  }

  // ---------------------------------------------------------------- back from units

  /** `from_units`, whose product is saturating. */
  function FromUnits(inc: Increment, units: i64): Dec {
    Dec(SatMul(units, inc.mantissa), inc.scale)
  }

  /** `units` steps is exactly what comes back, nothing saturates, and converting again returns `units`. */
  lemma FromUnitsRoundTrip(inc: Increment, units: i64, rounding: Rounding)
    requires ValidIncrement(inc)
    ensures Num(FromUnits(inc, units)) == units * Step(inc)
    ensures ToUnits(inc, FromUnits(inc, units), rounding) == Ok(units)
  {
    NarrowProduct(units, inc.mantissa);
    MulAssoc(units, inc.mantissa, Pow10(MAX_SCALE - inc.scale));
    ShortScalesFit(inc, FromUnits(inc, units));
    ExactValue(inc, FromUnits(inc, units), units, rounding);
  }
}
