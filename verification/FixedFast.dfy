/** Parsing text straight into units, without division (crates/bowst-core/src/fixed.rs:482-545). */
module FixedFast {
  import opened Common
  import opened FixedDecs
  import opened FixedOrder
  import opened FixedUnits

  const FAST_DIGITS: nat := 18

  /** The position of the first point, or the length. */
  function FirstPoint(bytes: seq<byte>, from: nat): (r: nat)
    requires from <= |bytes|
    ensures from <= r <= |bytes|
    ensures r < |bytes| ==> bytes[r] == POINT
    decreases |bytes| - from
  {
    if from == |bytes| || bytes[from] == POINT then from else FirstPoint(bytes, from + 1)
  }

  predicate AllZeros(s: seq<byte>) {
    forall i :: 0 <= i < |s| ==> s[i] == ZERO
  }

  /** `byte.wrapping_sub(b'0')`. */
  function WrappedDigit(b: byte): byte {
    (b + 256 - ZERO) % 256
  }

  /** The digit loop, with its wrapping arithmetic; none when a byte is not a digit. */
  function WrappingDigits(s: seq<byte>): Option<u64> {
    if s == [] then Some(0)
    else
      match WrappingDigits(s[..|s| - 1])
      case None => None
      case Some(units) =>
        var digit := WrappedDigit(s[|s| - 1]);
        if digit > 9 then None else Some(((units * 10) % TWO_64 + digit) % TWO_64)
  }

  /** The text cut at its point. */
  function WholePart(bytes: seq<byte>): seq<byte> {
    bytes[..FirstPoint(bytes, 0)]
  }

  function FractionPart(bytes: seq<byte>): seq<byte> {
    var dot := FirstPoint(bytes, 0);
    if dot < |bytes| then bytes[dot + 1..] else []
  }

  /** The decimals the increment keeps. */
  function Kept(inc: Increment, frac: seq<byte>): seq<byte> {
    frac[..Min(|frac|, inc.scale)]
  }

  function Dropped(inc: Increment, frac: seq<byte>): seq<byte> {
    frac[Min(|frac|, inc.scale)..]
  }

  /** The texts the fast path looks at: not too long, no point at the end, nothing but zeros dropped. */
  predicate Eligible(inc: Increment, bytes: seq<byte>) {
    var whole, frac := WholePart(bytes), FractionPart(bytes);
    && inc.mantissa == 1
    && (FirstPoint(bytes, 0) < |bytes| ==> frac != [])
    && whole != [] && |frac| <= MAX_PARSE_SCALE
    && AllZeros(Dropped(inc, frac))
    && |whole| + |Kept(inc, frac)| <= FAST_DIGITS
  }

  /** `parse_exact_power_of_ten`: none means "not handled here". */
  function FastParse(inc: Increment, bytes: seq<byte>): Option<int>
    requires ValidIncrement(inc)
  {
    if !Eligible(inc, bytes) then None
    else
      var kept := Kept(inc, FractionPart(bytes));
      match WrappingDigits(WholePart(bytes) + kept)
      case None => None
      case Some(units) =>
        if !InI64(units) || !InI64(units * Pow10(inc.scale - |kept|)) then None
        else Some(units * Pow10(inc.scale - |kept|))
  }

  /** What `parse_units` is documented to equal: parse, then convert. */
  function ParseThenConvert(inc: Increment, bytes: seq<byte>, rounding: Rounding): Result<int, FixedError>
    requires ValidIncrement(inc)
  {
    match Parse(bytes)
    case Err(e) => Err(e)
    case Ok(v) => ToUnits(inc, v, rounding)
  }

  // ---------------------------------------------------------------- the fast path is right

  lemma DigitByte(b: byte)
    ensures WrappedDigit(b) <= 9 <==> IsDigit(b)
    ensures IsDigit(b) ==> WrappedDigit(b) == b - ZERO
  {
  }

  lemma AllDigitsStep(s: seq<byte>)
    requires s != []
    ensures AllDigits(s) <==> AllDigits(s[..|s| - 1]) && IsDigit(s[|s| - 1])
  {
    if AllDigits(s[..|s| - 1]) {
      assert forall i :: 0 <= i < |s| - 1 ==> s[i] == s[..|s| - 1][i];
    }
  }

  lemma FewDigitsFit(s: seq<byte>)
    requires AllDigits(s) && |s| <= FAST_DIGITS
    ensures Value(s) < TWO_64
  {
    ValueBound(s);
    Pow10Grows(|s|, FAST_DIGITS);
    Pow10Values();
  }

  lemma NoWrap(units: nat, digit: nat)
    requires 10 * units + digit < TWO_64
    ensures ((units * 10) % TWO_64 + digit) % TWO_64 == 10 * units + digit
  {
  }

  /** Eighteen digits never wrap: the loop computes their value, and stops at anything else. */
  lemma {:induction false} NothingWraps(s: seq<byte>)
    requires |s| <= FAST_DIGITS
    ensures WrappingDigits(s).Some? <==> AllDigits(s)
    ensures AllDigits(s) ==> WrappingDigits(s) == Some(Value(s))
  {
    if s != [] {
      NothingWraps(s[..|s| - 1]);
      AllDigitsStep(s);
      DigitByte(s[|s| - 1]);
      if AllDigits(s) {
        FewDigitsFit(s);
        NoWrap(Value(s[..|s| - 1]), s[|s| - 1] - ZERO);
      }
    }
  }

  lemma {:induction false} ZerosAreDigits(s: seq<byte>)
    requires AllZeros(s)
    ensures AllDigits(s) && Value(s) == 0
  {
    if s != [] {
      ZerosAreDigits(s[..|s| - 1]);
    }
  }

  lemma CutAt(bytes: seq<byte>, dot: nat)
    requires dot < |bytes|
    ensures bytes == bytes[..dot] + ([bytes[dot]] + bytes[dot + 1..])
  {
  }

  lemma UnsignedText(whole: seq<byte>, frac: seq<byte>)
    ensures Text(false, whole, frac) == whole + (if frac == [] then [] else [POINT] + frac)
  {
    assert [] + whole == whole;
  }

  lemma CutAtPoint(bytes: seq<byte>)
    requires FirstPoint(bytes, 0) < |bytes| ==> FractionPart(bytes) != []
    ensures bytes == Text(false, WholePart(bytes), FractionPart(bytes))
  {
    var dot := FirstPoint(bytes, 0);
    UnsignedText(WholePart(bytes), FractionPart(bytes));
    if dot < |bytes| {
      CutAt(bytes, dot);
    } else {
      assert bytes[..dot] == bytes;
    }
  }

  lemma PartsAreDigits(a: seq<byte>, b: seq<byte>)
    requires AllDigits(a + b)
    ensures AllDigits(a) && AllDigits(b)
  {
    forall i | 0 <= i < |a| ensures IsDigit(a[i]) { assert (a + b)[i] == a[i]; }
    forall i | 0 <= i < |b| ensures IsDigit(b[i]) { assert (a + b)[|a| + i] == b[i]; }
  }

  lemma ZerosAppended(a: seq<byte>, zeros: seq<byte>)
    requires AllDigits(a) && AllZeros(zeros)
    ensures AllDigits(a + zeros) && Value(a + zeros) == Value(a) * Pow10(|zeros|)
  {
    ZerosAreDigits(zeros);
    ValueAppend(a, zeros);
  }

  lemma Regroup(whole: seq<byte>, frac: seq<byte>, cut: nat)
    requires cut <= |frac|
    ensures whole + frac == (whole + frac[..cut]) + frac[cut..]
  {
  }

  /** The text the fast path accepts is a plain number. */
  lemma PlainText(inc: Increment, bytes: seq<byte>)
    requires ValidIncrement(inc) && FastParse(inc, bytes).Some?
    ensures var whole, frac := WholePart(bytes), FractionPart(bytes);
            && Plain(whole, frac) && bytes == Text(false, whole, frac)
            && AllDigits(whole + Kept(inc, frac))
            && Value(Both(whole, frac)) == Value(whole + Kept(inc, frac)) * Pow10(|Dropped(inc, frac)|)
  {
    var whole, frac := WholePart(bytes), FractionPart(bytes);
    CutAtPoint(bytes);
    NothingWraps(whole + Kept(inc, frac));
    ZerosAppended(whole + Kept(inc, frac), Dropped(inc, frac));
    Regroup(whole, frac, Min(|frac|, inc.scale));
    PartsAreDigits(whole, frac);
  }

  /** At most 36 digits, so the parser's own limits are not met. */
  lemma FastTextParses(inc: Increment, bytes: seq<byte>)
    requires ValidIncrement(inc) && FastParse(inc, bytes).Some?
    ensures var whole, frac := WholePart(bytes), FractionPart(bytes);
            && Plain(whole, frac) && Value(Both(whole, frac)) <= I128_MAX
            && Parse(bytes) == Ok(Dec(Value(Both(whole, frac)), |frac|))
  {
    var whole, frac := WholePart(bytes), FractionPart(bytes);
    PlainText(inc, bytes);
    ParsesText(false, whole, frac);
    DigitsSeenAll(whole, frac);
    ValueBound(Both(whole, frac));
    Pow10Grows(|Both(whole, frac)|, 36);
    Pow10Values();
  }

  /** Digits dropped and digits missing make up for each other. */
  lemma SameNumber(v: nat, len: nat, scale: nat, kept: nat)
    requires len <= MAX_PARSE_SCALE && scale <= MAX_PARSE_SCALE && kept == Min(len, scale)
    ensures (v * Pow10(len - kept)) * Pow10(MAX_SCALE - len) == (v * Pow10(scale - kept)) * Pow10(MAX_SCALE - scale)
  {
    Pow10Sum(len - kept, MAX_SCALE - len);
    Pow10Sum(scale - kept, MAX_SCALE - scale);
    MulAssoc(v, Pow10(len - kept), Pow10(MAX_SCALE - len));
    MulAssoc(v, Pow10(scale - kept), Pow10(MAX_SCALE - scale));
  }

  /** What the fast path answers, times the step, is the number in the text. */
  lemma FastValue(inc: Increment, bytes: seq<byte>)
    requires ValidIncrement(inc) && FastParse(inc, bytes).Some?
    ensures InI64(FastParse(inc, bytes).value)
    ensures Parse(bytes).Ok? && Parse(bytes).value.scale <= MAX_PARSE_SCALE
    ensures Num(Parse(bytes).value) == FastParse(inc, bytes).value * Step(inc)
  {
    var whole, frac := WholePart(bytes), FractionPart(bytes);
    var kept := Kept(inc, frac);
    PlainText(inc, bytes);
    FastTextParses(inc, bytes);
    NothingWraps(whole + kept);
    FastUnits(inc, bytes);
    SameNumber(Value(whole + kept), |frac|, inc.scale, |kept|);
  }

  lemma FastUnits(inc: Increment, bytes: seq<byte>)
    requires ValidIncrement(inc) && FastParse(inc, bytes).Some?
    ensures var kept := Kept(inc, FractionPart(bytes));
            var digits := WrappingDigits(WholePart(bytes) + kept);
            digits.Some? && InI64(FastParse(inc, bytes).value)
            && FastParse(inc, bytes).value == digits.value * Pow10(inc.scale - |kept|)
            && Step(inc) == Pow10(MAX_SCALE - inc.scale) && |FractionPart(bytes)| <= MAX_PARSE_SCALE
  {
  }

  /** Whatever the fast path answers is what the general path answers, for every rounding. */
  lemma FastIsRight(inc: Increment, bytes: seq<byte>, rounding: Rounding)
    requires ValidIncrement(inc) && FastParse(inc, bytes).Some?
    ensures ParseThenConvert(inc, bytes, rounding) == Ok(FastParse(inc, bytes).value)
  {
    FastValue(inc, bytes);
    var v := Parse(bytes).value;
    ShortScalesFit(inc, v);
    ExactValue(inc, v, FastParse(inc, bytes).value, rounding);
  }

  // ---------------------------------------------------------------- as it runs

  method FindPoint(bytes: seq<byte>) returns (dot: nat)
    ensures dot == FirstPoint(bytes, 0)
  {
    dot := 0;
    while dot < |bytes| && bytes[dot] != POINT
      invariant dot <= |bytes| && FirstPoint(bytes, dot) == FirstPoint(bytes, 0)
    {
      dot := dot + 1;
    }
  }

  method OnlyZeros(s: seq<byte>) returns (r: bool)
    ensures r <==> AllZeros(s)
  {
    var i := 0;
    while i < |s|
      invariant i <= |s| && AllZeros(s[..i])
    {
      if s[i] != ZERO {
        return false;
      }
      i := i + 1;
    }
    assert s[..i] == s;
    return true;
  }

  lemma {:induction false} DigitStep(s: seq<byte>, i: nat)
    requires i < |s|
    ensures WrappingDigits(s[..i + 1])
         == match WrappingDigits(s[..i])
            case None => None
            case Some(units) =>
              var digit := WrappedDigit(s[i]);
              if digit > 9 then None else Some(((units * 10) % TWO_64 + digit) % TWO_64)
    ensures WrappingDigits(s[..i + 1]).None? ==> WrappingDigits(s).None?
    decreases |s| - i
  {
    assert s[..i + 1][..i] == s[..i];
    if i + 1 < |s| {
      DigitStep(s, i + 1);
    } else {
      assert s[..i + 1] == s;
    }
  }

  method TakeDigits(s: seq<byte>) returns (r: Option<u64>)
    ensures r == WrappingDigits(s)
  {
    var units: u64 := 0;
    var i := 0;
    while i < |s|
      invariant i <= |s| && WrappingDigits(s[..i]) == Some(units)
    {
      DigitStep(s, i);
      var digit := WrappedDigit(s[i]);
      if digit > 9 {
        return None;
      }
      units := ((units * 10) % TWO_64 + digit) % TWO_64;
      i := i + 1;
    }
    assert s[..i] == s;
    return Some(units);
  }

  method ParseExactPowerOfTen(inc: Increment, bytes: seq<byte>) returns (r: Option<int>)
    requires ValidIncrement(inc)
    ensures r == FastParse(inc, bytes)
  {
    if inc.mantissa != 1 {
      return None;
    }
    var dot := FindPoint(bytes);
    var whole, frac := bytes[..dot], [];
    if dot < |bytes| {
      frac := bytes[dot + 1..];
      if |frac| == 0 {
        return None;
      }
    }
    if |whole| == 0 || |frac| > MAX_PARSE_SCALE {
      return None;
    }
    var cut := Min(|frac|, inc.scale);
    var kept, dropped := frac[..cut], frac[cut..];
    var zeros := OnlyZeros(dropped);
    if !zeros || |whole| + |kept| > FAST_DIGITS {
      return None;
    }
    var units := TakeDigits(whole + kept);
    if units.None? || !InI64(units.value) {
      return None;
    }
    var product := units.value * Pow10(inc.scale - |kept|);
    return if InI64(product) then Some(product) else None;
  }

  /** `parse_units_bytes`: for every byte string, increment and rounding, the same value and the same
      error as parsing and then converting. */
  method ParseUnitsBytes(inc: Increment, bytes: seq<byte>, rounding: Rounding) returns (r: Result<int, FixedError>)
    requires ValidIncrement(inc)
    ensures r == ParseThenConvert(inc, bytes, rounding)
  {
    var fast := ParseExactPowerOfTen(inc, bytes);
    if fast.Some? {
      FastIsRight(inc, bytes, rounding);
      return Ok(fast.value);
    }
    var parsed := ParseBytes(bytes);
    if parsed.Err? {
      return Err(parsed.error);
    }
    return ToUnits(inc, parsed.value, rounding);
  }
}
