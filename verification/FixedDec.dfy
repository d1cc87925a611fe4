/** Exact decimals: parsing, printing and comparing (crates/bowst-core/src/fixed.rs). */
module FixedDecs {
  import opened Common

  const I64_MAX: int := 0x7FFF_FFFF_FFFF_FFFF
  const I64_MIN: int := -0x8000_0000_0000_0000
  const I128_MAX: int := 0x7FFF_FFFF_FFFF_FFFF_FFFF_FFFF_FFFF_FFFF
  const I128_MIN: int := -0x8000_0000_0000_0000_0000_0000_0000_0000

  type i64 = x: int | I64_MIN <= x <= I64_MAX witness 0
  type i128 = x: int | I128_MIN <= x <= I128_MAX witness 0

  const MAX_SCALE: nat := 36
  const MAX_PARSE_SCALE: nat := 18
  const MAX_TEXT_LEN: nat := 42

  datatype FixedError =
    | EmptyNumber
    | InvalidChar(pos: nat)
    | TooManyDecimals
    | Overflow
    | NonPositiveIncrement
    | NotMultiple
    | BufferTooSmall

  /** `mantissa * 10^-scale`. */
  datatype Dec = Dec(mantissa: i128, scale: nat)

  predicate Legal(d: Dec) {
    d.scale <= MAX_SCALE
  }

  // ---------------------------------------------------------------- powers of ten

  function Pow10(n: nat): (r: nat)
    ensures r >= 1
  {
    if n == 0 then 1 else 10 * Pow10(n - 1)
  }

  lemma {:induction false} Pow10Sum(a: nat, b: nat)
    ensures Pow10(a + b) == Pow10(a) * Pow10(b)
  {
    if a > 0 {
      Pow10Sum(a - 1, b);
      assert Pow10(a) * Pow10(b) == 10 * (Pow10(a - 1) * Pow10(b));
    }
  }

  lemma {:induction false} Pow10Grows(a: nat, b: nat)
    requires a <= b
    ensures Pow10(a) <= Pow10(b)
  {
    if a < b {
      Pow10Grows(a, b - 1);
    }
  }

  lemma Pow10Values()
    ensures Pow10(18) == 1_000_000_000_000_000_000
    ensures Pow10(36) == 1_000_000_000_000_000_000_000_000_000_000_000_000
    ensures Pow10(38) == 100 * Pow10(36) <= I128_MAX && Pow10(39) == 1000 * Pow10(36) > I128_MAX + 1
  {
    assert Pow10(5) == 100_000;
    assert Pow10(9) == 1_000_000_000 by { Pow10Sum(4, 5); assert Pow10(4) == 10_000; }
    Pow10Sum(9, 9);
    Pow10Sum(18, 18);
    Pow10Sum(2, 36);
    Pow10Sum(3, 36);
    assert Pow10(3) == 1000;
  }

  // ---------------------------------------------------------------- digits

  const ZERO: byte := 48
  const POINT: byte := 46
  const MINUS: byte := 45

  predicate IsDigit(b: byte) {
    ZERO <= b <= ZERO + 9
  }

  predicate AllDigits(s: seq<byte>) {
    forall i :: 0 <= i < |s| ==> IsDigit(s[i])
  }

  /** The number a string of digits writes. */
  function Value(s: seq<byte>): nat
    requires AllDigits(s)
  {
    if s == [] then 0 else 10 * Value(s[..|s| - 1]) + (s[|s| - 1] - ZERO)
  }

  lemma {:induction false} ValueAppend(a: seq<byte>, b: seq<byte>)
    requires AllDigits(a) && AllDigits(b)
    ensures AllDigits(a + b) && Value(a + b) == Value(a) * Pow10(|b|) + Value(b)
    decreases |b|
  {
    if b == [] {
      assert a + b == a;
    } else {
      var n := |b| - 1;
      ValueAppend(a, b[..n]);
      assert (a + b)[..|a + b| - 1] == a + b[..n];
      TimesTen(Value(a), Pow10(n));
    }
  }

  lemma TimesTen(a: nat, p: nat)
    ensures 10 * (a * p) == a * (10 * p)
  {
  }

  lemma {:induction false} ValueBound(s: seq<byte>)
    requires AllDigits(s)
    ensures Value(s) < Pow10(|s|)
  {
    if s != [] {
      ValueBound(s[..|s| - 1]);
    }
  }

  // ---------------------------------------------------------------- parsing

  datatype Scanned = Scanned(mantissa: nat, scale: nat, point: bool, ints: nat)

  /** One byte of a number. The overflow of the mantissa is noticed before the count of decimals. */
  function ScanByte(st: Scanned, b: byte, pos: nat): Result<Scanned, FixedError> {
    if IsDigit(b) then
      var m := 10 * st.mantissa + (b - ZERO);
      if m > I128_MAX then Err(Overflow)
      else if !st.point then Ok(st.(mantissa := m, ints := st.ints + 1))
      else if st.scale + 1 > MAX_PARSE_SCALE then Err(TooManyDecimals)
      else Ok(st.(mantissa := m, scale := st.scale + 1))
    else if b == POINT && !st.point && st.ints > 0 then Ok(st.(point := true))
    else Err(InvalidChar(pos))
  }

  const START: Scanned := Scanned(0, 0, false, 0)

  /** The state after the bytes of `s`, the first of which is at position `from` of the text. */
  function ScanAll(s: seq<byte>, from: nat): (r: Result<Scanned, FixedError>)
    ensures r.Ok? ==> r.value.mantissa <= I128_MAX
  {
    if s == [] then Ok(START)
    else
      match ScanAll(s[..|s| - 1], from)
      case Err(e) => Err(e)
      case Ok(st) => ScanByte(st, s[|s| - 1], from + |s| - 1)
  }

  function Finish(st: Scanned, negative: bool, len: nat): Result<Dec, FixedError>
    requires st.mantissa <= I128_MAX
  {
    if st.ints == 0 then Err(EmptyNumber)
    else if st.point && st.scale == 0 then Err(InvalidChar(if len > 0 then len - 1 else 0))
    else
      var m: int := st.mantissa;
      Ok(Dec(if negative then -m else m, st.scale))
  }

  /** `Dec::parse_bytes`, with one checked 128-bit accumulator. */
  function Parse(bytes: seq<byte>): Result<Dec, FixedError> {
    if bytes == [] then Err(EmptyNumber)
    else
      var negative := bytes[0] == MINUS;
      var from := if negative then 1 else 0;
      match ScanAll(bytes[from..], from)
      case Err(e) => Err(e)
      case Ok(st) => Finish(st, negative, |bytes|)
  }

  /** A mantissa kept in 64 bits while it fits, and in 128 bits from then on. */
  datatype Accumulator = Accumulator(small: u64, big: Option<i128>) {
    function Held(): int {
      if big.Some? then big.value else small
    }
  }

  function Accumulate(acc: Accumulator, digit: nat): (r: Result<Accumulator, FixedError>)
    requires digit <= 9 && acc.Held() >= 0
    ensures r.Ok? <==> 10 * acc.Held() + digit <= I128_MAX
    ensures r.Ok? ==> r.value.Held() == 10 * acc.Held() + digit
    ensures r.Err? ==> r.error == Overflow
  {
    if acc.big.None? && 10 * acc.small + digit <= U64_MAX then Ok(acc.(small := 10 * acc.small + digit))
    else if 10 * acc.Held() + digit <= I128_MAX then Ok(acc.(big := Some(10 * acc.Held() + digit)))
    else Err(Overflow)
  }

  /** The registers of the parsing loop. */
  datatype Registers = Registers(acc: Accumulator, scale: nat, point: bool, ints: nat) {
    predicate Holds(st: Scanned) {
      acc.Held() >= 0 && st == Scanned(acc.Held(), scale, point, ints)
    }
  }

  /** The body of the parsing loop. */
  method TakeByte(regs: Registers, byte: byte, pos: nat) returns (r: Result<Registers, FixedError>)
    requires regs.acc.Held() >= 0
    ensures var s := ScanByte(Scanned(regs.acc.Held(), regs.scale, regs.point, regs.ints), byte, pos);
            if s.Ok? then r.Ok? && r.value.acc.Held() >= 0 && r.value.Holds(s.value) else r == Err(s.error)
  {
    if IsDigit(byte) {
      var next := Accumulate(regs.acc, byte - ZERO);
      if next.Err? {
        return Err(next.error);
      }
      if regs.point {
        var scale := regs.scale + 1;
        if scale > MAX_PARSE_SCALE {
          return Err(TooManyDecimals);
        }
        return Ok(regs.(acc := next.value, scale := scale));
      }
      return Ok(regs.(acc := next.value, ints := regs.ints + 1));
    }
    if byte == POINT && !regs.point && regs.ints > 0 {
      return Ok(regs.(point := true));
    }
    return Err(InvalidChar(pos));
  }

  /** `Dec::parse_bytes` as it runs: a loop over the bytes, with a 64-bit accumulator that widens. */
  method ParseBytes(bytes: seq<byte>) returns (r: Result<Dec, FixedError>)
    ensures r == Parse(bytes)
  {
    if |bytes| == 0 {
      return Err(EmptyNumber);
    }
    var negative := bytes[0] == MINUS;
    var from := if negative then 1 else 0;
    ghost var rest := bytes[from..];
    ghost var st := START;
    var regs := Registers(Accumulator(0, None), 0, false, 0);
    var pos := from;
    while pos < |bytes|
      invariant from <= pos <= |bytes| && regs.acc.Held() >= 0
      invariant ScanAll(rest[..pos - from], from) == Ok(st) && regs.Holds(st)
    {
      ScanStep(rest, from, pos - from);
      var next := TakeByte(regs, bytes[pos], pos);
      if next.Err? {
        return Err(next.error);
      }
      st := ScanByte(st, bytes[pos], pos).value;
      regs := next.value;
      pos := pos + 1;
    }
    assert rest[..pos - from] == rest;
    if regs.ints == 0 {
      return Err(EmptyNumber);
    }
    if regs.point && regs.scale == 0 {
      return Err(InvalidChar(|bytes| - 1));
    }
    var mantissa: int := regs.acc.Held();
    if negative {
      mantissa := -mantissa;
    }
    return Ok(Dec(mantissa, regs.scale));
  }

  /** One more byte; and an error, once met, is the error of the whole text. */
  lemma {:induction false} ScanStep(s: seq<byte>, from: nat, i: nat)
    requires i < |s|
    ensures ScanAll(s[..i + 1], from)
         == match ScanAll(s[..i], from)
            case Err(e) => Err(e)
            case Ok(st) => ScanByte(st, s[i], from + i)
    ensures ScanAll(s[..i + 1], from).Err? ==> ScanAll(s, from) == ScanAll(s[..i + 1], from)
    decreases |s| - i
  {
    assert s[..i + 1][..i] == s[..i];
    if i + 1 < |s| {
      ScanStep(s, from, i + 1);
    } else {
      assert s[..i + 1] == s;
    }
  }

  // ---------------------------------------------------------------- which texts are numbers

  /** An optional minus sign, digits, and possibly a point and more digits. */
  function Text(negative: bool, whole: seq<byte>, frac: seq<byte>): seq<byte> {
    (if negative then [MINUS] else []) + whole + (if frac == [] then [] else [POINT] + frac)
  }

  predicate Plain(whole: seq<byte>, frac: seq<byte>) {
    whole != [] && AllDigits(whole) && AllDigits(frac)
  }

  /** The digits the parser looks at before it gives up on the number of decimals. */
  function DigitsSeen(whole: seq<byte>, frac: seq<byte>): (r: seq<byte>)
    requires Plain(whole, frac)
    ensures AllDigits(r)
  {
    whole + frac[..Min(|frac|, MAX_PARSE_SCALE + 1)]
  }

  function Both(whole: seq<byte>, frac: seq<byte>): (r: seq<byte>)
    requires Plain(whole, frac)
    ensures AllDigits(r)
  {
    whole + frac
  }

  lemma {:induction false} ScansDigits(ds: seq<byte>, from: nat)
    requires AllDigits(ds)
    ensures ScanAll(ds, from) == if Value(ds) > I128_MAX then Err(Overflow) else Ok(Scanned(Value(ds), 0, false, |ds|))
  {
    if ds != [] {
      ScansDigits(ds[..|ds| - 1], from);
    }
  }

  function FractionOutcome(whole: seq<byte>, frac: seq<byte>): Result<Scanned, FixedError>
    requires Plain(whole, frac)
  {
    if Value(DigitsSeen(whole, frac)) > I128_MAX then Err(Overflow)
    else if |frac| > MAX_PARSE_SCALE then Err(TooManyDecimals)
    else Ok(Scanned(Value(Both(whole, frac)), |frac|, true, |whole|))
  }

  lemma ScansPoint(whole: seq<byte>, from: nat)
    requires whole != [] && AllDigits(whole)
    ensures ScanAll(whole + [POINT], from) == FractionOutcome(whole, [])
  {
    ScansDigits(whole, from);
    assert (whole + [POINT])[..|whole|] == whole;
    assert whole + [] == whole;
  }

  /** One more decimal. */
  lemma OutcomeStep(whole: seq<byte>, frac: seq<byte>, pos: nat)
    requires Plain(whole, frac) && frac != []
    ensures Plain(whole, frac[..|frac| - 1])
    ensures FractionOutcome(whole, frac)
         == match FractionOutcome(whole, frac[..|frac| - 1])
            case Err(e) => Err(e)
            case Ok(st) => ScanByte(st, frac[|frac| - 1], pos)
  {
    var n := |frac| - 1;
    var before := frac[..n];
    if n > MAX_PARSE_SCALE {
      assert before[..MAX_PARSE_SCALE + 1] == frac[..MAX_PARSE_SCALE + 1];
    } else {
      assert frac[..n + 1] == frac;
      assert before[..n] == before;
      assert (whole + frac)[..|whole + frac| - 1] == whole + before;
      assert Value(whole + frac) == 10 * Value(whole + before) + (frac[n] - ZERO);
    }
  }

  lemma {:induction false} ScansFraction(whole: seq<byte>, frac: seq<byte>, from: nat)
    requires Plain(whole, frac)
    ensures ScanAll(whole + [POINT] + frac, from) == FractionOutcome(whole, frac)
    decreases |frac|
  {
    if frac == [] {
      ScansPoint(whole, from);
      assert whole + [POINT] + frac == whole + [POINT];
    } else {
      var n := |frac| - 1;
      OutcomeStep(whole, frac, from + |whole| + 1 + n);
      ScansFraction(whole, frac[..n], from);
      var s := whole + [POINT] + frac;
      assert s[..|s| - 1] == whole + [POINT] + frac[..n];
    }
  }

  /** What a well-formed text parses to: its number, to the last decimal; or the first of the two
      limits it breaks. */
  function TextOutcome(negative: bool, whole: seq<byte>, frac: seq<byte>): Result<Dec, FixedError>
    requires Plain(whole, frac)
  {
    if Value(DigitsSeen(whole, frac)) > I128_MAX then Err(Overflow)
    else if |frac| > MAX_PARSE_SCALE then Err(TooManyDecimals)
    else
      DigitsSeenAll(whole, frac);
      var m: int := Value(Both(whole, frac));
      Ok(Dec(if negative then -m else m, |frac|))
  }

  lemma DigitsSeenAll(whole: seq<byte>, frac: seq<byte>)
    requires Plain(whole, frac) && |frac| <= MAX_PARSE_SCALE
    ensures DigitsSeen(whole, frac) == Both(whole, frac)
  {
  }

  lemma ParsesText(negative: bool, whole: seq<byte>, frac: seq<byte>)
    requires Plain(whole, frac)
    ensures Parse(Text(negative, whole, frac)) == TextOutcome(negative, whole, frac)
  {
    var text := Text(negative, whole, frac);
    var from := if negative then 1 else 0;
    assert IsDigit(whole[0]) && text[from] == whole[0];
    if frac == [] {
      assert text[from..] == whole;
      ScansDigits(whole, from);
      assert DigitsSeen(whole, frac) == whole;
    } else {
      assert text[from..] == whole + [POINT] + frac;
      ScansFraction(whole, frac, from);
    }
  }

  /** What has been scanned without an error is digits, or digits, a point and digits. */
  ghost predicate Shaped(s: seq<byte>, st: Scanned) {
    if st.point then
      && 0 < st.ints < |s| && st.scale == |s| - st.ints - 1
      && AllDigits(s[..st.ints]) && s[st.ints] == POINT && AllDigits(s[st.ints + 1..])
    else st.scale == 0 && st.ints == |s| && AllDigits(s)
  }

  lemma ShapedStep(s: seq<byte>, b: byte, st: Scanned, pos: nat)
    requires Shaped(s, st) && ScanByte(st, b, pos).Ok?
    ensures Shaped(s + [b], ScanByte(st, b, pos).value)
  {
    var t := s + [b];
    if st.point {
      assert t[..st.ints] == s[..st.ints];
      assert t[st.ints + 1..] == s[st.ints + 1..] + [b];
    } else {
      assert t[..|s|] == s;
    }
  }

  lemma {:induction false} ScannedShape(s: seq<byte>, from: nat)
    requires ScanAll(s, from).Ok?
    ensures Shaped(s, ScanAll(s, from).value)
  {
    if s != [] {
      var n := |s| - 1;
      ScannedShape(s[..n], from);
      ShapedStep(s[..n], s[n], ScanAll(s[..n], from).value, from + n);
      assert s == s[..n] + [s[n]];
    }
  }

  /** The digits before and after the point. */
  lemma ShapedText(s: seq<byte>, st: Scanned) returns (whole: seq<byte>, frac: seq<byte>)
    requires Shaped(s, st) && st.ints > 0 && (st.point ==> st.scale > 0)
    ensures Plain(whole, frac) && s == Text(false, whole, frac)
  {
    if st.point {
      whole, frac := s[..st.ints], s[st.ints + 1..];
      assert s == whole + [POINT] + frac;
    } else {
      whole, frac := s, [];
    }
  }

  /** Nothing else is a number: every text that parses is an optional sign, one or more digits, and
      possibly a point and one or more digits. */
  lemma OnlyTextsParse(bytes: seq<byte>) returns (negative: bool, whole: seq<byte>, frac: seq<byte>)
    requires Parse(bytes).Ok?
    ensures Plain(whole, frac) && bytes == Text(negative, whole, frac)
  {
    negative := bytes[0] == MINUS;
    var from := if negative then 1 else 0;
    ScannedShape(bytes[from..], from);
    whole, frac := ShapedText(bytes[from..], ScanAll(bytes[from..], from).value);
    assert bytes == (if negative then [MINUS] else []) + bytes[from..];
  }
}
