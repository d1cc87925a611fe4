/** What every byte string parses to as a decimal, errors and their positions included
    (crates/bowst-core/src/fixed.rs:188-242). */
module FixedErrors {
  import opened Common
  import opened FixedDecs

  /** The longest beginning of a text that could still become a number: a sign, digits, and after at least one
      of them possibly a point and more digits. */
  datatype Head = Head(negative: bool, whole: seq<byte>, point: bool, frac: seq<byte>)

  predicate Right(h: Head) {
    && AllDigits(h.whole) && AllDigits(h.frac)
    && (if h.point then h.whole != [] else h.frac == [])
  }

  function Body(h: Head): seq<byte> {
    h.whole + if h.point then [POINT] + h.frac else []
  }

  function Written(h: Head): seq<byte> {
    (if h.negative then [MINUS] else []) + Body(h)
  }

  /** The byte can come next. */
  predicate GoesOn(h: Head, b: byte) {
    IsDigit(b) || (b == POINT && !h.point && h.whole != [])
  }

  function More(h: Head, b: byte): Head {
    if b == POINT then h.(point := true) else if h.point then h.(frac := h.frac + [b]) else h.(whole := h.whole + [b])
  }

  /** The text is this beginning and a rest that does not go on with it. */
  predicate Splits(bytes: seq<byte>, h: Head, rest: seq<byte>) {
    && Right(h) && bytes == Written(h) + rest && (rest != [] ==> !GoesOn(h, rest[0]))
    && (h.negative <==> bytes != [] && bytes[0] == MINUS)
  }

  /** The limit that the digits break, if they break one. */
  function Limit(h: Head): Option<FixedError>
    requires Right(h)
  {
    if h.whole == [] then None
    else if Value(DigitsSeen(h.whole, h.frac)) > I128_MAX then Some(Overflow)
    else if |h.frac| > MAX_PARSE_SCALE then Some(TooManyDecimals)
    else None
  }

  function Number(h: Head): Dec
    requires Right(h) && Limit(h).None?
  {
    if h.whole == [] then Dec(0, 0)
    else
      DigitsSeenAll(h.whole, h.frac);
      var m: int := Value(Both(h.whole, h.frac));
      Dec(if h.negative then -m else m, |h.frac|)
  }

  /** The answer, told by how the text splits: a limit is noticed first, then the first byte that does not go
      on, then that there are no digits, and last a point with nothing after it. */
  function Answer(h: Head, rest: seq<byte>): Result<Dec, FixedError>
    requires Right(h)
  {
    if Limit(h).Some? then Err(Limit(h).value)
    else if rest != [] then Err(InvalidChar(|Written(h)|))
    else if h.whole == [] then Err(EmptyNumber)
    else if h.point && h.frac == [] then Err(InvalidChar(|Written(h)| - 1))
    else Ok(Number(h))
  }

  // ---------------------------------------------------------------- every text splits

  lemma MoreRight(h: Head, b: byte)
    requires Right(h) && GoesOn(h, b)
    ensures Right(More(h, b)) && Body(More(h, b)) == Body(h) + [b]
  {
    assert [POINT] + h.frac + [b] == [POINT] + (h.frac + [b]);
    Associates(h.whole, [POINT] + h.frac, [b]);
  }

  /** Going on as long as possible. */
  lemma {:induction false} Longest(h: Head, rest: seq<byte>) returns (h': Head, rest': seq<byte>)
    requires Right(h)
    ensures Right(h') && h'.negative == h.negative && Body(h) + rest == Body(h') + rest'
    ensures rest' != [] ==> !GoesOn(h', rest'[0])
    decreases |rest|
  {
    h', rest' := h, rest;
    if rest != [] && GoesOn(h, rest[0]) {
      MoreRight(h, rest[0]);
      Associates(Body(h), [rest[0]], rest[1..]);
      assert rest == [rest[0]] + rest[1..];
      h', rest' := Longest(More(h, rest[0]), rest[1..]);
    }
  }

  lemma EveryTextSplits(bytes: seq<byte>) returns (h: Head, rest: seq<byte>)
    ensures Splits(bytes, h, rest)
  {
    var negative := bytes != [] && bytes[0] == MINUS;
    var body := bytes[if negative then 1 else 0..];
    var sign := if negative then [MINUS] else [];
    h, rest := Longest(Head(negative, [], false, []), body);
    assert Body(Head(negative, [], false, [])) + body == body;
    Associates(sign, Body(h), rest);
    assert bytes == sign + body;
  }

  // ---------------------------------------------------------------- what a head scans to

  /** What is scanned after a beginning that breaks no limit. */
  function ScanOf(h: Head): Scanned
    requires Right(h) && Limit(h).None?
  {
    Scanned(if h.whole == [] then 0 else Value(Both(h.whole, h.frac)), |h.frac|, h.point, |h.whole|)
  }

  lemma HeadScans(h: Head, from: nat)
    requires Right(h)
    ensures ScanAll(Body(h), from) == if Limit(h).Some? then Err(Limit(h).value) else Ok(ScanOf(h))
  {
    if h.point {
      ScansFraction(h.whole, h.frac, from);
      Associates(h.whole, [POINT], h.frac);
    } else {
      ScansDigits(h.whole, from);
      assert h.whole + [] == h.whole;
    }
  }

  lemma HeadStops(h: Head, rest: seq<byte>, from: nat)
    requires Right(h) && rest != [] && !GoesOn(h, rest[0])
    ensures ScanAll(Body(h) + rest, from)
         == Err(if Limit(h).Some? then Limit(h).value else InvalidChar(from + |Body(h)|))
  {
    var s, i := Body(h) + rest, |Body(h)|;
    assert s[..i] == Body(h);
    HeadScans(h, from);
    ScanStep(s, from, i);
  }

  lemma BodyOf(bytes: seq<byte>, h: Head, rest: seq<byte>)
    requires Splits(bytes, h, rest)
    ensures var from := if h.negative then 1 else 0;
            from <= |bytes| && bytes[from..] == Body(h) + rest && |Written(h)| == from + |Body(h)|
  {
    Associates(if h.negative then [MINUS] else [], Body(h), rest);
  }

  lemma BodyScans(h: Head, rest: seq<byte>, from: nat)
    requires Right(h) && (rest != [] ==> !GoesOn(h, rest[0]))
    ensures ScanAll(Body(h) + rest, from)
         == if Limit(h).Some? then Err(Limit(h).value)
            else if rest != [] then Err(InvalidChar(from + |Body(h)|)) else Ok(ScanOf(h))
  {
    if rest == [] {
      assert Body(h) + rest == Body(h);
      HeadScans(h, from);
    } else {
      HeadStops(h, rest, from);
    }
  }

  lemma HeadFinishes(h: Head)
    requires Right(h) && Limit(h).None?
    ensures ScanOf(h).mantissa <= I128_MAX && Finish(ScanOf(h), h.negative, |Written(h)|) == Answer(h, [])
  {
    if h.whole != [] { DigitsSeenAll(h.whole, h.frac); }
  }

  /** The answer to every byte string follows from how it splits. */
  lemma ParseAnswers(bytes: seq<byte>, h: Head, rest: seq<byte>)
    requires Splits(bytes, h, rest)
    ensures Parse(bytes) == Answer(h, rest)
  {
    BodyOf(bytes, h, rest);
    BodyScans(h, rest, if h.negative then 1 else 0);
    if rest == [] && Limit(h).None? { HeadFinishes(h); }
  }
}
