/** Printing decimals, and reading them back (crates/bowst-core/src/fixed.rs:276-301). */
module FixedText {
  import opened Common
  import opened ByteCodec
  import opened FixedDecs

  function Less1(k: nat): nat {
    if k > 0 then k - 1 else 0
  }

  /** The digits of `n`, most significant first, with leading zeros up to `k` digits. */
  function Digits(n: nat, k: nat): (r: seq<byte>)
    ensures |r| >= k && AllDigits(r)
    decreases n + k
  {
    if n == 0 && k == 0 then [] else Digits(n / 10, Less1(k)) + [ZERO + n % 10]
  }

  lemma {:induction false} DigitsValue(n: nat, k: nat)
    ensures Value(Digits(n, k)) == n
    decreases n + k
  {
    if n > 0 || k > 0 {
      DigitsValue(n / 10, Less1(k));
      assert Digits(n, k)[..|Digits(n, k)| - 1] == Digits(n / 10, Less1(k));
    }
  }

  lemma {:induction false} DigitsCount(n: nat, k: nat, most: nat)
    requires n < Pow10(most) && k <= most
    ensures |Digits(n, k)| <= most
    decreases most
  {
    if n > 0 || k > 0 {
      DigitsCount(n / 10, Less1(k), most - 1);
    }
  }

  function Magnitude(d: Dec): nat {
    var m: int := d.mantissa;
    if m < 0 then -m else m
  }

  function DigitsOf(d: Dec): seq<byte> {
    Digits(Magnitude(d), d.scale + 1)
  }

  /** What `write_to` writes: every decimal of the scale, and at least one digit before the point. */
  function TextOf(d: Dec): seq<byte> {
    var ds := DigitsOf(d);
    Text(d.mantissa < 0, ds[..|ds| - d.scale], ds[|ds| - d.scale..])
  }

  lemma MagnitudeFits(d: Dec)
    ensures Magnitude(d) < Pow10(39)
  {
    Pow10Values();
  }

  /** A sign, a point and 39 digits are the most there can be, so `MAX_TEXT_LEN` bytes always suffice. */
  lemma TextFits(d: Dec)
    requires Legal(d)
    ensures |DigitsOf(d)| <= 39 && |TextOf(d)| <= 41 < MAX_TEXT_LEN
  {
    MagnitudeFits(d);
    DigitsCount(Magnitude(d), d.scale + 1, 39);
  }

  lemma TextIsPlain(d: Dec)
    ensures var ds := DigitsOf(d);
            var p := |ds| - d.scale;
            Plain(ds[..p], ds[p..]) && Both(ds[..p], ds[p..]) == ds && |ds[p..]| == d.scale
  {
    var ds := DigitsOf(d);
    assert ds[..|ds| - d.scale] + ds[|ds| - d.scale..] == ds;
  }

  /** Digits beyond those asked for do not begin with a zero. */
  lemma {:induction false} DigitsStart(n: nat, k: nat)
    ensures |Digits(n, k)| > k ==> Digits(n, k)[0] != ZERO
    decreases n + k
  {
    if n > 0 || k > 0 { DigitsStart(n / 10, Less1(k)); }
  }

  /** The text printed is the one canonical text of a decimal: a minus sign for a negative mantissa only, no
      superfluous zero in front, and after the point, if the scale is not zero, exactly as many digits as the
      scale says. */
  lemma TextIsCanonical(d: Dec)
    ensures exists whole, frac ::
              && TextOf(d)
                 == (if d.mantissa < 0 then [MINUS] else []) + whole + (if frac == [] then [] else [POINT] + frac)
              && IsCanonical(d, whole, frac)
  {
    var ds := DigitsOf(d);
    var whole, frac := ds[..|ds| - d.scale], ds[|ds| - d.scale..];
    DigitsStart(Magnitude(d), d.scale + 1);
    DigitsValue(Magnitude(d), d.scale + 1);
    assert whole + frac == ds;
    assert IsCanonical(d, whole, frac);
  }

  predicate IsCanonical(d: Dec, whole: seq<byte>, frac: seq<byte>) {
    && AllDigits(whole + frac) && Value(whole + frac) == Magnitude(d) && |frac| == d.scale
    && |whole| >= 1 && (|whole| > 1 ==> whole[0] != ZERO)
  }

  /** Parsing what was printed gives back the mantissa and the scale exactly when the scale is one the
      parser accepts and the mantissa has a positive counterpart. */
  lemma TextRoundTrip(d: Dec)
    requires Legal(d)
    ensures Parse(TextOf(d)) == Ok(d) <==> d.scale <= MAX_PARSE_SCALE && d.mantissa != I128_MIN
    ensures d.scale <= MAX_PARSE_SCALE && d.mantissa == I128_MIN ==> Parse(TextOf(d)) == Err(Overflow)
  {
    ParsesPrinted(d);
  }

  /** What a printed text parses to. */
  lemma ParsesPrinted(d: Dec)
    ensures Parse(TextOf(d)).Ok? ==> d.scale <= MAX_PARSE_SCALE
    ensures d.scale <= MAX_PARSE_SCALE ==>
              Parse(TextOf(d)) == if Magnitude(d) > I128_MAX then Err(Overflow) else Ok(d)
  {
    var ds := DigitsOf(d);
    var whole, frac := ds[..|ds| - d.scale], ds[|ds| - d.scale..];
    TextIsPlain(d);
    DigitsValue(Magnitude(d), d.scale + 1);
    ParsesText(d.mantissa < 0, whole, frac);
    if d.scale <= MAX_PARSE_SCALE {
      DigitsSeenAll(whole, frac);
    }
  }

  /** The one mantissa that prints but does not parse back. */
  lemma LeastMantissaIsLost()
    ensures Parse(TextOf(Dec(I128_MIN, 0))) == Err(Overflow)
  {
    TextRoundTrip(Dec(I128_MIN, 0));
  }

  // ---------------------------------------------------------------- writing into a buffer

  function Reversed(s: seq<byte>): (r: seq<byte>)
    ensures |r| == |s|
    ensures forall i :: 0 <= i < |s| ==> r[i] == s[|s| - 1 - i]
  {
    if s == [] then [] else [s[|s| - 1]] + Reversed(s[..|s| - 1])
  }

  lemma ReversedMore(a: seq<byte>, s: seq<byte>, b: byte)
    ensures (a + [b]) + Reversed(s) == a + Reversed(s + [b])
  {
    assert (s + [b])[..|s|] == s;
  }

  /** Digits come out least significant first. */
  method ReverseDigits(n: nat, least: nat, rev: array<byte>) returns (len: nat)
    requires |Digits(n, least)| <= rev.Length
    modifies rev
    ensures len <= rev.Length && Reversed(rev[..len]) == Digits(n, least)
  {
    var rest := n;
    len := 0;
    ghost var k := least;
    while rest > 0 || len < least
      invariant k == if len < least then least - len else 0
      invariant len <= rev.Length && Digits(n, least) == Digits(rest, k) + Reversed(rev[..len])
      decreases rest + k
    {
      label Before:
      ghost var more := Digits(rest / 10, Less1(k));
      ReversedMore(more, rev[..len], ZERO + rest % 10);
      assert |more| + 1 + len == |Digits(n, least)|;
      rev[len] := ZERO + rest % 10;
      assert rev[..len + 1] == old@Before(rev[..len]) + [ZERO + rest % 10];
      rest := rest / 10;
      len := len + 1;
      k := Less1(k);
    }
  }

  method PushByte(buf: array<byte>, pos: nat, b: byte) returns (r: Result<nat, FixedError>)
    requires pos <= buf.Length
    modifies buf
    ensures r == if pos < buf.Length then Ok(pos + 1) else Err(BufferTooSmall)
    ensures r.Ok? ==> buf[..pos + 1] == old(buf[..pos]) + [b] && TailKept(buf, pos + 1)
  {
    if pos >= buf.Length {
      return Err(BufferTooSmall);
    }
    buf[pos] := b;
    return Ok(pos + 1);
  }

  /** The first `i` digits of `ds`, with a point before digit `p` if there is one. */
  function Laid(sign: seq<byte>, ds: seq<byte>, p: nat, scale: nat, i: nat): seq<byte>
    requires p <= |ds| && i <= |ds|
  {
    sign + if scale == 0 || i <= p then ds[..i] else ds[..p] + [POINT] + ds[p..i]
  }

  lemma LaidStep(sign: seq<byte>, ds: seq<byte>, p: nat, scale: nat, i: nat)
    requires p <= |ds| && i < |ds|
    ensures Laid(sign, ds, p, scale, i + 1)
         == Laid(sign, ds, p, scale, i) + (if i == p && scale > 0 then [POINT, ds[i]] else [ds[i]])
  {
    if scale > 0 && i >= p {
      assert ds[p..i + 1] == ds[p..i] + [ds[i]];
      if i == p { assert ds[..p] + [POINT] + ds[p..i + 1] == ds[..i] + [POINT, ds[i]]; }
    }
  }

  lemma {:induction false} LaidGrows(sign: seq<byte>, ds: seq<byte>, p: nat, scale: nat, i: nat, j: nat)
    requires p <= |ds| && i <= j <= |ds|
    ensures |Laid(sign, ds, p, scale, i)| <= |Laid(sign, ds, p, scale, j)|
    decreases j
  {
    if i < j {
      LaidGrows(sign, ds, p, scale, i, j - 1);
      LaidStep(sign, ds, p, scale, j - 1);
    }
  }

  function Sign(d: Dec): seq<byte> {
    if d.mantissa < 0 then [MINUS] else []
  }

  lemma LaidInFull(d: Dec)
    ensures var ds := DigitsOf(d);
            Laid(Sign(d), ds, |ds| - d.scale, d.scale, |ds|) == TextOf(d) && |Sign(d)| <= |TextOf(d)|
  {
    var ds := DigitsOf(d);
    var p := |ds| - d.scale;
    assert ds[..|ds|] == ds;
    if d.scale > 0 {
      assert Sign(d) + (ds[..p] + [POINT] + ds[p..]) == Sign(d) + ds[..p] + ([POINT] + ds[p..]);
    } else {
      assert ds[p..] == [] && ds[..p] == ds;
    }
  }

  /** One digit, after the point if it is the first of the decimals. */
  method PushDigit(buf: array<byte>, pos: nat, b: byte, pointFirst: bool) returns (r: Result<nat, FixedError>)
    requires pos <= buf.Length
    modifies buf
    ensures var bytes := if pointFirst then [POINT, b] else [b];
            && r == (if pos + |bytes| <= buf.Length then Ok(pos + |bytes|) else Err(BufferTooSmall))
            && (r.Ok? ==> buf[..pos + |bytes|] == old(buf[..pos]) + bytes && TailKept(buf, pos + |bytes|))
  {
    var at := pos;
    if pointFirst {
      var pushed := PushByte(buf, at, POINT);
      if pushed.Err? {
        return pushed;
      }
      at := pushed.value;
    }
    r := PushByte(buf, at, b);
  }

  /** The digits in `rev`, least significant first, laid out after the sign already in the buffer. */
  method LayOut(rev: array<byte>, len: nat, scale: nat, ghost sign: seq<byte>, buf: array<byte>, start: nat)
    returns (r: Result<nat, FixedError>)
    requires rev != buf && scale < len <= rev.Length && start == |sign| <= buf.Length && buf[..start] == sign
    modifies buf
    ensures var all := Laid(sign, Reversed(old(rev[..len])), len - scale, scale, len);
            && r == (if |all| <= buf.Length then Ok(|all|) else Err(BufferTooSmall))
            && (r.Ok? ==> buf[..|all|] == all && TailKept(buf, |all|))
  {
    ghost var ds := Reversed(rev[..len]);
    var point := len - scale;
    var pos := start;
    var i := 0;
    while i < len
      invariant i <= len && pos <= buf.Length && pos == |Laid(sign, ds, point, scale, i)|
      invariant buf[..pos] == Laid(sign, ds, point, scale, i) && TailKept(buf, pos)
    {
      LaidStep(sign, ds, point, scale, i);
      LaidGrows(sign, ds, point, scale, i + 1, len);
      assert rev[len - 1 - i] == ds[i];
      r := PushDigit(buf, pos, rev[len - 1 - i], i == point && scale > 0);
      if r.Err? { return; }
      pos := r.value;
      i := i + 1;
    }
    return Ok(pos);
  }

  method PushSign(d: Dec, buf: array<byte>) returns (r: Result<nat, FixedError>)
    modifies buf
    ensures r == if |Sign(d)| <= buf.Length then Ok(|Sign(d)|) else Err(BufferTooSmall)
    ensures r.Ok? ==> buf[..|Sign(d)|] == Sign(d) && TailKept(buf, |Sign(d)|)
  {
    r := Ok(0);
    if d.mantissa < 0 {
      r := PushByte(buf, 0, MINUS);
    }
  }

  /** `write_to`: the text at the front of the buffer and the rest of it left alone, or, exactly when
      the text does not fit, `BufferTooSmall`. */
  method WriteTo(d: Dec, buf: array<byte>) returns (r: Result<nat, FixedError>)
    requires Legal(d)
    modifies buf
    ensures r == if |TextOf(d)| <= buf.Length then Ok(|TextOf(d)|) else Err(BufferTooSmall)
    ensures r.Ok? ==> buf[..|TextOf(d)|] == TextOf(d) && TailKept(buf, |TextOf(d)|)
  {
    TextFits(d);
    LaidInFull(d);
    var rev := new byte[MAX_TEXT_LEN];
    var len := ReverseDigits(Magnitude(d), d.scale + 1, rev);
    r := PushSign(d, buf);
    if r.Err? { return; }
    r := LayOut(rev, len, d.scale, Sign(d), buf, r.value);
  }
}
