/** Comparing decimals of different scales (crates/bowst-core/src/fixed.rs:304-331). */
module FixedOrder {
  import opened Common
  import opened FixedDecs

  datatype Ordering = Less | Equal | Greater

  function CompareInts(a: int, b: int): Ordering {
    if a < b then Less else if a == b then Equal else Greater
  }

  /** `i128::saturating_mul`. */
  function SatMul(a: int, b: int): i128 {
    if a * b > I128_MAX then I128_MAX else if a * b < I128_MIN then I128_MIN else a * b
  }

  /** The integer part, rounded down, and the fractional mantissa at the value's own scale. */
  function Split(d: Dec): (int, int) {
    (d.mantissa / Pow10(d.scale), d.mantissa % Pow10(d.scale))
  }

  /** `Dec::cmp`. */
  function Compare(a: Dec, b: Dec): Ordering {
    if a.scale == b.scale then CompareInts(a.mantissa, b.mantissa)
    else
      var ints := CompareInts(Split(a).0, Split(b).0);
      if ints != Equal then ints
      else
        var common := if a.scale > b.scale then a.scale else b.scale;
        CompareInts(SatMul(Split(a).1, Pow10(common - a.scale)), SatMul(Split(b).1, Pow10(common - b.scale)))
  }

  /** The value of a decimal, as a numerator over `10^MAX_SCALE`. */
  function Num(d: Dec): int
    requires Legal(d)
  {
    d.mantissa * Pow10(MAX_SCALE - d.scale)
  }

  lemma MulAssoc(a: int, b: int, c: int)
    ensures (a * b) * c == a * (b * c)
  {
  }

  lemma MulLess(a: int, b: int, k: int)
    requires k > 0
    ensures a < b <==> a * k < b * k
    ensures a == b <==> a * k == b * k
  {
    if a < b { assert b * k == a * k + (b - a) * k; assert (b - a) * k > 0; }
    if a > b { assert a * k == b * k + (a - b) * k; assert (a - b) * k > 0; }
  }

  lemma ScaledOrder(a: int, b: int, k: int)
    requires k > 0
    ensures CompareInts(a * k, b * k) == CompareInts(a, b)
  {
    MulLess(a, b, k);
  }

  /** Numbers written as a multiple of `k` and a remainder compare by the multiple first. */
  lemma MultipleFirst(q1: int, r1: int, q2: int, r2: int, k: int)
    requires 0 <= r1 < k && 0 <= r2 < k
    ensures CompareInts(q1 * k + r1, q2 * k + r2) == if q1 != q2 then CompareInts(q1, q2) else CompareInts(r1, r2)
  {
    if q1 < q2 {
      MulAtMost(q1 + 1, q2, k);
    } else if q1 > q2 {
      MulAtMost(q2 + 1, q1, k);
    }
  }

  lemma MulAtMost(a: int, b: int, k: int)
    requires a <= b && k >= 0
    ensures a * k <= b * k && (a - 1) * k == a * k - k
  {
    assert (b - a) * k >= 0;
    assert b * k == a * k + (b - a) * k;
  }

  /** The fraction of a decimal, as a numerator over `10^scale`. */
  function Fraction(d: Dec, scale: nat): int
    requires d.scale <= scale
  {
    Split(d).1 * Pow10(scale - d.scale)
  }

  lemma BelowUnit(f: nat, p: nat, k: nat)
    requires f < p && k > 0
    ensures 0 <= f * k < p * k
  {
    MulLess(f, p, k);
  }

  /** The fraction, rescaled, is below one, so nothing saturates. */
  lemma FractionFits(d: Dec, scale: nat)
    requires d.scale <= scale <= MAX_SCALE
    ensures 0 <= Fraction(d, scale) < Pow10(scale) <= Pow10(MAX_SCALE) <= I128_MAX
  {
    Pow10Sum(d.scale, scale - d.scale);
    BelowUnit(Split(d).1, Pow10(d.scale), Pow10(scale - d.scale));
    Pow10Grows(scale, MAX_SCALE);
    Pow10Values();
  }

  lemma NeverSaturates(d: Dec, scale: nat)
    requires d.scale <= scale <= MAX_SCALE
    ensures SatMul(Split(d).1, Pow10(scale - d.scale)) == Fraction(d, scale)
  {
    FractionFits(d, scale);
  }

  lemma Recompose(m: int, p: nat, k: nat)
    requires p > 0
    ensures m * k == (m / p) * (p * k) + (m % p) * k
  {
    assert m == (m / p) * p + m % p;
    assert m * k == ((m / p) * p) * k + (m % p) * k;
    MulAssoc(m / p, p, k);
  }

  /** The value is its integer part and its fraction. */
  lemma NumSplit(d: Dec)
    requires Legal(d)
    ensures Num(d) == Split(d).0 * Pow10(MAX_SCALE) + Fraction(d, MAX_SCALE)
  {
    Pow10Sum(d.scale, MAX_SCALE - d.scale);
    Recompose(d.mantissa, Pow10(d.scale), Pow10(MAX_SCALE - d.scale));
  }

  lemma Rescaled(d: Dec, common: nat)
    requires d.scale <= common <= MAX_SCALE
    ensures Fraction(d, MAX_SCALE) == Fraction(d, common) * Pow10(MAX_SCALE - common)
  {
    Pow10Sum(common - d.scale, MAX_SCALE - common);
    MulAssoc(Split(d).1, Pow10(common - d.scale), Pow10(MAX_SCALE - common));
  }

  /** Fractions compare the same at any common scale. */
  lemma FractionsCompare(a: Dec, b: Dec, common: nat)
    requires a.scale <= common <= MAX_SCALE && b.scale <= common
    ensures CompareInts(Fraction(a, common), Fraction(b, common))
            == CompareInts(Fraction(a, MAX_SCALE), Fraction(b, MAX_SCALE))
  {
    Rescaled(a, common);
    Rescaled(b, common);
    ScaledOrder(Fraction(a, common), Fraction(b, common), Pow10(MAX_SCALE - common));
  }

  lemma NumOrder(a: Dec, b: Dec)
    requires Legal(a) && Legal(b)
    ensures CompareInts(Num(a), Num(b))
         == if Split(a).0 != Split(b).0 then CompareInts(Split(a).0, Split(b).0)
            else CompareInts(Fraction(a, MAX_SCALE), Fraction(b, MAX_SCALE))
  {
    FractionFits(a, MAX_SCALE);
    FractionFits(b, MAX_SCALE);
    NumSplit(a);
    NumSplit(b);
    MultipleFirst(Split(a).0, Fraction(a, MAX_SCALE), Split(b).0, Fraction(b, MAX_SCALE), Pow10(MAX_SCALE));
  }

  /** `Dec::cmp` is the order of the numbers, across all scales: 1.0 and 1.00 are equal. */
  lemma CompareIsNumeric(a: Dec, b: Dec)
    requires Legal(a) && Legal(b)
    ensures Compare(a, b) == CompareInts(Num(a), Num(b))
  {
    if a.scale == b.scale {
      ScaledOrder(a.mantissa, b.mantissa, Pow10(MAX_SCALE - a.scale));
    } else {
      var common := if a.scale > b.scale then a.scale else b.scale;
      NeverSaturates(a, common);
      NeverSaturates(b, common);
      FractionsCompare(a, b, common);
      NumOrder(a, b);
    }
  }
}
