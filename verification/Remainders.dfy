/** Remainders, as the rings use them for wrapping positions and slot indices. */
module Remainders {
  import opened Common

  function Pow2(k: nat): (r: nat)
    ensures r > 0
  {
    if k == 0 then 1 else 2 * Pow2(k - 1)
  }

  /** `is_power_of_two`. */
  ghost predicate PowerOfTwo(n: int) {
    exists k: nat :: n == Pow2(k)
  }

  lemma {:induction false} Pow2Sum(a: nat, b: nat)
    ensures Pow2(a + b) == Pow2(a) * Pow2(b)
  {
    if a > 0 {
      Pow2Sum(a - 1, b);
      assert Pow2(a) * Pow2(b) == 2 * (Pow2(a - 1) * Pow2(b));
    }
  }

  lemma {:induction false} Pow2Grows(a: nat, b: nat)
    requires a < b
    ensures Pow2(a) < Pow2(b)
  {
    Pow2Sum(b - a, a);
    assert Pow2(b - a) == 2 * Pow2(b - a - 1);
    assert Pow2(b - a) * Pow2(a) >= 2 * Pow2(a);
  }

  /** A power of two divides every larger one. */
  lemma Pow2Divides(n: int, k: nat)
    requires PowerOfTwo(n) && 0 < n <= Pow2(k)
    ensures Pow2(k) % n == 0
  {
    var j: nat :| n == Pow2(j);
    if j > k { Pow2Grows(k, j); }
    Pow2Sum(j, k - j);
    AddMultiple(0, Pow2(k - j), n);
  }

  /** A power of two is a multiple of every smaller one. */
  lemma Pow2Multiple(n: int, k: nat)
    requires PowerOfTwo(n) && Pow2(k) <= n
    ensures n % Pow2(k) == 0
  {
    var j: nat :| n == Pow2(j);
    if j < k { Pow2Grows(j, k); }
    Pow2Sum(k, j - k);
    AddMultiple(0, Pow2(j - k), Pow2(k));
  }

  lemma HalfWordIsPow2()
    ensures Pow2(8) == 256 && Pow2(16) == 0x1_0000 && Pow2(32) == 0x1_0000_0000
  {
    assert Pow2(8) == 256 by { assert Pow2(4) == 16; }
    Pow2Sum(8, 8);
    Pow2Sum(16, 16);
  }

  lemma WordIsPow2()
    ensures Pow2(64) == TWO_64
  {
    HalfWordIsPow2();
    Pow2Sum(32, 32);
  }

  lemma MulMono(a: nat, b: nat, k: nat)
    requires a <= b
    ensures a * k <= b * k
  {
  }

  lemma Multiple(m: int, k: int)
    requires 0 < m
    ensures k >= 1 ==> m * k >= m
    ensures k <= -1 ==> m * k <= -m
  {
  }

  /** Numbers less than `m` apart have different remainders. */
  lemma Apart(a: int, b: int, m: int)
    requires 0 < m && a < b < a + m
    ensures a % m != b % m
  {
    if a % m == b % m {
      var k := b / m - a / m;
      assert b - a == m * k by {
        assert a == m * (a / m) + a % m && b == m * (b / m) + b % m;
      }
      Multiple(m, k);
    }
  }

  /** Masking a wrapped position gives the index of the unwrapped one, when `m` divides the word. */
  lemma Wrapped(p: int, word: int, m: int)
    requires 0 < m && 0 < word && word % m == 0
    ensures (p % word) % m == p % m
  {
    var k := word / m;
    assert word == m * k;
    var a, r := p / word, p % word;
    assert p == word * a + r;
    assert p == m * (k * a) + r by { assert word * a == m * (k * a); }
    AddMultiple(r, k * a, m);
  }

  lemma AddMultiple(r: int, k: int, m: int)
    requires 0 < m
    ensures (m * k + r) % m == r % m
  {
    var x := m * k + r;
    var d := x / m - r / m - k;
    assert x % m - r % m == -(m * d) by {
      assert x == m * (x / m) + x % m && r == m * (r / m) + r % m;
      assert m * d == m * (x / m) - m * (r / m) - m * k;
    }
    Multiple(m, d);
  }

  /** A wrapping difference of positions is the true difference while that is below the word. */
  lemma WrappedDifference(a: int, b: int, word: int)
    requires 0 < word && 0 <= a - b < word
    ensures (a % word - b % word) % word == a - b
  {
    var d := a % word - b % word;
    var k := b / word - a / word;
    assert d == word * k + (a - b) by {
      assert a == word * (a / word) + a % word && b == word * (b / word) + b % word;
      assert word * k == word * (b / word) - word * (a / word);
    }
    AddMultiple(a - b, k, word);
    Small(a - b, word);
  }

  lemma Small(a: int, m: int)
    requires 0 <= a < m
    ensures a % m == a
  {
  }

  /** Adding to a wrapped position wraps to the same place as adding to the position itself. */
  lemma Advance(a: int, k: int, m: int)
    requires 0 < m
    ensures (a % m + k) % m == (a + k) % m
  {
    assert a + k == m * (a / m) + (a % m + k);
    AddMultiple(a % m + k, a / m, m);
  }

  /** A ring's index of a wrapped position is the index of the position itself. */
  lemma WordWrapped(p: int, n: int)
    requires PowerOfTwo(n) && 0 < n <= TWO_64
    ensures (p % TWO_64) % n == p % n
  {
    WordIsPow2();
    Pow2Divides(n, 64);
    Wrapped(p, TWO_64, n);
  }
}
