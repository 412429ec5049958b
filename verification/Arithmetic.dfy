/** Nonlinear facts shared by the numeral and delay proofs. */
module Arithmetic {
  lemma ProductNonNegative(x: nat, y: nat)
    ensures x * y >= 0
  {
  }

  lemma ProductLess(x: nat, y: nat, p: nat)
    requires x < y
    ensures x * p + p <= y * p
  {
    ProductNonNegative(y - x - 1, p);
    assert (y - x - 1) * p == y * p - x * p - p;
  }

  lemma ProductBound(x: nat, y: nat, xMax: nat, yMax: nat)
    requires x <= xMax && y <= yMax
    ensures x * y <= xMax * yMax
  {
    assert x * y <= xMax * y;
    assert xMax * y <= xMax * yMax;
  }

  lemma NonzeroMultiple(d: int, m: nat)
    requires d != 0
    ensures d * m >= m || d * m + m <= 0
  {
    if d > 0 {
      ProductNonNegative(d - 1, m);
      assert (d - 1) * m == d * m - m;
    } else {
      ProductNonNegative(-d - 1, m);
      assert (-d - 1) * m == -(d * m) - m;
    }
  }

  /** Quotient and remainder are determined. */
  lemma Division(x: nat, m: nat, q: nat, r: nat)
    requires x == q * m + r && r < m
    ensures x / m == q && x % m == r
  {
    var d := x / m - q;
    assert x == x / m * m + x % m;
    assert d * m == r - x % m;
    if d != 0 {
      NonzeroMultiple(d, m);
    }
  }

  function Pow2(n: nat): nat {
    if n == 0 then 1 else 2 * Pow2(n - 1)
  }

  lemma {:induction false} Pow2Sum(m: nat, n: nat)
    ensures Pow2(m + n) == Pow2(m) * Pow2(n)
  {
    if n > 0 { Pow2Sum(m, n - 1); }
  }

  lemma {:induction false} Pow2Positive(n: nat)
    ensures Pow2(n) > 0
  {
    if n > 0 { Pow2Positive(n - 1); }
  }

  lemma {:induction false} Pow2Grows(m: nat, n: nat)
    requires m <= n
    ensures Pow2(m) <= Pow2(n)
    decreases n - m
  {
    if m < n { Pow2Grows(m + 1, n); }
  }

  /** Powers of two that bound machine words. */
  lemma WordPowers()
    ensures Pow2(7) == 128
    ensures Pow2(64) == 0x1_0000_0000_0000_0000 && Pow2(65) == 0x2_0000_0000_0000_0000
    ensures Pow2(128) == 0x1_0000_0000_0000_0000_0000_0000_0000_0000
  {
    assert Pow2(4) == 16 && Pow2(7) == 128;
    Pow2Sum(4, 4);
    Pow2Sum(8, 8);
    Pow2Sum(16, 16);
    Pow2Sum(32, 32);
    Pow2Sum(64, 64);
    assert Pow2(65) == 2 * Pow2(64);
  }
}
