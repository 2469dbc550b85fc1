/** Powers of two, and division by a divisor that is not a constant. */
module Arithmetic {

  function Pow2(n: nat): (p: nat)
    ensures p > 0
  {
    if n == 0 then 1 else 2 * Pow2(n - 1)
  }

  lemma Pow2Byte(n: nat)
    ensures Pow2(n + 8) == 0x100 * Pow2(n)
  {
    assert Pow2(n + 2) == 4 * Pow2(n);
    assert Pow2(n + 4) == 4 * Pow2(n + 2);
    assert Pow2(n + 6) == 4 * Pow2(n + 4);
  }

  lemma {:induction false} Pow2Sum(a: nat, b: nat)
    ensures Pow2(a + b) == Pow2(a) * Pow2(b)
  {
    if a > 0 {
      Pow2Sum(a - 1, b);
      assert Pow2(a + b) == 2 * (Pow2(a - 1) * Pow2(b));
    }
  }

  lemma Pow2Word()
    ensures Pow2(32) == 0x1_0000_0000
  {
    Pow2Byte(0);
    Pow2Byte(8);
    Pow2Byte(16);
    Pow2Byte(24);
  }

  lemma {:induction false} Pow2Grows(a: nat, b: nat)
    requires a < b
    ensures Pow2(a) < Pow2(b)
  {
    if a + 1 < b {
      Pow2Grows(a, b - 1);
    }
  }

  /** A power of two up to 2^32 divides it. */
  lemma Pow2DividesWord(n: nat) returns (k: nat)
    requires Pow2(n) <= 0x1_0000_0000
    ensures k * Pow2(n) == 0x1_0000_0000
  {
    Pow2Word();
    if n > 32 {
      Pow2Grows(32, n);
    } else {
      Pow2Sum(32 - n, n);
      k := Pow2(32 - n);
    }
  }

  /** A smaller multiple of d is smaller by d at least. */
  lemma NextMultiple(q: nat, k: nat, d: nat)
    requires q * d < k * d
    ensures q * d + d <= k * d
  {
    assert (k - q) * d == k * d - q * d;
    Multiples(k - q, d);
  }

  lemma DivMod(x: nat, d: nat, q: nat, r: nat)
    requires d > 0 && r < d && x == q * d + r
    ensures x / d == q && x % d == r
  {
    var k := x / d - q;
    assert k * d == r - x % d;
    Multiples(k, d);
  }

  lemma Multiples(k: int, d: int)
    requires d >= 0
    ensures k >= 1 ==> k * d >= d
    ensures k <= -1 ==> k * d <= -d
  {
    if k >= 1 {
      assert (k - 1) * d >= 0;
    } else if k <= -1 {
      assert (-1 - k) * d >= 0;
    }
  }

  /** x / d and x % d, by repeated subtraction. */
  function Quotient(x: nat, d: nat): nat
    requires d > 0
  {
    if x < d then 0 else 1 + Quotient(x - d, d)
  }

  function Remainder(x: nat, d: nat): (r: nat)
    requires d > 0
    ensures r < d
  {
    if x < d then x else Remainder(x - d, d)
  }

  lemma {:induction false} QuotientIsDivision(x: nat, d: nat)
    requires d > 0
    ensures Quotient(x, d) == x / d && Remainder(x, d) == x % d
  {
    if x < d {
      DivMod(x, d, 0, x);
    } else {
      QuotientIsDivision(x - d, d);
      DivMod(x, d, (x - d) / d + 1, (x - d) % d);
    }
  }

  /** Only the pair determines the number. */
  lemma {:induction false} PairDetermines(x: nat, y: nat, d: nat)
    requires d > 0 && Quotient(x, d) == Quotient(y, d) && Remainder(x, d) == Remainder(y, d)
    ensures x == y
  {
    if x >= d && y >= d {
      PairDetermines(x - d, y - d, d);
    }
  }

  lemma {:induction false} QuotientMonotone(x: nat, y: nat, d: nat)
    requires d > 0 && x <= y
    ensures Quotient(x, d) <= Quotient(y, d)
  {
    if x >= d {
      QuotientMonotone(x - d, y - d, d);
    }
  }
}
