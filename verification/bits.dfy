/** Bitwise operators of C on unsigned integers, as natural numbers, and two's complement. */
module Bits {

  function Pow2(n: nat): (p: nat)
    ensures p > 0
  {
    if n == 0 then 1 else 2 * Pow2(n - 1)
  }

  function And(a: nat, b: nat): nat
    decreases a
  {
    if a == 0 then 0 else (if a % 2 == 1 && b % 2 == 1 then 1 else 0) + 2 * And(a / 2, b / 2)
  }

  function Or(a: nat, b: nat): nat
    decreases a + b
  {
    if a == 0 && b == 0 then 0
    else (if a % 2 == 1 || b % 2 == 1 then 1 else 0) + 2 * Or(a / 2, b / 2)
  }

  /** ~a on `width` bits. */
  function Not(a: nat, width: nat): nat
    requires a < Pow2(width)
  {
    Pow2(width) - 1 - a
  }

  /** The value of `bits` low-order bits of v, unsigned and two's-complement signed. */
  function Unsigned(v: int, bits: nat): nat { v % Pow2(bits) }

  function Signed(v: int, bits: nat): int
    requires bits > 0
  {
    var u := Unsigned(v, bits);
    if u < Pow2(bits - 1) then u else u - Pow2(bits)
  }

  lemma {:induction false} Pow2Sum(a: nat, b: nat)
    ensures Pow2(a + b) == Pow2(a) * Pow2(b)
  {
    if a > 0 { Pow2Sum(a - 1, b); }
  }

  lemma Pow2Table()
    ensures Pow2(7) == 0x80 && Pow2(8) == 0x100 && Pow2(15) == 0x8000 && Pow2(16) == 0x1_0000
    ensures Pow2(23) == 0x80_0000 && Pow2(24) == 0x100_0000
    ensures Pow2(31) == 0x8000_0000 && Pow2(32) == 0x1_0000_0000
    ensures Pow2(64) == 0x1_0000_0000_0000_0000
  {
    assert Pow2(7) == 0x80;
    assert Pow2(15) == 0x8000 by { Pow2Sum(8, 7); }
    assert Pow2(23) == 0x80_0000 by { Pow2Sum(16, 7); }
    assert Pow2(31) == 0x8000_0000 by { Pow2Sum(16, 15); }
    assert Pow2(64) == 0x1_0000_0000_0000_0000 by { Pow2Sum(32, 32); }
  }

  lemma {:induction false} Pow2Monotone(a: nat, b: nat)
    requires a <= b
    ensures Pow2(a) <= Pow2(b)
  {
    if a < b { Pow2Monotone(a, b - 1); }
  }

  lemma {:induction false} AndOnes(x: nat, width: nat)
    requires x < Pow2(width)
    ensures And(x, Pow2(width) - 1) == x
  {
    if x != 0 {
      AndOnes(x / 2, width - 1);
      assert (Pow2(width) - 1) / 2 == Pow2(width - 1) - 1;
    }
  }

  /** x with its k low-order bits cleared. */
  function ClearLow(x: nat, k: nat): nat {
    if k == 0 then x else 2 * ClearLow(x / 2, k - 1)
  }

  lemma {:induction false} ClearLowIsRounding(x: nat, k: nat)
    ensures ClearLow(x, k) == x / Pow2(k) * Pow2(k)
  {
    if k > 0 {
      var half, p := x / 2, Pow2(k - 1);
      ClearLowIsRounding(half, k - 1);
      HalfQuotient(x, p);
      DoubleProduct(half / p, p);
    }
  }

  lemma HalfQuotient(x: nat, p: nat)
    requires p > 0
    ensures x / (2 * p) == x / 2 / p
  {
    var q, r := x / 2 / p, x / 2 % p;
    assert (2 * p) * q == 2 * (p * q) by { DoubleProduct(q, p); }
    ModUnique(x, 2 * p, q, 2 * r + x % 2);
  }

  lemma AndEven(x: nat, m: nat)
    ensures And(x, 2 * m) == 2 * And(x / 2, m)
  {
    assert 2 * m / 2 == m;
  }

  /** Masking with all bits but the k lowest. */
  lemma {:induction false} AndHighMask(x: nat, k: nat, width: nat)
    requires k <= width && x < Pow2(width)
    ensures Pow2(k) <= Pow2(width)
    ensures And(x, Pow2(width) - Pow2(k)) == ClearLow(x, k)
    decreases k
  {
    Pow2Monotone(k, width);
    if k == 0 {
      AndOnes(x, width);
    } else {
      AndHighMask(x / 2, k - 1, width - 1);
      AndEven(x, Pow2(width - 1) - Pow2(k - 1));
    }
  }

  lemma ModUnique(x: int, m: nat, q: int, r: int)
    requires m > 0 && x == m * q + r && 0 <= r < m
    ensures x % m == r && x / m == q
  {
    var d := x / m - q;
    assert m * d == r - x % m;
    MulSign(m, d);
  }

  lemma MulSign(m: int, d: int)
    requires m > 0
    ensures d >= 1 ==> m * d >= m
    ensures d <= -1 ==> m * d <= -m
  {}

  lemma OrEven(h: nat, lo: nat)
    ensures Or(2 * h, lo) == lo % 2 + 2 * Or(h, lo / 2)
  {
    assert 2 * h / 2 == h && 2 * h % 2 == 0;
  }

  /** The bitwise or of two numbers without a common bit is their sum. */
  lemma {:induction false} OrDisjoint(hi: nat, lo: nat, k: nat)
    requires lo < Pow2(k)
    ensures Or(hi * Pow2(k), lo) == hi * Pow2(k) + lo
  {
    if k == 0 {
      OrZero(hi);
    } else {
      var h := hi * Pow2(k - 1);
      OrDisjoint(hi, lo / 2, k - 1);
      OrEven(h, lo);
      assert hi * Pow2(k) == 2 * h by { DoubleProduct(hi, Pow2(k - 1)); }
    }
  }

  lemma DoubleProduct(a: nat, b: nat)
    ensures a * (2 * b) == 2 * (a * b)
  {}

  lemma {:induction false} OrZero(a: nat)
    ensures Or(a, 0) == a
  {
    if a != 0 { OrZero(a / 2); }
  }
}
