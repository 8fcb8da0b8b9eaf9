/** MY_ALIGN of my_global.h on a `width`-bit unsigned type, and the rounding by division that
    skip_trailing_space of m_string.h uses for the same purpose. */
module Align {
  import opened Bits

  /** ((A) + (L) - 1) & ~((L) - 1), with wrap-around. */
  function MyAlign(a: nat, l: nat, width: nat): nat
    requires 0 < l <= Pow2(width) && a < Pow2(width)
  {
    And(Unsigned(a + l - 1, width), Not(l - 1, width))
  }

  function RoundDown(a: nat, l: nat): nat
    requires l > 0
  {
    a / l * l
  }

  function RoundUp(a: nat, l: nat): nat
    requires l > 0
  {
    (a + l - 1) / l * l
  }

  ghost predicate LeastMultipleAbove(r: nat, a: nat, l: nat)
    requires l > 0
  {
    && r % l == 0 && r >= a
    && forall s: nat :: s % l == 0 && s >= a ==> r <= s
  }

  lemma MultiplesApart(s: nat, r: nat, l: nat)
    requires l > 0 && s % l == 0 && r % l == 0 && s < r
    ensures s + l <= r
  {
    assert s == l * (s / l) && r == l * (r / l);
    MulSign(l, r / l - s / l);
  }

  lemma RoundDownMod(a: nat, l: nat)
    requires l > 0
    ensures RoundDown(a, l) == a - a % l && RoundDown(a, l) % l == 0
  {
    assert a == l * (a / l) + a % l;
    ModUnique(a / l * l, l, a / l, 0);
  }

  /** Rounding up by division gives the least multiple that is not below. */
  lemma RoundUpLeast(a: nat, l: nat)
    requires l > 0
    ensures LeastMultipleAbove(RoundUp(a, l), a, l)
  {
    var r := RoundUp(a, l);
    RoundDownMod(a + l - 1, l);
    forall s: nat | s % l == 0 && s >= a ensures r <= s {
      if s < r { MultiplesApart(s, r, l); }
    }
  }

  lemma MaskIsRounding(a: nat, k: nat, width: nat)
    requires k <= width && a < Pow2(width)
    ensures Pow2(k) <= Pow2(width)
    ensures MyAlign(a, Pow2(k), width) == RoundDown(Unsigned(a + Pow2(k) - 1, width), Pow2(k))
  {
    Pow2Monotone(k, width);
    var x := Unsigned(a + Pow2(k) - 1, width);
    AndHighMask(x, k, width);
    ClearLowIsRounding(x, k);
  }

  /** For every power of two the mask trick is the division form and gives the least multiple of
      L not below A, if and only if A + L - 1 does not overflow; otherwise it gives 0. */
  lemma MyAlignExactly(a: nat, k: nat, width: nat)
    requires k <= width && a < Pow2(width)
    ensures Pow2(k) <= Pow2(width)
    ensures var l, r := Pow2(k), MyAlign(a, Pow2(k), width);
            && (LeastMultipleAbove(r, a, l) <==> a + l - 1 < Pow2(width))
            && (a + l - 1 < Pow2(width) ==> r == RoundUp(a, l))
            && (a + l - 1 >= Pow2(width) ==> r == 0)
  {
    MaskIsRounding(a, k, width);
    WrappedRounding(a, Pow2(k), Pow2(width));
    if a + Pow2(k) - 1 < Pow2(width) { RoundUpLeast(a, Pow2(k)); }
  }

  lemma WrappedRounding(a: nat, l: nat, m: nat)
    requires 0 < l <= m && a < m
    ensures RoundDown((a + l - 1) % m, l) == if a + l - 1 < m then RoundUp(a, l) else 0
    ensures a + l - 1 >= m ==> a > 0
  {
    if a + l - 1 < m {
      ModUnique(a + l - 1, m, 0, a + l - 1);
    } else {
      ModUnique(a + l - 1, m, 1, a + l - 1 - m);
      ModUnique(a + l - 1 - m, l, 0, a + l - 1 - m);
    }
  }
}
