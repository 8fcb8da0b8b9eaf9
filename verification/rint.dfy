/** rint of my_global.h: rounding a double to an integer, ties to even.

    A finite double is a real m * 2^e with |m| < 2^53 and -1074 <= e <= 971 (the binary64 format
    of IEEE 754-2008, section 3.4). The additions of the code are floating-point: `fl` is any
    rounding of exact results to doubles, of which only is known that it keeps doubles. */
module Rint {
  import opened Bits

  const MAX_EXACT_INTEGER: int := 0x20_0000_0000_0000 - 1

  function Value(m: int, e: int): real {
    if e >= 0 then (m * Pow2(e)) as real else m as real / Pow2(-e) as real
  }

  predicate Finite(m: int, e: int) {
    -MAX_EXACT_INTEGER <= m <= MAX_EXACT_INTEGER && -1074 <= e <= 971
  }

  ghost predicate IsDouble(x: real) { exists m, e :: Finite(m, e) && Value(m, e) == x }

  /** modf: the integral part, towards zero, and the rest. */
  function Trunc(x: real): int { if x >= 0.0 then x.Floor else -((-x).Floor) }

  /** C's remainder, with the sign of the dividend. */
  function CRem(a: int, b: nat): int
    requires b > 0
  {
    if a >= 0 then a % b else -(-a % b)
  }

  /** The value of (longlong) x; the cast is defined only in range. */
  function ToLongLong(x: real): int
    requires -0x8000_0000_0000_0000 as real <= x < 0x8000_0000_0000_0000 as real
  {
    Trunc(x)
  }

  function BoolToReal(b: bool): real { if b then 1.0 else 0.0 }

  ghost predicate RoundsExactly(fl: real -> real) { forall y :: IsDouble(y) ==> fl(y) == y }

  /** roundToIntegralTiesToEven, section 5.9 of IEEE 754-2008: the nearest integer, the even one
      of two. */
  predicate RoundsTo(x: real, n: int) {
    && -0.5 <= x - n as real <= 0.5
    && (x - n as real == 0.5 || x - n as real == -0.5 ==> n % 2 == 0)
  }

  predicate Small(x: real) { -0x10_0000_0000_0000 as real < x < 0x10_0000_0000_0000 as real }

  // ----- Doubles with a fraction are small -----

  lemma {:induction false} Pow2AtLeast(n: nat)
    requires n > 0
    ensures Pow2(n) >= 2
  {
    if n > 1 { Pow2AtLeast(n - 1); }
  }

  lemma DivideBound(m: int, p: int)
    requires -MAX_EXACT_INTEGER <= m <= MAX_EXACT_INTEGER && p >= 2
    ensures Small(m as real / p as real)
  {
    var q := m as real / p as real;
    assert q * p as real == m as real;
    HalfOf(q, p as real);
  }

  lemma HalfOf(q: real, p: real)
    requires p >= 2.0
    ensures q >= 0.0 ==> q * p >= q * 2.0
    ensures q <= 0.0 ==> q * p <= q * 2.0
  {
    assert q * p - q * 2.0 == q * (p - 2.0);
  }

  /** A double is an integer or less than 2^52 in magnitude. */
  lemma IntegerOrSmall(x: real)
    requires IsDouble(x)
    ensures x == x.Floor as real || Small(x)
  {
    var m, e :| Finite(m, e) && Value(m, e) == x;
    if e < 0 {
      Pow2AtLeast(-e);
      DivideBound(m, Pow2(-e));
    }
  }

  lemma SmallIntegerIsDouble(n: int)
    requires -MAX_EXACT_INTEGER <= n <= MAX_EXACT_INTEGER
    ensures IsDouble(n as real)
  {
    assert Finite(n, 0) && Value(n, 0) == n as real;
  }

  lemma FloorOf(x: real, n: int)
    requires n as real <= x < n as real + 1.0
    ensures x.Floor == n
  {}

  lemma TruncInt(n: int)
    ensures Trunc(n as real) == n && (n as real).Floor == n
  {
    FloorOf(n as real, n);
    FloorOf(-(n as real), -n);
  }

  lemma TruncBounds(x: real)
    ensures x >= 0.0 ==> Trunc(x) >= 0 && 0.0 <= x - Trunc(x) as real < 1.0
    ensures x <= 0.0 ==> Trunc(x) <= 0 && -1.0 < x - Trunc(x) as real <= 0.0
  {
    if x == 0.0 { TruncInt(0); }
  }

  lemma TruncWhole(x: real)
    requires x == x.Floor as real
    ensures x == Trunc(x) as real
  {
    TruncInt(x.Floor);
  }

  lemma OddRemainder(n: int)
    ensures CRem(n, 2) != 0 <==> n % 2 == 1
  {}

  /** The integral part is a double; where there is a fraction it is less than 2^52, so that a
      step by one is exact and the guard of the code holds. */
  lemma TruncIsDouble(x: real)
    requires IsDouble(x)
    ensures IsDouble(Trunc(x) as real)
    ensures x != Trunc(x) as real ==> -0x10_0000_0000_0000 <= Trunc(x) <= 0x10_0000_0000_0000
    ensures x != Trunc(x) as real ==> IsDouble((Trunc(x) + 1) as real) && IsDouble((Trunc(x) - 1) as real)
  {
    IntegerOrSmall(x);
    TruncBounds(x);
    if x == x.Floor as real { TruncWhole(x); }
    if x != Trunc(x) as real {
      SmallIntegerIsDouble(Trunc(x));
      SmallIntegerIsDouble(Trunc(x) + 1);
      SmallIntegerIsDouble(Trunc(x) - 1);
    }
  }

  // ----- The code -----

  /** Whether the code steps away from the integral part i, for the fraction f. */
  predicate StepsUp(f: real, i: real)
    requires i >= 0.0
  {
    f > 0.5 || (f == 0.5 && i <= MAX_EXACT_INTEGER as real && CRem(ToLongLong(i), 2) != 0)
  }

  predicate StepsDown(f: real, i: real)
    requires i <= 0.0
  {
    f < -0.5 || (f == -0.5 && i >= -MAX_EXACT_INTEGER as real && CRem(ToLongLong(i), 2) != 0)
  }

  /** The result, with exact additions. */
  function Rint(x: real): int {
    var i := Trunc(x);
    var f := x - i as real;
    TruncBounds(x);
    if x > 0.0 then i + (if StepsUp(f, i as real) then 1 else 0)
    else i - (if StepsDown(f, i as real) then 1 else 0)
  }

  /** rint itself: its floating-point steps are exact and it returns an integral double. */
  method RintInPlace(x: real, fl: real -> real) returns (i: real)
    requires IsDouble(x) && RoundsExactly(fl)
    ensures i == Rint(x) as real && IsDouble(i)
  {
    TruncIsDouble(x);
    TruncBounds(x);
    i := Trunc(x) as real;
    var f := x - i;
    if x > 0.0 {
      i := fl(i + BoolToReal(StepsUp(f, i)));
    } else {
      i := fl(i - BoolToReal(StepsDown(f, i)));
    }
  }

  // ----- Main results -----

  /** The decision of the code, with the guard known to hold. */
  lemma UpDecision(i: int, f: real)
    requires 0 <= i && (f == 0.5 ==> i <= MAX_EXACT_INTEGER)
    ensures StepsUp(f, i as real) <==> f > 0.5 || (f == 0.5 && i % 2 == 1)
  {
    if f == 0.5 {
      TruncInt(i);
      OddRemainder(i);
    }
  }

  lemma DownDecision(i: int, f: real)
    requires i <= 0 && (f == -0.5 ==> -MAX_EXACT_INTEGER <= i)
    ensures StepsDown(f, i as real) <==> f < -0.5 || (f == -0.5 && i % 2 == 1)
  {
    if f == -0.5 {
      TruncInt(i);
      OddRemainder(i);
    }
  }

  lemma NearestUp(x: real, i: int, f: real, up: bool)
    requires x == i as real + f && 0.0 <= f < 1.0
    requires up <==> f > 0.5 || (f == 0.5 && i % 2 == 1)
    ensures RoundsTo(x, if up then i + 1 else i)
  {
    if up { assert (i + 1) as real == i as real + 1.0; }
  }

  lemma NearestDown(x: real, i: int, f: real, down: bool)
    requires x == i as real + f && -1.0 < f <= 0.0
    requires down <==> f < -0.5 || (f == -0.5 && i % 2 == 1)
    ensures RoundsTo(x, if down then i - 1 else i)
  {
    if down { assert (i - 1) as real == i as real - 1.0; }
  }

  lemma RoundsToUnique(x: real, n: int, k: int)
    requires RoundsTo(x, n) && RoundsTo(x, k)
    ensures n == k
  {}

  /** For every finite double, rint is roundToIntegralTiesToEven. */
  lemma RintTiesToEven(x: real)
    requires IsDouble(x)
    ensures RoundsTo(x, Rint(x))
    ensures forall n :: RoundsTo(x, n) ==> n == Rint(x)
  {
    TruncIsDouble(x);
    TruncBounds(x);
    var i, f := Trunc(x), x - Trunc(x) as real;
    if x > 0.0 {
      UpDecision(i, f);
      NearestUp(x, i, f, StepsUp(f, i as real));
    } else {
      DownDecision(i, f);
      NearestDown(x, i, f, StepsDown(f, i as real));
    }
    forall n | RoundsTo(x, n) ensures n == Rint(x) { RoundsToUnique(x, n, Rint(x)); }
  }

  lemma Monotone(x: real, y: real)
    requires IsDouble(x) && IsDouble(y) && x <= y
    ensures Rint(x) <= Rint(y)
  {
    RintTiesToEven(x);
    RintTiesToEven(y);
  }

  /** The negative branch, with its truncating remainder, mirrors the positive one. */
  lemma Odd(x: real)
    requires IsDouble(x)
    ensures IsDouble(-x) && Rint(-x) == -Rint(x)
  {
    NegateDouble(x);
    RintTiesToEven(x);
    RintTiesToEven(-x);
    assert RoundsTo(-x, -Rint(x));
  }

  lemma Idempotent(x: real)
    requires IsDouble(x)
    ensures IsDouble(Rint(x) as real) && Rint(Rint(x) as real) == Rint(x)
  {
    TruncIsDouble(x);
    RintTiesToEven(Rint(x) as real);
    assert RoundsTo(Rint(x) as real, Rint(x));
  }

  /** Without the MAX_EXACT_INTEGER guards rint would return the same. */
  lemma GuardNeverDecides(x: real)
    requires IsDouble(x)
    ensures var i, f := Trunc(x), x - Trunc(x) as real;
            Rint(x) == if x > 0.0 then i + (if f > 0.5 || (f == 0.5 && CRem(i, 2) != 0) then 1 else 0)
                       else i - (if f < -0.5 || (f == -0.5 && CRem(i, 2) != 0) then 1 else 0)
  {
    TruncIsDouble(x);
    TruncBounds(x);
    var i, f := Trunc(x), x - Trunc(x) as real;
    OddRemainder(i);
    if x > 0.0 { UpDecision(i, f); } else { DownDecision(i, f); }
  }

  lemma NegateDouble(x: real)
    requires IsDouble(x)
    ensures IsDouble(-x)
  {
    var m, e :| Finite(m, e) && Value(m, e) == x;
    NegateValue(m, e);
    assert Finite(-m, e);
  }

  lemma NegateValue(m: int, e: int)
    ensures Value(-m, e) == -Value(m, e)
  {
    if e >= 0 {
      NegateProduct(m, Pow2(e));
    } else {
      NegateQuotient(m as real, Pow2(-e) as real);
    }
  }

  lemma NegateProduct(m: int, p: int)
    ensures (-m) * p == -(m * p)
  {}

  lemma NegateQuotient(m: real, p: real)
    requires p > 0.0
    ensures (-m) / p == -(m / p)
  {
    var q := m / p;
    assert q * p == m;
    assert (-q) * p == -m;
  }
}
