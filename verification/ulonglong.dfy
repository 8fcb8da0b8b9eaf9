/** my_ulonglong2double and my_double2ulonglong of my_global.h: unsigned 64-bit integers to doubles
    and back, for compilers that convert signed ones only. */
module UlongLong {
  import opened Bits
  import opened Rint

  const TWO63: nat := 0x8000_0000_0000_0000
  const TWO64: nat := 0x1_0000_0000_0000_0000

  ghost predicate Monotonic(fl: real -> real) { forall x, y :: x <= y ==> fl(x) <= fl(y) }

  /** A rounding of results to doubles, in any rounding mode: it keeps doubles and the order. */
  ghost predicate Rounding(fl: real -> real) {
    && RoundsExactly(fl) && Monotonic(fl)
    && (forall x :: -(TWO64 as real) <= x <= TWO64 as real ==> IsDouble(fl(x)))
  }

  function FromUlongLong(v: nat, fl: real -> real): real
    requires v < TWO64
  {
    var nr := if v < TWO63 then v else v - TWO64;
    if nr >= 0 then fl(nr as real) else fl(TWO64 as real + fl(nr as real))
  }

  /** (unsigned long long) x is defined in C for these x only. */
  predicate CastDefined(x: real) { -1.0 < x < TWO64 as real }

  function Cast(x: real): nat
    requires CastDefined(x)
  {
    TruncBounds(x);
    Trunc(x)
  }

  predicate Defined(d: real, fl: real -> real) {
    var t := fl(d - TWO63 as real);
    CastDefined(if t >= 0.0 then t else d)
  }

  function ToUlongLong(d: real, fl: real -> real): nat
    requires Defined(d, fl)
  {
    var t := fl(d - TWO63 as real);
    if t >= 0.0 then (Cast(t) + TWO63) % TWO64 else Cast(d)
  }

  // ----- Doubles from 2^63 on -----

  lemma Powers()
    ensures Pow2(10) == 0x400 && Pow2(53) == 0x20_0000_0000_0000
    ensures Pow2(63) == TWO63 && Pow2(64) == TWO64 && Pow2(65) == 2 * TWO64
  {
    Pow2Table();
    Pow2Sum(32, 21);
    Pow2Sum(32, 31);
  }

  lemma ProductMonotone(a: int, b: int, c: int, d: int)
    requires 0 <= a <= b && 0 <= c <= d
    ensures 0 <= a * c <= b * d
  {
    assert b * d - a * c == (b - a) * d + a * (d - c);
  }

  lemma AtLeast(m: int, e: nat, n: int, k: nat)
    requires 0 <= n <= m && k <= e
    ensures n * Pow2(k) <= m * Pow2(e)
  {
    Pow2Monotone(k, e);
    ProductMonotone(n, m, Pow2(k), Pow2(e));
  }

  lemma SmallExponent(m: int, e: nat)
    requires 0 <= m <= MAX_EXACT_INTEGER && e <= 10
    ensures m * Pow2(e) < TWO63
  {
    Powers();
    AtLeast(MAX_EXACT_INTEGER, 10, m, e);
  }

  /** Such a double is a multiple of 2^11. */
  lemma BigDouble(d: real) returns (m: int, e: nat)
    requires IsDouble(d) && TWO63 as real <= d
    ensures 0 < m <= MAX_EXACT_INTEGER && 11 <= e <= 971 && m * Pow2(e) == d.Floor && d == d.Floor as real
  {
    var n, k :| Finite(n, k) && Value(n, k) == d;
    if k < 0 {
      Pow2AtLeast(-k);
      DivideBound(n, Pow2(-k));
    }
    m, e := n, k;
    var whole := m * Pow2(e);
    assert d == whole as real;
    FloorOf(d, whole);
    MulSign(Pow2(e), m);
    if e < 11 { SmallExponent(m, e); }
  }

  /** Below 2^65 the exponent is at most 64, and 64 for 2^64 only. */
  lemma ExponentBound(m: int, e: nat)
    requires m > 0 && m * Pow2(e) < 2 * TWO64
    ensures e <= 64 && (e == 64 ==> m == 1)
  {
    Powers();
    if e > 64 { AtLeast(m, e, 1, 65); }
  }

  lemma DifferenceIsDouble(m: int, e: nat, p: nat)
    requires 0 < m <= MAX_EXACT_INTEGER && 11 <= e <= p <= 64
    ensures IsDouble((m * Pow2(e) - Pow2(p)) as real)
  {
    var k := Pow2(p - e);
    AtMostPow53(p - e);
    Factored(m, k, Pow2(e), Pow2(p)) by { Pow2Sum(p - e, e); }
    MultipleIsDouble(m - k, e);
  }

  lemma AtMostPow53(n: nat)
    requires n <= 53
    ensures Pow2(n) <= MAX_EXACT_INTEGER + 1
  {
    Powers();
    Pow2Monotone(n, 53);
  }

  lemma MultipleIsDouble(m: int, e: nat)
    requires Finite(m, e)
    ensures IsDouble((m * Pow2(e)) as real)
  {
    assert Value(m, e) == (m * Pow2(e)) as real;
  }

  lemma Factored(m: int, k: int, q: int, r: int)
    requires r == k * q
    ensures (m - k) * q == m * q - r
  {}

  lemma PowersAreDoubles()
    ensures IsDouble(TWO63 as real) && IsDouble(-(TWO63 as real)) && IsDouble(TWO64 as real)
  {
    Powers();
    assert Finite(1, 63) && Value(1, 63) == TWO63 as real;
    assert Finite(-1, 63) && Value(-1, 63) == -(TWO63 as real);
    assert Finite(1, 64) && Value(1, 64) == TWO64 as real;
  }

  /** The subtraction of the code is exact. */
  lemma MinusTwo63IsDouble(d: real)
    requires IsDouble(d) && TWO63 as real <= d < 2.0 * TWO64 as real
    ensures IsDouble(d - TWO63 as real) && d == d.Floor as real
  {
    var m, e := BigDouble(d);
    Powers();
    ExponentBound(m, e);
    if e == 64 { PowersAreDoubles(); } else { DifferenceIsDouble(m, e, 63); }
  }

  // ----- Main results -----

  /** For every double for which its casts are defined, my_double2ulonglong drops the fraction
      exactly if and only if the double is below 2^64; above, it wraps around. */
  lemma TruncatesExactly(d: real, fl: real -> real)
    requires Rounding(fl) && IsDouble(d) && -1.0 < d < TWO63 as real + TWO64 as real
    ensures Defined(d, fl)
    ensures ToUlongLong(d, fl) == Trunc(d) <==> d < TWO64 as real
    ensures d >= TWO64 as real ==> ToUlongLong(d, fl) == Trunc(d) - TWO64
  {
    var t := fl(d - TWO63 as real);
    if d < TWO63 as real {
      IntegerOrSmall(d);
      SmallIntegerIsDouble(-1);
      assert t <= fl(-1.0) == -1.0;
    } else {
      MinusTwo63IsDouble(d);
      TruncInt(d.Floor);
      TruncInt(d.Floor - TWO63);
      assert t == d - TWO63 as real == (d.Floor - TWO63) as real;
    }
  }

  lemma ConvertedExactly(v: nat, fl: real -> real)
    requires Rounding(fl) && v < TWO64 && IsDouble(v as real)
    ensures FromUlongLong(v, fl) == v as real
  {
    ConvertedToNeighbour(v, fl);
  }

  lemma ConvertedInRange(v: nat, fl: real -> real)
    requires Rounding(fl) && v < TWO64
    ensures IsDouble(FromUlongLong(v, fl)) && 0.0 <= FromUlongLong(v, fl) <= TWO64 as real
    ensures v >= TWO63 ==> TWO63 as real <= FromUlongLong(v, fl)
  {
    PowersAreDoubles();
    SmallIntegerIsDouble(0);
    if v < TWO63 {
      assert fl(0.0) <= fl(v as real) <= fl(TWO63 as real);
    } else {
      var nr := (v - TWO64) as real;
      assert fl(-(TWO63 as real)) <= fl(nr) <= fl(0.0);
      assert fl(TWO63 as real) <= fl(TWO64 as real + fl(nr)) <= fl(TWO64 as real);
    }
  }

  /** A double y between 2^63 and 2^64, seen from 2^64. */
  lemma MinusTwo64IsDouble(y: real)
    requires IsDouble(y) && TWO63 as real <= y < TWO64 as real
    ensures IsDouble(y - TWO64 as real)
  {
    var m, e := BigDouble(y);
    Powers();
    ExponentBound(m, e);
    DifferenceIsDouble(m, e, 64);
  }

  lemma TwoRoundings(fl: real -> real, nr: real, y: real)
    requires Monotonic(fl) && fl(y) == y && fl(y - TWO64 as real) == y - TWO64 as real
    ensures y <= TWO64 as real + nr ==> y <= fl(TWO64 as real + fl(nr))
    ensures TWO64 as real + nr <= y ==> fl(TWO64 as real + fl(nr)) <= y
  {
    var z, sum := y - TWO64 as real, TWO64 as real + fl(nr);
    if z <= nr { assert fl(z) <= fl(nr) && fl(y) <= fl(sum); }
    if nr <= z { assert fl(nr) <= fl(z) && fl(sum) <= fl(y); }
  }

  /** The two roundings of a large integer pass no double on the way. */
  lemma LargePassesNoDouble(v: nat, fl: real -> real, y: real)
    requires Rounding(fl) && TWO63 <= v < TWO64 && IsDouble(y)
    ensures y <= v as real ==> y <= FromUlongLong(v, fl)
    ensures v as real <= y ==> FromUlongLong(v, fl) <= y
  {
    ConvertedInRange(v, fl);
    assert v as real == TWO64 as real + (v - TWO64) as real;
    if TWO63 as real <= y < TWO64 as real {
      MinusTwo64IsDouble(y);
      TwoRoundings(fl, (v - TWO64) as real, y);
    }
  }

  /** my_ulonglong2double returns one of the doubles next to the integer: none lies between the two,
      in spite of the two roundings, in any rounding mode. */
  lemma ConvertedToNeighbour(v: nat, fl: real -> real)
    requires Rounding(fl) && v < TWO64
    ensures var d := FromUlongLong(v, fl);
            IsDouble(d) && forall y :: IsDouble(y) ==> (y <= v as real ==> y <= d) && (v as real <= y ==> d <= y)
  {
    ConvertedInRange(v, fl);
    forall y | IsDouble(y)
      ensures y <= v as real ==> y <= FromUlongLong(v, fl)
      ensures v as real <= y ==> FromUlongLong(v, fl) <= y
    {
      if v >= TWO63 {
        LargePassesNoDouble(v, fl, y);
      } else {
        assert fl(y) == y;
      }
    }
  }

  /** An integer survives the way to a double and back if and only if it is a double itself. */
  lemma RoundTripExactly(v: nat, fl: real -> real)
    requires Rounding(fl) && v < TWO64
    ensures Defined(FromUlongLong(v, fl), fl)
    ensures ToUlongLong(FromUlongLong(v, fl), fl) == v <==> IsDouble(v as real)
  {
    var d := FromUlongLong(v, fl);
    ConvertedInRange(v, fl);
    TruncatesExactly(d, fl);
    TruncIsDouble(d);
    TruncInt(TWO64);
    SmallIntegerIsDouble(0);
    if IsDouble(v as real) {
      ConvertedExactly(v, fl);
      TruncInt(v);
    }
  }
}
