/** The two flavours of struct timespec in my_pthread.h: seconds and nanoseconds (POSIX), and
    100 ns units in a 64-bit integer (Windows). TIME is in units of 100 ns, NSEC in ns. */
module Timespec {

  const U64: nat := 0x1_0000_0000_0000_0000
  const S64: nat := 0x8000_0000_0000_0000
  const UNITS_PER_SEC: nat := 10000000
  const NSEC_PER_SEC: nat := 1000000000

  /** C's conversion of v to a signed 64-bit integer, and to a 32-bit long. */
  function ToInt64(v: int): int {
    if v % U64 < S64 then v % U64 else v % U64 - U64
  }

  function ToLong32(v: int): int {
    var u := v % 0x1_0000_0000;
    if u < 0x8000_0000 then u else u - 0x1_0000_0000
  }

  /** The deadline that TIME and NSEC ask for, in ns. */
  function Asked(time: int, nsec: nat): int { time * 100 + nsec }

  // ----- POSIX -----

  class Posix {
    var sec: nat
    var nsec: nat

    constructor () { sec, nsec := 0, 0; }

    ghost function Read(): Spec
      reads this
    {
      Spec(sec, nsec)
    }

    /** set_timespec_time_nsec: the deadline is normalised, and it is exactly the one asked for if
        and only if the sum of the clock and the delay fits 64 bits; if not, it is 2^64 units early. */
    method Set(time: nat, delta: nat)
      requires time < U64 && delta < U64
      modifies this
      ensures Read() == PosixOf(time, delta) && Read().Normalised()
      ensures Read().Nanos() == Asked(time, delta) <==> time + delta / 100 < U64
      ensures time + delta / 100 >= U64 ==> Read().Nanos() == Asked(time, delta) - 100 * U64
    {
      var n := delta;
      var now := (time + n / 100) % U64;
      sec := now / UNITS_PER_SEC;
      nsec := now % UNITS_PER_SEC * 100 + n % 100;
      WrappedUnits(time, delta);
      SplitUnits(now, n % 100);
      PosixExactly(time, delta);
    }
  }

  datatype Spec = Spec(sec: nat, nsec: nat) {
    function Nanos(): nat { sec * NSEC_PER_SEC + nsec }
    predicate Normalised() { nsec < NSEC_PER_SEC }
  }

  /** The normalised form of a number of ns. */
  function SpecOf(nanos: nat): Spec { Spec(nanos / NSEC_PER_SEC, nanos % NSEC_PER_SEC) }

  /** The deadline asked for, modulo 2^64 units of 100 ns. */
  function PosixOf(time: nat, delta: nat): Spec { SpecOf(Asked(time, delta) % (100 * U64)) }

  lemma WrappedUnits(time: nat, delta: nat)
    requires time < U64 && delta < U64
    ensures var sum := time + delta / 100;
            && Asked(time, delta) % (100 * U64) == sum % U64 * 100 + delta % 100
            && sum % U64 == if sum < U64 then sum else sum - U64
  {}

  lemma SplitUnits(now: nat, rest: nat)
    requires rest < 100
    ensures SpecOf(now * 100 + rest) == Spec(now / UNITS_PER_SEC, now % UNITS_PER_SEC * 100 + rest)
  {}

  function Cmp(a: Spec, b: Spec): int {
    if a.sec > b.sec || (a.sec == b.sec && a.nsec > b.nsec) then 1
    else if a.sec < b.sec || (a.sec == b.sec && a.nsec < b.nsec) then -1
    else 0
  }

  /** diff_timespec: unsigned 64-bit arithmetic. */
  function Diff(a: Spec, b: Spec): nat {
    ((a.sec - b.sec) * NSEC_PER_SEC + a.nsec - b.nsec) % U64
  }

  function Sign(v: int): int { if v > 0 then 1 else if v < 0 then -1 else 0 }

  lemma PosixExactly(time: nat, delta: nat)
    requires time < U64 && delta < U64
    ensures PosixOf(time, delta).Normalised()
    ensures PosixOf(time, delta).Nanos()
            == Asked(time, delta) - if time + delta / 100 < U64 then 0 else 100 * U64
  {
    WrappedUnits(time, delta);
  }

  /** On normalised values the comparison is the sign of the exact difference. */
  lemma CmpIsSign(a: Spec, b: Spec)
    requires a.Normalised() && b.Normalised()
    ensures Cmp(a, b) == Sign(a.Nanos() - b.Nanos())
  {
    if a.sec > b.sec { assert a.sec * NSEC_PER_SEC >= b.sec * NSEC_PER_SEC + NSEC_PER_SEC; }
    if a.sec < b.sec { assert b.sec * NSEC_PER_SEC >= a.sec * NSEC_PER_SEC + NSEC_PER_SEC; }
  }

  /** On any values it compares the seconds and then the nanoseconds, which is the sign of the exact
      difference if and only if the nanoseconds do not make up for the difference of the seconds. */
  lemma CmpIsSignExactly(a: Spec, b: Spec)
    ensures Cmp(a, b) == Sign(a.Nanos() - b.Nanos()) <==>
              && (a.sec > b.sec ==> b.nsec - a.nsec < (a.sec - b.sec) * NSEC_PER_SEC)
              && (a.sec < b.sec ==> a.nsec - b.nsec < (b.sec - a.sec) * NSEC_PER_SEC)
    ensures Cmp(a, b) == if a.sec != b.sec then Sign(a.sec - b.sec) else Sign(a.nsec - b.nsec)
  {
    assert a.Nanos() - b.Nanos() == (a.sec - b.sec) * NSEC_PER_SEC + a.nsec - b.nsec;
  }

  /** Hence cmp_timespec is a total order on deadlines. */
  lemma CmpTotalOrder(a: Spec, b: Spec, c: Spec)
    requires a.Normalised() && b.Normalised() && c.Normalised()
    ensures Cmp(a, b) == -Cmp(b, a)
    ensures Cmp(a, b) == 0 <==> a == b
    ensures Cmp(a, b) <= 0 && Cmp(b, c) <= 0 ==> Cmp(a, c) <= 0
  {
    CmpIsSign(a, b);
    CmpIsSign(b, a);
    CmpIsSign(b, c);
    CmpIsSign(a, c);
  }

  /** diff_timespec is the exact difference modulo 2^64; read as a signed number, it is the exact
      difference if and only if that fits. */
  lemma DiffExactly(a: Spec, b: Spec)
    ensures Diff(a, b) < U64 && (Diff(a, b) - (a.Nanos() - b.Nanos())) % U64 == 0
    ensures ToInt64(Diff(a, b)) == a.Nanos() - b.Nanos()
            <==> -(S64 as int) <= a.Nanos() - b.Nanos() < S64
  {
    var d := a.Nanos() - b.Nanos();
    assert d == (a.sec - b.sec) * NSEC_PER_SEC + a.nsec - b.nsec;
    assert Diff(a, b) == d % U64;
    Int64Wraps(Diff(a, b));
  }

  lemma Int64Wraps(v: int)
    ensures ToInt64(v) == v <==> -(S64 as int) <= v < S64
    ensures (ToInt64(v) - v) % U64 == 0 && -(S64 as int) <= ToInt64(v) < S64
  {
    assert v == U64 * (v / U64) + v % U64;
  }

  // ----- Windows -----

  /** struct timespec on Windows. */
  class Windows {
    var i64: int
    var maxTimeoutMsec: int

    constructor () { i64, maxTimeoutMsec := 0, 0; }

    /** set_timespec_time_nsec: the cast makes the division signed. The deadline is the one asked
        for with less than 100 ns cut off if and only if the delay and the sum fit 63 bits, and the
        timeout is the delay in ms if and only if that fits a 32-bit long; else both wrap around. */
    method Set(time: int, delta: nat)
      requires -(S64 as int) <= time < S64 && delta < U64
      modifies this
      ensures i64 == WindowsOf(time, delta) && -(S64 as int) <= i64 < S64
      ensures i64 * 100 <= Asked(time, delta) < i64 * 100 + 100 <==> delta < S64 && time + delta / 100 < S64
      ensures maxTimeoutMsec == delta / 1000000 <==> delta / 1000000 < 0x8000_0000
      ensures (maxTimeoutMsec - delta / 1000000) % 0x1_0000_0000 == 0
      ensures -0x8000_0000 <= maxTimeoutMsec < 0x8000_0000
    {
      i64 := ToInt64(time + DivTrunc(ToInt64(delta), 100));
      maxTimeoutMsec := ToLong32(delta / 1000000);
      WindowsTruncatesExactly(time, delta);
      Int64Wraps(time + DivTrunc(ToInt64(delta), 100));
      Long32Wraps(delta / 1000000);
    }
  }

  function DivTrunc(a: int, b: nat): int
    requires b > 0
  {
    if a >= 0 then a / b else -(-a / b)
  }

  function WindowsOf(time: int, delta: nat): int {
    ToInt64(time + DivTrunc(ToInt64(delta), 100))
  }

  function WindowsCmp(a: int, b: int): int { if a > b then 1 else if a < b then -1 else 0 }

  function WindowsDiff(a: int, b: int): int { ToInt64((a - b) * 100) }

  /** The deadline asked for fits both representations. */
  predicate InRange(time: nat, delta: nat) { delta < S64 && time + delta / 100 < S64 }

  lemma Long32Wraps(v: int)
    ensures ToLong32(v) == v <==> -0x8000_0000 <= v < 0x8000_0000
    ensures (ToLong32(v) - v) % 0x1_0000_0000 == 0 && -0x8000_0000 <= ToLong32(v) < 0x8000_0000
  {
    var u := v % 0x1_0000_0000;
    assert v == 0x1_0000_0000 * (v / 0x1_0000_0000) + u;
  }

  lemma WindowsTruncatesExactly(time: int, delta: nat)
    requires -(S64 as int) <= time < S64 && delta < U64
    ensures var w := WindowsOf(time, delta);
            w * 100 <= Asked(time, delta) < w * 100 + 100 <==> delta < S64 && time + delta / 100 < S64
  {
    WindowsWraps(time, delta);
  }

  /** The deadline for any delay: a sum that does not fit wraps around, and a delay of 2^63 ns or
      more counts as 2^64 ns less, rounded up. */
  lemma WindowsWraps(time: int, delta: nat)
    requires -(S64 as int) <= time < S64 && delta < U64
    ensures delta < S64 ==> WindowsOf(time, delta) == time + delta / 100 - if time + delta / 100 < S64 then 0 else U64
    ensures delta >= S64 ==>
              var w, early := WindowsOf(time, delta), Asked(time, delta) - U64;
              var v := if w * 100 - early < 100 then w else w - U64;
              early <= v * 100 < early + 100 && (v == w <==> v >= -(S64 as int))
  {
    SignedQuotient(delta);
    ToInt64Near(time + DivTrunc(ToInt64(delta), 100));
  }

  lemma SignedQuotient(delta: nat)
    requires delta < U64
    ensures var q := DivTrunc(ToInt64(delta), 100);
            if delta < S64 then q == delta / 100 else q <= 0 && delta - U64 <= q * 100 < delta - U64 + 100
  {
    assert delta % U64 == delta;
  }

  lemma ToInt64Near(v: int)
    requires -(U64 as int) <= v < U64
    ensures ToInt64(v) == if v < -(S64 as int) then v + U64 else if v < S64 then v else v - U64
  {}

  lemma WindowsTruncates(time: nat, delta: nat)
    requires InRange(time, delta)
    ensures WindowsOf(time, delta) == time + delta / 100
    ensures WindowsOf(time, delta) * 100 <= Asked(time, delta) < WindowsOf(time, delta) * 100 + 100
  {
    WindowsTruncatesExactly(time, delta);
  }

  /** On Windows cmp_timespec is the sign of the difference in units, and diff_timespec that
      difference in ns if and only if it fits. */
  lemma WindowsExactly(a: int, b: int)
    ensures WindowsCmp(a, b) == Sign(a - b)
    ensures WindowsDiff(a, b) == (a - b) * 100 <==> -(S64 as int) <= (a - b) * 100 < S64
    ensures (WindowsDiff(a, b) - (a - b) * 100) % U64 == 0
  {
    Int64Wraps((a - b) * 100);
  }

  /** The Windows flavour is the POSIX one with the last two digits dropped: it never reverses
      an order, it keeps the order of deadlines 100 ns or more apart, and it keeps every difference
      to within 100 ns. */
  lemma WindowsCoarsens(t1: nat, d1: nat, t2: nat, d2: nat)
    requires InRange(t1, d1) && InRange(t2, d2)
    ensures var (p, q, v, w) := (PosixOf(t1, d1), PosixOf(t2, d2), WindowsOf(t1, d1), WindowsOf(t2, d2));
            && (Cmp(p, q) <= 0 ==> WindowsCmp(v, w) <= 0)
            && (WindowsCmp(v, w) < 0 ==> Cmp(p, q) < 0)
            && (p.Nanos() - q.Nanos() >= 100 ==> Cmp(p, q) == WindowsCmp(v, w) == 1)
            && (q.Nanos() - p.Nanos() >= 100 ==> Cmp(p, q) == WindowsCmp(v, w) == -1)
            && -100 < (p.Nanos() - q.Nanos()) - (v - w) * 100 < 100
  {
    PosixExactly(t1, d1);
    PosixExactly(t2, d2);
    CmpIsSign(PosixOf(t1, d1), PosixOf(t2, d2));
    WindowsTruncates(t1, d1);
    WindowsTruncates(t2, d2);
  }

  /** The two diff_timespec macros agree to within 100 ns, read as signed numbers, when the
      differences fit. */
  lemma DiffsAgree(t1: nat, d1: nat, t2: nat, d2: nat)
    requires InRange(t1, d1) && InRange(t2, d2)
    requires -(S64 as int) + 100 <= Asked(t1, d1) - Asked(t2, d2) < S64 - 100
    ensures -100 < ToInt64(Diff(PosixOf(t1, d1), PosixOf(t2, d2)))
                   - WindowsDiff(WindowsOf(t1, d1), WindowsOf(t2, d2)) < 100
  {
    var (p, q, v, w) := (PosixOf(t1, d1), PosixOf(t2, d2), WindowsOf(t1, d1), WindowsOf(t2, d2));
    WindowsCoarsens(t1, d1, t2, d2);
    assert p.Nanos() == Asked(t1, d1) by { PosixExactly(t1, d1); }
    assert q.Nanos() == Asked(t2, d2) by { PosixExactly(t2, d2); }
    DiffExactly(p, q);
    WindowsExactly(v, w);
  }
}
