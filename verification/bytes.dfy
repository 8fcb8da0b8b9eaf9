/** Bytes and numbers in base 256, least significant byte first. */
module Bytes {
  import opened Bits

  type byte = x: int | 0 <= x < 256

  function FromLE(b: seq<byte>): (v: nat) {
    if b == [] then 0 else b[0] + 256 * FromLE(b[1..])
  }

  /** The n low-order bytes of v, of either sign (division rounds down). */
  function ToLE(v: int, n: nat): (b: seq<byte>)
    ensures |b| == n
    decreases n
  {
    if n == 0 then [] else [v % 256] + ToLE(v / 256, n - 1)
  }

  function Reverse(b: seq<byte>): (r: seq<byte>)
    ensures |r| == |b| && forall i :: 0 <= i < |b| ==> r[i] == b[|b| - 1 - i]
  {
    if b == [] then [] else Reverse(b[1..]) + [b[0]]
  }

  function Pow256(n: nat): (p: nat)
    ensures p > 0
  {
    if n == 0 then 1 else 256 * Pow256(n - 1)
  }

  lemma Pow256Table()
    ensures Pow256(1) == 0x100 && Pow256(2) == 0x1_0000 && Pow256(3) == 0x100_0000
    ensures Pow256(4) == 0x1_0000_0000 && Pow256(5) == 0x100_0000_0000
  {
    var p1 := Pow256(1);
    var p2 := Pow256(2);
    var p3 := Pow256(3);
    assert p1 == 256 && p2 == 256 * p1 && p3 == 256 * p2 && Pow256(4) == 256 * p3;
  }

  lemma {:induction false} FromLEBound(b: seq<byte>)
    ensures FromLE(b) < Pow256(|b|)
  {
    if b != [] { FromLEBound(b[1..]); }
  }

  lemma {:induction false} FromLEInjective(a: seq<byte>, b: seq<byte>)
    requires |a| == |b| && FromLE(a) == FromLE(b)
    ensures a == b
  {
    if a != [] {
      FromLEInjective(a[1..], b[1..]);
      assert a == [a[0]] + a[1..] && b == [b[0]] + b[1..];
    }
  }

  lemma DigitMod(v: int, p: nat)
    requires p > 0
    ensures v % (256 * p) == v % 256 + 256 * (v / 256 % p)
  {
    var q, r := v / 256 / p, v / 256 % p;
    assert v / 256 == p * q + r;
    ModUnique(v, 256 * p, q, v % 256 + 256 * r);
  }

  /** Reading back n bytes of v gives v modulo 256^n. */
  lemma {:induction false} FromToLE(v: int, n: nat)
    ensures FromLE(ToLE(v, n)) == v % Pow256(n)
    decreases n
  {
    if n > 0 {
      FromToLE(v / 256, n - 1);
      assert ToLE(v, n)[1..] == ToLE(v / 256, n - 1);
      DigitMod(v, Pow256(n - 1));
    }
  }

  lemma {:induction false} Pow256IsPow2(n: nat)
    ensures Pow256(n) == Pow2(8 * n)
  {
    if n > 0 {
      Pow256IsPow2(n - 1);
      Pow2Sum(8, 8 * (n - 1));
      assert Pow2(8) == 256;
    }
  }

  lemma {:induction false} ToFromLE(b: seq<byte>)
    ensures ToLE(FromLE(b), |b|) == b
  {
    if b != [] {
      ToFromLE(b[1..]);
      ModUnique(FromLE(b), 256, FromLE(b[1..]), b[0]);
      assert b == [b[0]] + b[1..];
    }
  }

  /** t after the bytes s were written at p. */
  function Pasted(t: seq<byte>, p: nat, s: seq<byte>): seq<byte>
    requires p + |s| <= |t|
  {
    t[..p] + s + t[p + |s|..]
  }

  lemma PastedByIndex(before: seq<byte>, after: seq<byte>, p: nat, s: seq<byte>)
    requires |before| == |after| && p + |s| <= |after|
    requires forall i :: 0 <= i < |s| ==> after[p + i] == s[i]
    requires forall i :: 0 <= i < p ==> after[i] == before[i]
    requires forall i :: p + |s| <= i < |after| ==> after[i] == before[i]
    ensures after == Pasted(before, p, s)
  {
    assert after[p..p + |s|] == s;
  }

  lemma PasteTwice(t: seq<byte>, p: nat, x: seq<byte>, y: seq<byte>)
    requires p + |x| + |y| <= |t|
    ensures Pasted(Pasted(t, p, x), p + |x|, y) == Pasted(t, p, x + y)
  {
    var once, q := Pasted(t, p, x), p + |x|;
    assert once[..q] == t[..p] + x && once[q + |y|..] == t[q + |y|..];
  }
}
