/** Integers in machine-independent format, low byte first: the korr and store macros of
    byte_order_generic.h, byte_order_generic_x86.h and byte_order_generic_x86_64.h, and int4net
    of my_byteorder.h.

    Loads are given the bytes from the pointer on. Where a macro reads a byte without casting it
    to uchar, the value depends on whether the pointer is to a signed char: `CharValue`. Shifts of
    negative numbers round down and overflow wraps around. */
module Korr {
  import opened Bits
  import opened Bytes

  /** (uchar) c and (int16) c. */
  function Uchar(b: byte): nat { b }

  function CharValue(b: byte, signedChar: bool): int {
    if signedChar && b >= 128 then b - 256 else b
  }

  /** The casts to uint16, uint32 and ulonglong. */
  function U16(v: int): nat { v % 0x1_0000 }

  function U32(v: int): nat { v % 0x1_0000_0000 }

  function U64(v: int): nat { v % 0x1_0000_0000_0000_0000 }

  // ----- byte_order_generic.h: loads -----

  function Sint2korr(b: seq<byte>, signedChar: bool): int
    requires |b| >= 2
  {
    Signed(Uchar(b[0]) + CharValue(b[1], signedChar) * 0x100, 16)
  }

  function Sint3korr(b: seq<byte>): int
    requires |b| >= 3
  {
    if And(Uchar(b[2]), 128) != 0
    then Signed(Or(Or(Or(255 * 0x100_0000, Uchar(b[2]) * 0x1_0000), Uchar(b[1]) * 0x100), Uchar(b[0])), 32)
    else Signed(Or(Or(Uchar(b[2]) * 0x1_0000, Uchar(b[1]) * 0x100), Uchar(b[0])), 32)
  }

  function Sint4korr(b: seq<byte>, signedChar: bool): int
    requires |b| >= 4
  {
    Signed(Uchar(b[0]) + Uchar(b[1]) * 0x100 + Uchar(b[2]) * 0x1_0000 + CharValue(b[3], signedChar) * 0x100_0000, 32)
  }

  function Sint8korr(b: seq<byte>): int
    requires |b| >= 8
  {
    Signed(Uint8korr(b), 64)
  }

  function Uint2korr(b: seq<byte>): nat
    requires |b| >= 2
  {
    U16(Uchar(b[0]) + Uchar(b[1]) * 0x100)
  }

  function Uint3korr(b: seq<byte>): nat
    requires |b| >= 3
  {
    U32(Uchar(b[0]) + Uchar(b[1]) * 0x100 + Uchar(b[2]) * 0x1_0000)
  }

  function Uint4korr(b: seq<byte>): nat
    requires |b| >= 4
  {
    U32(Uchar(b[0]) + Uchar(b[1]) * 0x100 + Uchar(b[2]) * 0x1_0000 + Uchar(b[3]) * 0x100_0000)
  }

  function Uint5korr(b: seq<byte>): nat
    requires |b| >= 5
  {
    U64(U32(Uchar(b[0]) + Uchar(b[1]) * 0x100 + Uchar(b[2]) * 0x1_0000 + Uchar(b[3]) * 0x100_0000)
             + Uchar(b[4]) * 0x1_0000_0000)
  }

  function Uint6korr(b: seq<byte>): nat
    requires |b| >= 6
  {
    U64(U32(Uchar(b[0]) + Uchar(b[1]) * 0x100 + Uchar(b[2]) * 0x1_0000 + Uchar(b[3]) * 0x100_0000)
             + Uchar(b[4]) * 0x1_0000_0000 + Uchar(b[5]) * 0x100_0000_0000)
  }

  function Uint8korr(b: seq<byte>): nat
    requires |b| >= 8
  {
    U64(U32(Uchar(b[0]) + Uchar(b[1]) * 0x100 + Uchar(b[2]) * 0x1_0000 + Uchar(b[3]) * 0x100_0000)
             + U32(Uchar(b[4]) + Uchar(b[5]) * 0x100 + Uchar(b[6]) * 0x1_0000 + Uchar(b[7]) * 0x100_0000) * 0x1_0000_0000)
  }

  /** int4net: network byte order, most significant byte first. */
  function Int4Net(b: seq<byte>): int
    requires |b| >= 4
  {
    Signed(Or(Or(Or(Uchar(b[3]), Uchar(b[2]) * 0x100), Uchar(b[1]) * 0x1_0000), Uchar(b[0]) * 0x100_0000), 32)
  }

  // ----- What the loads compute -----

  lemma FromLEPart(b: seq<byte>, i: nat, n: nat)
    requires i < n <= |b|
    ensures FromLE(b[i..n]) == b[i] + 256 * FromLE(b[i + 1..n])
  {
    assert b[i..n][1..] == b[i + 1..n];
  }

  /** FromLE of up to four bytes, written out. */
  lemma FromLE2(b: seq<byte>, i: nat)
    requires i + 2 <= |b|
    ensures FromLE(b[i..i + 1]) == Uchar(b[i])
    ensures FromLE(b[i..i + 2]) == Uchar(b[i]) + Uchar(b[i + 1]) * 0x100
  {
    FromLEPart(b, i, i + 1);
    FromLEPart(b, i, i + 2);
    FromLEPart(b, i + 1, i + 2);
  }

  lemma FromLE3(b: seq<byte>, i: nat)
    requires i + 3 <= |b|
    ensures FromLE(b[i..i + 3]) == Uchar(b[i]) + Uchar(b[i + 1]) * 0x100 + Uchar(b[i + 2]) * 0x1_0000
  {
    FromLEPart(b, i, i + 3);
    FromLEPart(b, i + 1, i + 3);
    FromLEPart(b, i + 2, i + 3);
  }

  lemma FromLE4(b: seq<byte>, i: nat)
    requires i + 4 <= |b|
    ensures FromLE(b[i..i + 4]) == Uchar(b[i]) + Uchar(b[i + 1]) * 0x100 + Uchar(b[i + 2]) * 0x1_0000
                                   + Uchar(b[i + 3]) * 0x100_0000
  {
    FromLEPart(b, i, i + 4);
    FromLE3(b, i + 1);
  }

  lemma FromLEAbove4(b: seq<byte>, n: nat)
    requires 4 <= n <= |b|
    ensures FromLE(b[..n]) == FromLE(b[..4]) + 0x1_0000_0000 * FromLE(b[4..n])
  {
    FromLEPart(b, 0, n); FromLEPart(b, 1, n); FromLEPart(b, 2, n); FromLEPart(b, 3, n);
    FromLE4(b, 0);
  }

  lemma LowWord(b: seq<byte>, i: nat)
    requires i + 4 <= |b|
    ensures U32(Uchar(b[i]) + Uchar(b[i + 1]) * 0x100 + Uchar(b[i + 2]) * 0x1_0000 + Uchar(b[i + 3]) * 0x100_0000)
            == FromLE(b[i..i + 4]) < 0x1_0000_0000
  {
    FromLE4(b, i);
  }

  lemma Load2(b: seq<byte>)
    requires |b| >= 2
    ensures Uint2korr(b) == FromLE(b[..2])
  {
    FromLE2(b, 0);
  }

  lemma Load3(b: seq<byte>)
    requires |b| >= 3
    ensures Uint3korr(b) == FromLE(b[..3])
  {
    FromLE3(b, 0);
  }

  lemma Load4(b: seq<byte>)
    requires |b| >= 4
    ensures Uint4korr(b) == FromLE(b[..4])
  {
    LowWord(b, 0);
  }

  lemma Load5(b: seq<byte>)
    requires |b| >= 5
    ensures Uint5korr(b) == FromLE(b[..5])
  {
    LowWord(b, 0);
    FromLEPart(b, 4, 5);
    FromLEAbove4(b, 5);
  }

  lemma Load6(b: seq<byte>)
    requires |b| >= 6
    ensures Uint6korr(b) == FromLE(b[..6])
  {
    LowWord(b, 0);
    FromLE2(b, 4);
    FromLEAbove4(b, 6);
  }

  lemma Load8(b: seq<byte>)
    requires |b| >= 8
    ensures Uint8korr(b) == FromLE(b[..8])
  {
    LowWord(b, 0);
    LowWord(b, 4);
    FromLEAbove4(b, 8);
  }

  /** The unsigned loads of every width are the little-endian number of the bytes they read. */
  lemma UnsignedLoads(b: seq<byte>)
    ensures |b| >= 2 ==> Uint2korr(b) == FromLE(b[..2])
    ensures |b| >= 3 ==> Uint3korr(b) == FromLE(b[..3])
    ensures |b| >= 4 ==> Uint4korr(b) == FromLE(b[..4])
    ensures |b| >= 5 ==> Uint5korr(b) == FromLE(b[..5])
    ensures |b| >= 6 ==> Uint6korr(b) == FromLE(b[..6])
    ensures |b| >= 8 ==> Uint8korr(b) == FromLE(b[..8])
  {
    if |b| >= 2 { Load2(b); }
    if |b| >= 3 { Load3(b); }
    if |b| >= 4 { Load4(b); }
    if |b| >= 5 { Load5(b); }
    if |b| >= 6 { Load6(b); }
    if |b| >= 8 { Load8(b); }
  }

  lemma SignedShift(v: int, k: int, bits: nat)
    requires bits > 0
    ensures Signed(v + k * Pow2(bits), bits) == Signed(v, bits)
  {
    ModShift(v, k, Pow2(bits));
  }

  lemma ModShift(v: int, k: int, p: nat)
    requires p > 0
    ensures (v + k * p) % p == v % p
  {
    assert v == p * (v / p) + v % p;
    assert p * (v / p + k) == p * (v / p) + k * p;
    ModUnique(v + k * p, p, v / p + k, v % p);
  }

  lemma Wrap16(v: int)
    ensures Signed(v - 0x1_0000, 16) == Signed(v, 16)
  {
    Pow2Table();
    SignedShift(v, -1, 16);
  }

  lemma Wrap32(v: int)
    ensures Signed(v - 0x1_0000_0000, 32) == Signed(v, 32)
  {
    Pow2Table();
    SignedShift(v, -1, 32);
  }

  lemma OrCommutes(a: nat, b: nat)
    ensures Or(a, b) == Or(b, a)
    decreases a + b
  {
    if a != 0 || b != 0 { OrCommutes(a / 2, b / 2); }
  }

  /** Shifted bytes have no common bit. */
  lemma OrBytes(hi: nat, b1: nat, b0: nat)
    requires b1 < 256 && b0 < 256
    ensures Or(Or(hi * 0x1_0000, b1 * 0x100), b0) == hi * 0x1_0000 + b1 * 0x100 + b0
  {
    Pow2Table();
    OrDisjoint(hi, b1 * 0x100, 16);
    OrDisjoint(hi * 0x100 + b1, b0, 8);
  }

  lemma OrSignByte(b2: nat)
    requires b2 < 256
    ensures Or(255 * 0x100_0000, b2 * 0x1_0000) == (255 * 0x100 + b2) * 0x1_0000
  {
    Pow2Table();
    OrDisjoint(255, b2 * 0x1_0000, 24);
  }

  /** Masking a byte with its bits from k on. */
  lemma MaskByte(b: nat, k: nat, p: nat)
    requires b < Pow2(8) == 256 && k <= 8 && p == Pow2(k) <= 256
    ensures And(b, 256 - p) == b / p * p
  {
    AndHighMask(b, k, 8);
    ClearLowIsRounding(b, k);
  }

  lemma SignBit(b2: nat)
    requires b2 < 256
    ensures And(b2, 128) != 0 <==> b2 >= 128
  {
    Pow2Table();
    MaskByte(b2, 7, 128);
  }

  lemma Signed24(v: int)
    requires 0 <= v < 0x100_0000
    ensures Signed(v, 24) == if v < 0x80_0000 then v else v - 0x100_0000
  {
    Pow2Table();
  }

  lemma Signed32(v: int)
    requires 0 <= v < 0x1_0000_0000
    ensures Signed(v, 32) == if v < 0x8000_0000 then v else v - 0x1_0000_0000
  {
    Pow2Table();
  }

  /** Or-ing 255 above three bytes extends the sign from bit 23. */
  lemma SignExtension(b2: nat, b1: nat, b0: nat)
    requires b2 < 256 && b1 < 256 && b0 < 256
    ensures Signed(SignedTop(b2) * 0x1_0000 + b1 * 0x100 + b0, 32)
            == Signed(b2 * 0x1_0000 + b1 * 0x100 + b0, 24)
  {
    var v := b2 * 0x1_0000 + b1 * 0x100 + b0;
    Signed24(v);
    Signed32(v);
    Signed32(255 * 0x100_0000 + v);
  }

  /** The two upper bytes as sint3korr combines them. */
  function SignedTop(b2: nat): nat { if b2 >= 128 then 255 * 0x100 + b2 else b2 }

  lemma Sint3Value(b: seq<byte>)
    requires |b| >= 3
    ensures Sint3korr(b) == Signed(SignedTop(b[2]) * 0x1_0000 + Uchar(b[1]) * 0x100 + Uchar(b[0]), 32)
  {
    SignBit(b[2]);
    OrSignByte(b[2]);
    OrBytes(SignedTop(b[2]), b[1], b[0]);
  }

  lemma Sint3Bytes(b: seq<byte>)
    requires |b| >= 3
    ensures Signed(SignedTop(b[2]) * 0x1_0000 + Uchar(b[1]) * 0x100 + Uchar(b[0]), 32) == Signed(FromLE(b[..3]), 24)
  {
    assert FromLE(b[..3]) == Uchar(b[2]) * 0x1_0000 + Uchar(b[1]) * 0x100 + Uchar(b[0]) by { FromLE3(b, 0); }
    SignExtension(b[2], b[1], b[0]);
  }

  /** sint3korr is the signed value of three bytes. */
  lemma Sint3IsSigned(b: seq<byte>)
    requires |b| >= 3
    ensures Sint3korr(b) == Signed(FromLE(b[..3]), 24)
  {
    Sint3Value(b);
    Sint3Bytes(b);
  }

  lemma Sint2IsSigned(b: seq<byte>, signedChar: bool)
    requires |b| >= 2
    ensures Sint2korr(b, signedChar) == Signed(FromLE(b[..2]), 16)
  {
    var v := FromLE(b[..2]);
    assert v == Uchar(b[0]) + Uchar(b[1]) * 0x100 by { FromLE2(b, 0); }
    Wrap16(v);
  }

  lemma Sint4IsSigned(b: seq<byte>, signedChar: bool)
    requires |b| >= 4
    ensures Sint4korr(b, signedChar) == Signed(FromLE(b[..4]), 32)
  {
    var v := FromLE(b[..4]);
    assert v == Uchar(b[0]) + Uchar(b[1]) * 0x100 + Uchar(b[2]) * 0x1_0000 + Uchar(b[3]) * 0x100_0000 by {
      FromLE4(b, 0);
    }
    Wrap32(v);
  }

  /** The signed loads of every width are the two's complement of the bytes they read, whether or
      not char is signed. */
  lemma SignedLoads(b: seq<byte>, signedChar: bool)
    ensures |b| >= 2 ==> Sint2korr(b, signedChar) == Signed(FromLE(b[..2]), 16)
    ensures |b| >= 3 ==> Sint3korr(b) == Signed(FromLE(b[..3]), 24)
    ensures |b| >= 4 ==> Sint4korr(b, signedChar) == Signed(FromLE(b[..4]), 32)
    ensures |b| >= 8 ==> Sint8korr(b) == Signed(FromLE(b[..8]), 64)
  {
    if |b| >= 2 { Sint2IsSigned(b, signedChar); }
    if |b| >= 3 { Sint3IsSigned(b); }
    if |b| >= 4 { Sint4IsSigned(b, signedChar); }
    if |b| >= 8 { Load8(b); }
  }

  lemma OrAbove(lo: nat, hi: nat, k: nat, p: nat)
    requires lo < p == Pow2(k)
    ensures Or(lo, hi * p) == lo + hi * p
  {
    OrCommutes(lo, hi * p);
    OrDisjoint(hi, lo, k);
  }

  lemma OrNetBytes(b3: nat, b2: nat, b1: nat, b0: nat)
    requires b3 < 256 && b2 < 256 && b1 < 256 && b0 < 256
    ensures Or(Or(Or(b3, b2 * 0x100), b1 * 0x1_0000), b0 * 0x100_0000)
            == b3 + b2 * 0x100 + b1 * 0x1_0000 + b0 * 0x100_0000
  {
    Pow2Table();
    OrAbove(b3, b2, 8, 0x100);
    OrAbove(b3 + b2 * 0x100, b1, 16, 0x1_0000);
    OrAbove(b3 + b2 * 0x100 + b1 * 0x1_0000, b0, 24, 0x100_0000);
  }

  /** int4net is the 4-byte little-endian load of the reversed bytes, reinterpreted as signed. */
  lemma Int4NetReverses(b: seq<byte>)
    requires |b| >= 4
    ensures Int4Net(b) == Signed(FromLE(Reverse(b[..4])), 32)
    ensures Int4Net(b) == Sint4korr(Reverse(b[..4]), false)
  {
    var r := Reverse(b[..4]);
    assert r[..4] == r[0..4] == r;
    assert r[0] == b[3] && r[1] == b[2] && r[2] == b[1] && r[3] == b[0];
    FromLE4(r, 0);
    Sint4IsSigned(r, false);
    OrNetBytes(b[3], b[2], b[1], b[0]);
  }

  // ----- byte_order_generic.h: stores -----

  /** The bytes of a after the n low-order bytes of v were stored at p: nothing else changes. */
  function Stored(a: seq<byte>, p: nat, n: nat, v: int): (r: seq<byte>)
    requires p + n <= |a|
    ensures |r| == |a|
  {
    a[..p] + ToLE(v, n) + a[p + n..]
  }

  lemma {:induction false} Digit(v: int, n: nat, i: nat)
    requires i < n
    ensures ToLE(v, n)[i] == v / Pow256(i) % 256
    decreases i
  {
    if i > 0 {
      Digit(v / 256, n - 1, i - 1);
      DivDiv(v, Pow256(i - 1));
    }
  }

  lemma DivDiv(v: int, p: nat)
    requires p > 0
    ensures v / 256 / p == v / (256 * p)
  {
    var q, r := v / 256 / p, v / 256 % p;
    assert v / 256 == p * q + r;
    ModUnique(v, 256 * p, q, v % 256 + 256 * r);
  }

  /** The digits the store macros write. */
  lemma Digits(v: int, n: nat)
    requires n <= 8
    ensures n > 0 ==> ToLE(v, n)[0] == v % 256
    ensures n > 1 ==> ToLE(v, n)[1] == v / 0x100 % 256
    ensures n > 2 ==> ToLE(v, n)[2] == v / 0x1_0000 % 256
    ensures n > 3 ==> ToLE(v, n)[3] == v / 0x100_0000 % 256
    ensures n > 4 ==> ToLE(v, n)[4] == v / 0x1_0000_0000 % 256
    ensures n > 5 ==> ToLE(v, n)[5] == v / 0x100_0000_0000 % 256
  {
    Pow256Table();
    forall i | 0 <= i < n ensures ToLE(v, n)[i] == v / Pow256(i) % 256 { Digit(v, n, i); }
  }

  /** The n low-order bytes do not depend on higher ones. */
  lemma LowBytes(v: int, w: int, n: nat)
    requires v % Pow256(n) == w % Pow256(n)
    ensures ToLE(v, n) == ToLE(w, n)
  {
    FromToLE(v, n);
    FromToLE(w, n);
    FromLEInjective(ToLE(v, n), ToLE(w, n));
  }

  lemma LowBytesUnsigned(v: int, n: nat)
    ensures ToLE(Unsigned(v, 8 * n), n) == ToLE(v, n)
  {
    Pow256IsPow2(n);
    var p := Pow256(n);
    ModUnique(v % p, p, 0, v % p);
    LowBytes(v % p, v, n);
  }

  lemma LowBytesSigned(v: int, n: nat)
    requires n > 0
    ensures ToLE(Signed(v, 8 * n), n) == ToLE(v, n)
  {
    Pow256IsPow2(n);
    var p, r := Pow256(n), v % Pow256(n);
    ModUnique(r, p, 0, r);
    ModUnique(r - p, p, -1, r);
    LowBytes(Signed(v, 8 * n), v, n);
  }

  method Int2Store(a: array<byte>, p: nat, v: int)
    requires p + 2 <= a.Length
    modifies a
    ensures a[..] == Stored(old(a[..]), p, 2, v)
  {
    var temp := U32(v);
    a[p] := temp % 256;
    a[p + 1] := temp / 0x100 % 256;
    Digits(temp, 2);
    Pow256Table();
    LowBytes(temp, v, 2);
  }

  method Int3Store(a: array<byte>, p: nat, v: int)
    requires p + 3 <= a.Length
    modifies a
    ensures a[..] == Stored(old(a[..]), p, 3, v)
  {
    a[p] := v % 256;
    a[p + 1] := v / 0x100 % 256;
    a[p + 2] := v / 0x1_0000 % 256;
    Digits(v, 3);
  }

  method Int4Store(a: array<byte>, p: nat, v: int)
    requires p + 4 <= a.Length
    modifies a
    ensures a[..] == Stored(old(a[..]), p, 4, v)
  {
    a[p] := v % 256;
    a[p + 1] := v / 0x100 % 256;
    a[p + 2] := v / 0x1_0000 % 256;
    a[p + 3] := v / 0x100_0000 % 256;
    Digits(v, 4);
  }

  method Int5Store(a: array<byte>, p: nat, v: int)
    requires p + 5 <= a.Length
    modifies a
    ensures a[..] == Stored(old(a[..]), p, 5, v)
  {
    a[p] := v % 256;
    a[p + 1] := v / 0x100 % 256;
    a[p + 2] := v / 0x1_0000 % 256;
    a[p + 3] := v / 0x100_0000 % 256;
    a[p + 4] := v / 0x1_0000_0000 % 256;
    Digits(v, 5);
  }

  method Int6Store(a: array<byte>, p: nat, v: int)
    requires p + 6 <= a.Length
    modifies a
    ensures a[..] == Stored(old(a[..]), p, 6, v)
  {
    a[p] := v % 256;
    a[p + 1] := v / 0x100 % 256;
    a[p + 2] := v / 0x1_0000 % 256;
    a[p + 3] := v / 0x100_0000 % 256;
    a[p + 4] := v / 0x1_0000_0000 % 256;
    a[p + 5] := v / 0x100_0000_0000 % 256;
    Digits(v, 6);
  }

  lemma {:induction false} TwoHalves(v: int, n: nat, k: nat)
    ensures ToLE(v, n + k) == ToLE(v, n) + ToLE(v / Pow256(n), k)
    decreases n
  {
    if n > 0 {
      TwoHalves(v / 256, n - 1, k);
      DivDiv(v, Pow256(n - 1));
    }
  }

  /** int8store: two 4-byte stores. */
  method Int8Store(a: array<byte>, p: nat, v: int)
    requires p + 8 <= a.Length
    modifies a
    ensures a[..] == Stored(old(a[..]), p, 8, v)
  {
    var temp := U32(v);
    var temp2 := U32(v / 0x1_0000_0000);
    Int4Store(a, p, temp);
    Int4Store(a, p + 4, temp2);
    TwoStores(old(a[..]), p, v);
  }

  lemma TwoStores(a: seq<byte>, p: nat, v: int)
    requires p + 8 <= |a|
    ensures Stored(Stored(a, p, 4, U32(v)), p + 4, 4, U32(v / 0x1_0000_0000)) == Stored(a, p, 8, v)
  {
    Pow256Table();
    LowBytes(U32(v), v, 4);
    LowBytes(U32(v / 0x1_0000_0000), v / 0x1_0000_0000, 4);
    TwoHalves(v, 4, 4);
    var once := Stored(a, p, 4, v);
    assert once[..p + 4] == a[..p] + ToLE(v, 4) && once[p + 8..] == a[p + 8..];
  }

  // ----- byte_order_generic_x86.h and byte_order_generic_x86_64.h -----

  /** A store through a pointer to an n-byte integer, on a little-endian machine. */
  method StoreWord(a: array<byte>, p: nat, n: nat, v: int)
    requires p + n <= a.Length
    modifies a
    ensures a[..] == Stored(old(a[..]), p, n, v)
  {
    var word := ToLE(v, n);
    forall i | 0 <= i < n { a[p + i] := word[i]; }
  }

  /** A load through a pointer to an n-byte unsigned integer, on a little-endian machine: the
      number of n bytes whose store would leave these bytes. */
  function LoadWord(b: seq<byte>, n: nat): (w: nat)
    requires n <= |b|
    ensures w < Pow256(n) && ToLE(w, n) == b[..n]
  {
    FromLEBound(b[..n]);
    ToFromLE(b[..n]);
    FromLE(b[..n])
  }

  method X86Int2Store(a: array<byte>, p: nat, v: int)
    requires p + 2 <= a.Length
    modifies a
    ensures a[..] == Stored(old(a[..]), p, 2, v)
  {
    StoreWord(a, p, 2, Unsigned(v, 16));
    LowBytesUnsigned(v, 2);
  }

  /** The middle byte goes through uint. */
  method X86Int3Store(a: array<byte>, p: nat, v: int)
    requires p + 3 <= a.Length
    modifies a
    ensures a[..] == Stored(old(a[..]), p, 3, v)
  {
    a[p] := v % 256;
    a[p + 1] := U32(v) / 0x100 % 256;
    a[p + 2] := v / 0x1_0000 % 256;
    Digits(v, 3);
    Digits(v, 4);
    Digits(U32(v), 4);
    LowBytes(U32(v), v, 4) by { Pow256Table(); }
  }

  method X86Int4Store(a: array<byte>, p: nat, v: int)
    requires p + 4 <= a.Length
    modifies a
    ensures a[..] == Stored(old(a[..]), p, 4, v)
  {
    StoreWord(a, p, 4, Signed(v, 32));
    LowBytesSigned(v, 4);
  }

  method X86Int8Store(a: array<byte>, p: nat, v: int)
    requires p + 8 <= a.Length
    modifies a
    ensures a[..] == Stored(old(a[..]), p, 8, v)
  {
    StoreWord(a, p, 8, Unsigned(v, 64));
    LowBytesUnsigned(v, 8);
  }

  /** The native loads agree with the bytewise ones on all bytes. */
  lemma NativeLoadsAgree(b: seq<byte>, signedChar: bool)
    ensures |b| >= 2 ==> Uint2korr(b) == LoadWord(b, 2) && Sint2korr(b, signedChar) == Signed(LoadWord(b, 2), 16)
    ensures |b| >= 4 ==> Uint4korr(b) == LoadWord(b, 4) && Sint4korr(b, signedChar) == Signed(LoadWord(b, 4), 32)
    ensures |b| >= 8 ==> Uint8korr(b) == LoadWord(b, 8) && Sint8korr(b) == Signed(LoadWord(b, 8), 64)
  {
    UnsignedLoads(b);
    SignedLoads(b, signedChar);
  }

  // ----- Round trips -----

  /** A store changes the bytes at p and no others. */
  lemma StoredBytes(a: seq<byte>, p: nat, n: nat, v: int)
    requires p + n <= |a|
    ensures Stored(a, p, n, v)[p..][..n] == ToLE(v, n)
    ensures forall i :: 0 <= i < |a| && !(p <= i < p + n) ==> Stored(a, p, n, v)[i] == a[i]
  {}

  /** The number that n stored bytes spell, and its two's complement. */
  lemma StoredNumber(v: int, n: nat)
    requires n > 0
    ensures FromLE(ToLE(v, n)) == Unsigned(v, 8 * n)
    ensures Signed(FromLE(ToLE(v, n)), 8 * n) == Signed(v, 8 * n)
  {
    FromToLE(v, n);
    Pow256IsPow2(n);
    SignedOfUnsigned(v, 8 * n);
  }

  lemma SignedOfUnsigned(v: int, bits: nat)
    requires bits > 0
    ensures Signed(v % Pow2(bits), bits) == Signed(v, bits)
  {
    ModUnique(v % Pow2(bits), Pow2(bits), 0, v % Pow2(bits));
  }

  /** Every load undoes the store of its width, modulo 2^(8n) or in two's complement, wherever the
      bytes lie, at the end of the buffer included. */
  lemma LoadAfterStore(a: seq<byte>, p: nat, v: int, signedChar: bool)
    ensures p + 2 <= |a| ==> var b := Stored(a, p, 2, v)[p..];
                             Uint2korr(b) == Unsigned(v, 16) && Sint2korr(b, signedChar) == Signed(v, 16)
    ensures p + 3 <= |a| ==> var b := Stored(a, p, 3, v)[p..];
                             Uint3korr(b) == Unsigned(v, 24) && Sint3korr(b) == Signed(v, 24)
    ensures p + 4 <= |a| ==> var b := Stored(a, p, 4, v)[p..];
                             Uint4korr(b) == Unsigned(v, 32) && Sint4korr(b, signedChar) == Signed(v, 32)
    ensures p + 5 <= |a| ==> Uint5korr(Stored(a, p, 5, v)[p..]) == Unsigned(v, 40)
    ensures p + 6 <= |a| ==> Uint6korr(Stored(a, p, 6, v)[p..]) == Unsigned(v, 48)
    ensures p + 8 <= |a| ==> var b := Stored(a, p, 8, v)[p..];
                             Uint8korr(b) == Unsigned(v, 64) && Sint8korr(b) == Signed(v, 64)
  {
    forall k: Kind | k.Supported() && p + k.width <= |a|
      ensures Load(k, Stored(a, p, k.width, v)[p..], signedChar) == k.Reduced(v)
    {
      LoadStored(k, a, p, v, signedChar);
    }
    assert Kind(2, false).Supported() && Kind(2, true).Supported() && Kind(3, false).Supported();
    assert Kind(3, true).Supported() && Kind(4, false).Supported() && Kind(4, true).Supported();
    assert Kind(5, false).Supported() && Kind(6, false).Supported();
    assert Kind(8, false).Supported() && Kind(8, true).Supported();
  }

  /** What is stored in a field and how it is read: one of the widths there is a macro for. */
  datatype Kind = Kind(width: nat, signed: bool) {
    predicate Supported() { width in {2, 3, 4, 8} || (width in {5, 6} && !signed) }

    /** The value of a field after v was stored in it. */
    function Reduced(v: int): int
      requires Supported()
    {
      if signed then Signed(v, 8 * width) else Unsigned(v, 8 * width)
    }

    predicate Holds(v: int)
      requires Supported()
    {
      if signed then -(Pow2(8 * width - 1) as int) <= v < Pow2(8 * width - 1) else 0 <= v < Pow2(8 * width)
    }
  }

  /** The macro for a kind of field. */
  function Load(k: Kind, b: seq<byte>, signedChar: bool): int
    requires k.Supported() && k.width <= |b|
  {
    if k.signed then
      if k.width == 2 then Sint2korr(b, signedChar)
      else if k.width == 3 then Sint3korr(b)
      else if k.width == 4 then Sint4korr(b, signedChar)
      else Sint8korr(b)
    else
      if k.width == 2 then Uint2korr(b)
      else if k.width == 3 then Uint3korr(b)
      else if k.width == 4 then Uint4korr(b)
      else if k.width == 5 then Uint5korr(b)
      else if k.width == 6 then Uint6korr(b)
      else Uint8korr(b)
  }

  lemma LoadIsNumber(k: Kind, b: seq<byte>, signedChar: bool)
    requires k.Supported() && k.width <= |b|
    ensures Load(k, b, signedChar)
            == if k.signed then Signed(FromLE(b[..k.width]), 8 * k.width) else FromLE(b[..k.width])
  {
    if k.signed { SignedLoads(b, signedChar); } else { UnsignedLoads(b); }
  }

  lemma LoadBytes(k: Kind, b: seq<byte>, v: int, signedChar: bool)
    requires k.Supported() && k.width <= |b| && b[..k.width] == ToLE(v, k.width)
    ensures Load(k, b, signedChar) == k.Reduced(v)
  {
    LoadIsNumber(k, b, signedChar);
    StoredNumber(v, k.width);
  }

  lemma LoadStored(k: Kind, a: seq<byte>, p: nat, v: int, signedChar: bool)
    requires k.Supported() && p + k.width <= |a|
    ensures Load(k, Stored(a, p, k.width, v)[p..], signedChar) == k.Reduced(v)
  {
    StoredBytes(a, p, k.width, v);
    LoadBytes(k, Stored(a, p, k.width, v)[p..], v, signedChar);
  }

  /** A field keeps a value if and only if it can hold it. */
  lemma KeptExactly(k: Kind, v: int)
    requires k.Supported()
    ensures k.Reduced(v) == v <==> k.Holds(v)
  {
    var m := Pow2(8 * k.width);
    assert m == 2 * Pow2(8 * k.width - 1);
    if 0 <= v < m { ModUnique(v, m, 0, v); }
    if -m <= v < 0 { ModUnique(v, m, -1, v + m); }
  }

  datatype Field = Field(kind: Kind, value: int)

  predicate AllSupported(fs: seq<Field>) { forall i :: 0 <= i < |fs| ==> fs[i].kind.Supported() }

  /** The fields one behind the other. */
  function Encode(fs: seq<Field>): seq<byte> {
    if fs == [] then [] else ToLE(fs[0].value, fs[0].kind.width) + Encode(fs[1..])
  }

  method StoreField(a: array<byte>, p: nat, f: Field)
    requires f.kind.Supported() && p + f.kind.width <= a.Length
    modifies a
    ensures a[..] == Stored(old(a[..]), p, f.kind.width, f.value)
  {
    match f.kind.width
    case 2 => Int2Store(a, p, f.value);
    case 3 => Int3Store(a, p, f.value);
    case 4 => Int4Store(a, p, f.value);
    case 5 => Int5Store(a, p, f.value);
    case 6 => Int6Store(a, p, f.value);
    case _ => Int8Store(a, p, f.value);
  }

  /** Stores fields back to back, from p on. */
  method StoreFields(a: array<byte>, p: nat, fs: seq<Field>)
    requires AllSupported(fs) && p + |Encode(fs)| <= a.Length
    modifies a
    ensures a[..] == Pasted(old(a[..]), p, Encode(fs))
    decreases |fs|
  {
    if fs == [] { return; }
    var f := fs[0];
    StoreField(a, p, f);
    StoreFields(a, p + f.kind.width, fs[1..]);
    PasteTwice(old(a[..]), p, ToLE(f.value, f.kind.width), Encode(fs[1..]));
  }

  /** Reading fields of the given kinds one after the other; too few bytes is Short. */
  datatype Decoded = Short | Values(values: seq<int>, rest: seq<byte>)

  function Decode(kinds: seq<Kind>, b: seq<byte>, signedChar: bool): Decoded
    requires forall i :: 0 <= i < |kinds| ==> kinds[i].Supported()
  {
    if kinds == [] then Values([], b)
    else if |b| < kinds[0].width then Short
    else
      match Decode(kinds[1..], b[kinds[0].width..], signedChar)
      case Short => Short
      case Values(vs, rest) => Values([Load(kinds[0], b, signedChar)] + vs, rest)
  }

  function Kinds(fs: seq<Field>): (ks: seq<Kind>)
    ensures |ks| == |fs| && forall i :: 0 <= i < |fs| ==> ks[i] == fs[i].kind
  {
    seq(|fs|, i requires 0 <= i < |fs| => fs[i].kind)
  }

  function ReducedValues(fs: seq<Field>): (vs: seq<int>)
    requires AllSupported(fs)
    ensures |vs| == |fs| && forall i :: 0 <= i < |fs| ==> vs[i] == fs[i].kind.Reduced(fs[i].value)
  {
    seq(|fs|, i requires 0 <= i < |fs| => fs[i].kind.Reduced(fs[i].value))
  }

  lemma DecodeFirst(f: Field, ks: seq<Kind>, b: seq<byte>, signedChar: bool)
    requires f.kind.Supported() && forall i :: 0 <= i < |ks| ==> ks[i].Supported()
    ensures Decode([f.kind] + ks, ToLE(f.value, f.kind.width) + b, signedChar) ==
              match Decode(ks, b, signedChar)
              case Short => Short
              case Values(vs, rest) => Values([f.kind.Reduced(f.value)] + vs, rest)
  {
    var all := ToLE(f.value, f.kind.width) + b;
    assert ([f.kind] + ks)[1..] == ks && all[f.kind.width..] == b;
    LoadBytes(f.kind, all, f.value, signedChar);
  }

  /** Any list of signed and unsigned fields laid out back to back reads back with the load macros as
      the same list, each value reduced to its field. */
  lemma {:induction false} FieldsRoundTrip(fs: seq<Field>, rest: seq<byte>, signedChar: bool)
    requires AllSupported(fs)
    ensures Decode(Kinds(fs), Encode(fs) + rest, signedChar) == Values(ReducedValues(fs), rest)
    decreases |fs|
  {
    if fs == [] {
      assert Encode(fs) + rest == rest;
    } else {
      var f, tail := fs[0], fs[1..];
      FieldsRoundTrip(tail, rest, signedChar);
      DecodeFirst(f, Kinds(tail), Encode(tail) + rest, signedChar);
      FirstField(fs, rest);
    }
  }

  lemma {:induction false} FirstField(fs: seq<Field>, rest: seq<byte>)
    requires AllSupported(fs) && fs != []
    ensures Kinds(fs) == [fs[0].kind] + Kinds(fs[1..])
    ensures ReducedValues(fs) == [fs[0].kind.Reduced(fs[0].value)] + ReducedValues(fs[1..])
    ensures Encode(fs) + rest == ToLE(fs[0].value, fs[0].kind.width) + (Encode(fs[1..]) + rest)
  {
    var first, tail := ToLE(fs[0].value, fs[0].kind.width), Encode(fs[1..]);
    assert (first + tail) + rest == first + (tail + rest);
  }

  /** What StoreFields left in a buffer reads back as the same list of values if and only if every
      field can hold its value. */
  lemma FieldsKeptExactly(t: seq<byte>, p: nat, fs: seq<Field>, values: seq<int>, signedChar: bool)
    requires AllSupported(fs) && p + |Encode(fs)| <= |t|
    requires |values| == |fs| && forall i :: 0 <= i < |fs| ==> values[i] == fs[i].value
    ensures Decode(Kinds(fs), Pasted(t, p, Encode(fs))[p..], signedChar) == Values(values, t[p + |Encode(fs)|..])
            <==> forall i :: 0 <= i < |fs| ==> fs[i].kind.Holds(fs[i].value)
  {
    var rest := t[p + |Encode(fs)|..];
    assert Pasted(t, p, Encode(fs))[p..] == Encode(fs) + rest;
    FieldsRoundTrip(fs, rest, signedChar);
    forall i | 0 <= i < |fs| ensures ReducedValues(fs)[i] == values[i] <==> fs[i].kind.Holds(fs[i].value) {
      KeptExactly(fs[i].kind, fs[i].value);
    }
  }
}
