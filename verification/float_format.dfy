/** float4 and float8 in machine-independent format, and shorts and longs in machine format: the
    macros of big_endian.h, little_endian.h and byte_order_generic_x86.h.

    A number is its bit pattern; a host keeps it in memory as the bytes `Rep`. */
module FloatFormat {
  import opened Bits
  import opened Bytes
  import opened Korr

  /** Mixed hosts keep integers little-endian and the two words of a double big word first. */
  datatype Host = Big | Little | Mixed

  /** How a host keeps an n-byte number (n == 8: a double) in memory. */
  function Rep(h: Host, bits: nat, n: nat): (r: seq<byte>)
    ensures |r| == n
  {
    var le := ToLE(bits, n);
    match h
    case Big => Reverse(le)
    case Little => le
    case Mixed => if n == 8 then le[4..] + le[..4] else le
  }

  lemma {:induction false} ReverseTwice(b: seq<byte>)
    ensures Reverse(Reverse(b)) == b
  {
    var r := Reverse(b);
    assert forall i :: 0 <= i < |b| ==> Reverse(r)[i] == r[|b| - 1 - i];
  }

  /** Different bit patterns have different bytes: a host's bytes determine the number. */
  lemma RepInjective(h: Host, x: nat, y: nat, n: nat)
    requires x < Pow256(n) && y < Pow256(n) && Rep(h, x, n) == Rep(h, y, n)
    ensures x == y
  {
    var a, b := ToLE(x, n), ToLE(y, n);
    assert a == b by {
      match h
      case Big =>
        ReverseTwice(a);
        ReverseTwice(b);
      case Little =>
      case Mixed =>
        if n == 8 {
          assert a == (a[4..] + a[..4])[4..] + (a[4..] + a[..4])[..4];
          assert b == (b[4..] + b[..4])[4..] + (b[4..] + b[..4])[..4];
        }
    }
    FromToLE(x, n);
    FromToLE(y, n);
    ModUnique(x, Pow256(n), 0, x);
    ModUnique(y, Pow256(n), 0, y);
  }

  function SwapWords(b: seq<byte>): seq<byte>
    requires |b| == 8
  {
    b[4..] + b[..4]
  }

  /** What float4store and float8store write for the bytes of a number in memory, and what
      float4get and float8get put into memory for bytes read: each host has one rearrangement. */
  function Rearranged(h: Host, b: seq<byte>): seq<byte> {
    match h
    case Big => Reverse(b)
    case Little => b
    case Mixed => if |b| == 8 then SwapWords(b) else b
  }

  // ----- big_endian.h: floats -----

  method BigFloat4Store(t: array<byte>, p: nat, rep: seq<byte>)
    requires p + 4 <= t.Length && |rep| == 4
    modifies t
    ensures t[..] == Pasted(old(t[..]), p, Rearranged(Big, rep))
  {
    t[p] := rep[3];
    t[p + 1] := rep[2];
    t[p + 2] := rep[1];
    t[p + 3] := rep[0];
  }

  method BigFloat8Store(t: array<byte>, p: nat, rep: seq<byte>)
    requires p + 8 <= t.Length && |rep| == 8
    modifies t
    ensures t[..] == Pasted(old(t[..]), p, Rearranged(Big, rep))
  {
    ghost var s := Rearranged(Big, rep);
    t[p] := rep[7];
    t[p + 1] := rep[6];
    t[p + 2] := rep[5];
    t[p + 3] := rep[4];
    t[p + 4] := rep[3];
    t[p + 5] := rep[2];
    t[p + 6] := rep[1];
    t[p + 7] := rep[0];
    PastedByIndex(old(t[..]), t[..], p, s);
  }

  method BigFloat4Get(m: seq<byte>) returns (rep: seq<byte>)
    requires |m| >= 4
    ensures rep == Rearranged(Big, m[..4])
  {
    var temp := new byte[4];
    temp[0] := m[3];
    temp[1] := m[2];
    temp[2] := m[1];
    temp[3] := m[0];
    rep := temp[..];
  }

  method BigFloat8Get(m: seq<byte>) returns (rep: seq<byte>)
    requires |m| >= 8
    ensures rep == Rearranged(Big, m[..8])
  {
    var temp := new byte[8];
    temp[0] := m[7];
    temp[1] := m[6];
    temp[2] := m[5];
    temp[3] := m[4];
    temp[4] := m[3];
    temp[5] := m[2];
    temp[6] := m[1];
    temp[7] := m[0];
    rep := temp[..];
  }

  // ----- little_endian.h: floats -----

  method Memcpy(t: array<byte>, p: nat, s: seq<byte>)
    requires p + |s| <= t.Length
    modifies t
    ensures t[..] == Pasted(old(t[..]), p, s)
  {
    forall i | 0 <= i < |s| { t[p + i] := s[i]; }
  }

  /** float4store, and doublestore without the mixed word order. */
  method LittleFloatStore(t: array<byte>, p: nat, rep: seq<byte>)
    requires p + |rep| <= t.Length
    modifies t
    ensures t[..] == Pasted(old(t[..]), p, Rearranged(Little, rep))
  {
    Memcpy(t, p, rep);
  }

  /** doublestore on a host with mixed word order. */
  method MixedDoubleStore(t: array<byte>, p: nat, rep: seq<byte>)
    requires p + 8 <= t.Length && |rep| == 8
    modifies t
    ensures t[..] == Pasted(old(t[..]), p, Rearranged(Mixed, rep))
  {
    ghost var s := Rearranged(Mixed, rep);
    t[p] := rep[4];
    t[p + 1] := rep[5];
    t[p + 2] := rep[6];
    t[p + 3] := rep[7];
    t[p + 4] := rep[0];
    t[p + 5] := rep[1];
    t[p + 6] := rep[2];
    t[p + 7] := rep[3];
    PastedByIndex(old(t[..]), t[..], p, s);
  }

  method MixedDoubleGet(m: seq<byte>) returns (rep: seq<byte>)
    requires |m| >= 8
    ensures rep == Rearranged(Mixed, m[..8])
  {
    var temp := new byte[8];
    temp[0] := m[4];
    temp[1] := m[5];
    temp[2] := m[6];
    temp[3] := m[7];
    temp[4] := m[0];
    temp[5] := m[1];
    temp[6] := m[2];
    temp[7] := m[3];
    rep := temp[..];
  }

  // ----- byte_order_generic_x86.h: doubles as two 4-byte longs -----

  method X86DoubleStore(t: array<byte>, p: nat, rep: seq<byte>)
    requires p + 8 <= t.Length && |rep| == 8
    modifies t
    ensures t[..] == Pasted(old(t[..]), p, Rearranged(Little, rep))
  {
    var m0, m1 := LoadWord(rep, 4), LoadWord(rep[4..], 4);
    StoreWord(t, p, 4, m0);
    StoreWord(t, p + 4, 4, m1);
    TwoLongs(old(t[..]), p, rep);
  }

  lemma TwoLongs(t: seq<byte>, p: nat, rep: seq<byte>)
    requires p + 8 <= |t| && |rep| == 8
    ensures Stored(Stored(t, p, 4, LoadWord(rep, 4)), p + 4, 4, LoadWord(rep[4..], 4)) == Pasted(t, p, rep)
  {
    var x, y := rep[..4], rep[4..];
    assert ToLE(LoadWord(rep, 4), 4) == x && ToLE(LoadWord(rep[4..], 4), 4) == y by { LongByLong(rep); }
    assert rep == x + y;
    PasteTwice(t, p, x, y);
  }

  method X86DoubleGet(m: seq<byte>) returns (rep: seq<byte>)
    requires |m| >= 8
    ensures rep == Rearranged(Little, m[..8])
  {
    var m0, m1 := LoadWord(m, 4), LoadWord(m[4..], 4);
    rep := ToLE(m0, 4) + ToLE(m1, 4);
    LongByLong(m);
  }

  /** Moving a double as two 4-byte words copies it. */
  lemma LongByLong(b: seq<byte>)
    requires |b| >= 8
    ensures ToLE(LoadWord(b, 4), 4) == b[..4]
    ensures ToLE(LoadWord(b[4..], 4), 4) == b[4..8]
  {
    ToFromLE(b[..4]);
    ToFromLE(b[4..][..4]);
    assert b[4..][..4] == b[4..8];
  }

  // ----- Any host reads what any host wrote -----

  /** Every host stores the same bytes for the same bit pattern: those of the little-endian
      format. Every host's get turns those bytes into its own representation of that pattern. */
  lemma HostsAgree(h: Host, bits: nat, n: nat)
    ensures Rearranged(h, Rep(h, bits, n)) == ToLE(bits, n)
    ensures Rearranged(h, ToLE(bits, n)) == Rep(h, bits, n)
  {
    ReverseTwice(ToLE(bits, n));
  }

  /** Which digit, from the least significant on, is the i-th byte. */
  function DigitAt(h: Host, n: nat, i: nat): (k: nat)
    requires i < n
    ensures k < n
  {
    match h
    case Big => n - 1 - i
    case Little => i
    case Mixed => if n == 8 then (i + 4) % 8 else i
  }

  lemma RearrangedAt(h: Host, b: seq<byte>, i: nat)
    requires i < |b|
    ensures |Rearranged(h, b)| == |b| && Rearranged(h, b)[i] == b[DigitAt(h, |b|, i)]
  {
    match h
    case Mixed => if |b| == 8 { assert (b[4..] + b[..4])[i] == b[DigitAt(h, 8, i)]; }
    case _ =>
  }

  /** Byte by byte: a big-endian host has the most significant byte first, a little-endian one last,
      and a mixed one exchanges the halves of a double. */
  lemma RepDigits(h: Host, bits: nat, n: nat, i: nat)
    requires i < n
    ensures Rep(h, bits, n)[i] == bits / Pow256(DigitAt(h, n, i)) % 256
  {
    HostsAgree(h, bits, n);
    RearrangedAt(h, ToLE(bits, n), i);
    Digit(bits, n, DigitAt(h, n, i));
  }

  /** Whatever bytes are read, they are the representation of the number they spell. */
  lemma GetIsTotal(h: Host, m: seq<byte>)
    ensures Rearranged(h, m) == Rep(h, FromLE(m), |m|)
  {
    ToFromLE(m);
  }

  /** A number stored by one host at p is the number any other host gets from there. */
  lemma CrossHost(writer: Host, reader: Host, t: seq<byte>, p: nat, n: nat, bits: nat)
    requires p + n <= |t| && bits < Pow256(n)
    ensures |Rearranged(writer, Rep(writer, bits, n))| == n
    ensures var file := Pasted(t, p, Rearranged(writer, Rep(writer, bits, n)));
            && Rearranged(reader, file[p..p + n]) == Rep(reader, bits, n)
            && forall y: nat :: y < Pow256(n) && Rep(reader, y, n) == Rearranged(reader, file[p..p + n]) ==> y == bits
  {
    HostsAgree(writer, bits, n);
    HostsAgree(reader, bits, n);
    var file := Pasted(t, p, ToLE(bits, n));
    assert file[p..p + n] == ToLE(bits, n);
    forall y: nat | y < Pow256(n) && Rep(reader, y, n) == Rep(reader, bits, n) ensures y == bits {
      RepInjective(reader, y, bits, n);
    }
  }

  // ----- Shorts and longs in machine format -----

  /** shortget and longget of big_endian.h; those of little_endian.h are sint2korr, sint4korr. */
  function BigShortGet(m: seq<byte>, signedChar: bool): int
    requires |m| >= 2
  {
    Signed(Uchar(m[1]) + CharValue(m[0], signedChar) * 0x100, 16)
  }

  lemma ShortDigits(v: int)
    ensures Rep(Big, Unsigned(v, 16), 2) == [U32(v) / 0x100 % 256, U32(v) % 256]
  {
    Digits(U32(v), 2);
    LowBytes(U32(v), v, 2) by { Pow256Table(); }
    LowBytesUnsigned(v, 2);
  }

  method BigShortStore(t: array<byte>, p: nat, v: int)
    requires p + 2 <= t.Length
    modifies t
    ensures t[..] == Pasted(old(t[..]), p, Rep(Big, Unsigned(v, 16), 2))
  {
    ghost var s := Rep(Big, Unsigned(v, 16), 2);
    var temp := U32(v);
    ShortDigits(v);
    t[p + 1] := temp % 256;
    t[p] := temp / 0x100 % 256;
    PastedByIndex(old(t[..]), t[..], p, s);
  }

  method BigLongStore(t: array<byte>, p: nat, v: int)
    requires p + 4 <= t.Length
    modifies t
    ensures t[..] == Pasted(old(t[..]), p, Rep(Big, Unsigned(v, 32), 4))
  {
    t[p + 3] := v % 256;
    t[p + 2] := v / 0x100 % 256;
    t[p + 1] := v / 0x1_0000 % 256;
    t[p] := v / 0x100_0000 % 256;
    Digits(v, 4);
    LowBytesUnsigned(v, 4);
  }

  /** longget copies the bytes of the host's own int32. */
  method BigLongGet(m: seq<byte>) returns (rep: seq<byte>)
    requires |m| >= 4
    ensures rep == m[..4]
  {
    var temp := new byte[4];
    temp[0] := m[0];
    temp[1] := m[1];
    temp[2] := m[2];
    temp[3] := m[3];
    rep := temp[..];
  }

  /** On a big-endian host shortget undoes shortstore, for values of either sign. */
  lemma BigShortRoundTrip(v: int, signedChar: bool)
    ensures BigShortGet(Rep(Big, Unsigned(v, 16), 2), signedChar) == Signed(v, 16)
  {
    var m := Rep(Big, Unsigned(v, 16), 2);
    var le := ToLE(v, 2);
    assert Reverse(le) == m by { LowBytesUnsigned(v, 2); }
    MirroredShort(le, signedChar);
    assert le[..2] == le;
    Sint2IsSigned(le, signedChar);
    FromToLE(v, 2);
    Pow256IsPow2(2);
    SignedOfUnsigned(v, 16);
  }

  lemma MirroredShort(le: seq<byte>, signedChar: bool)
    requires |le| == 2
    ensures BigShortGet(Reverse(le), signedChar) == Sint2korr(le, signedChar)
  {
    assert Reverse(le)[0] == le[1] && Reverse(le)[1] == le[0];
  }

}
