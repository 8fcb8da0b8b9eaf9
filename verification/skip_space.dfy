/** skip_trailing_space of m_string.h: a scan by words that trims the spaces at the end of a text.

    The text lies at address `ptr` of a memory with `bits`-bit pointers and `w`-byte ints. Bytes
    and words are read through `ByteAt` and `WordAt`, which may be called only inside the text
    and, for words, only at aligned addresses: that the method verifies is the proof that it
    never reads elsewhere. */
module SkipSpace {
  import opened Bytes
  import opened Bits
  import opened Align

  const SPACE: byte := 0x20

  /** A machine: the size of int and of pointers, and the byte order. */
  datatype Machine = Machine(w: nat, bits: nat, bigEndian: bool) {
    predicate Valid() { (w == 4 || w == 8) && (bits == 32 || bits == 64) }

    /** SPACE_INT. */
    function SpaceInt(): nat { if w == 4 then 0x20202020 else 0x2020202020202020 }

    function AddressSpace(): nat { if bits == 32 then 0x1_0000_0000 else 0x1_0000_0000_0000_0000 }

    /** What sign extension to 64 bits adds to a pointer in the upper half. */
    function HighBits(): nat { 0x1_0000_0000_0000_0000 - AddressSpace() }

    /** (ulonglong)(intptr) p: intptr is signed. */
    function Widen(p: nat): nat
      requires p < AddressSpace()
    {
      if 2 * p < AddressSpace() then p else p + HighBits()
    }

    /** (const uchar *)(intptr) v. */
    function Narrow(v: nat): nat { v % AddressSpace() }
  }

  function EndWords(m: Machine, end: nat): nat
    requires m.Valid() && end < m.AddressSpace()
  {
    m.Narrow(RoundDown(m.Widen(end), m.w))
  }

  function StartWords(m: Machine, ptr: nat): nat
    requires m.Valid() && ptr < m.AddressSpace()
  {
    m.Narrow(RoundDown((m.Widen(ptr) + m.w - 1) % 0x1_0000_0000_0000_0000, m.w))
  }

  /** Adding the high bits commutes with rounding down and disappears in the cast back. */
  lemma HighBitsHarmless(m: Machine, p: nat, high: bool)
    requires m.Valid() && p < m.AddressSpace()
    ensures m.Narrow(RoundDown(if high then p + m.HighBits() else p, m.w)) == p - p % m.w
  {
    var words := if m.bits == 64 then 0 else if m.w == 4 then 0x3FFF_FFFF_C000_0000 else 0x1FFF_FFFF_E000_0000;
    var spaces := if m.bits == 64 then 0 else 0xFFFF_FFFF;
    assert m.HighBits() == m.w * words && m.HighBits() == m.AddressSpace() * spaces;
    RoundDownMod(p, m.w);
    RoundDownMod(p + m.HighBits(), m.w);
    assert p == m.w * (p / m.w) + p % m.w;
    assert m.w * (words + p / m.w) == m.w * words + m.w * (p / m.w);
    ModUnique(p + m.HighBits(), m.w, words + p / m.w, p % m.w);
    ModUnique(p - p % m.w, m.AddressSpace(), 0, p - p % m.w);
    ModUnique(p - p % m.w + m.HighBits(), m.AddressSpace(), spaces, p - p % m.w);
  }

  lemma RoundedMultiple(p: nat, w: nat)
    requires w > 0
    ensures p % w <= p && (p - p % w) % w == 0
  {
    RoundDownMod(p, w);
  }

  /** end_words is the last multiple of w up to end. */
  lemma EndWordsRounds(m: Machine, end: nat)
    requires m.Valid() && end < m.AddressSpace()
    ensures var e := EndWords(m, end); e % m.w == 0 && e <= end < e + m.w
  {
    HighBitsHarmless(m, end, 2 * end >= m.AddressSpace());
    RoundedMultiple(end, m.w);
  }

  /** start_words is the first multiple of w from ptr on, if there is one in the address space. */
  lemma StartWordsRounds(m: Machine, ptr: nat)
    requires m.Valid() && ptr + m.w <= m.AddressSpace()
    ensures var s := StartWords(m, ptr); s % m.w == 0 && ptr <= s < ptr + m.w
  {
    var up := ptr + m.w - 1;
    assert (m.Widen(ptr) + m.w - 1) % 0x1_0000_0000_0000_0000 == m.Widen(ptr) + m.w - 1;
    HighBitsHarmless(m, up, 2 * ptr >= m.AddressSpace());
    RoundedMultiple(up, m.w);
  }

  function ByteAt(s: seq<byte>, ptr: nat, a: nat): byte
    requires ptr <= a < ptr + |s|
  {
    s[a - ptr]
  }

  function WordAt(s: seq<byte>, ptr: nat, a: nat, m: Machine): nat
    requires m.Valid() && a % m.w == 0
    requires ptr <= a && a + m.w <= ptr + |s|
  {
    var word := s[a - ptr..a - ptr + m.w];
    FromLE(if m.bigEndian then Reverse(word) else word)
  }

  predicate AllSpaces(s: seq<byte>) { forall i :: 0 <= i < |s| ==> s[i] == SPACE }

  function Spaces(n: nat): (s: seq<byte>)
    ensures |s| == n && AllSpaces(s)
  {
    seq(n, _ => SPACE)
  }

  lemma OneMoreSpace(n: nat)
    ensures FromLE(Spaces(n + 1)) == 0x20 + 256 * FromLE(Spaces(n))
  {
    assert Spaces(n + 1)[1..] == Spaces(n);
  }

  lemma SpaceIntIsSpaces(m: Machine)
    requires m.Valid()
    ensures FromLE(Spaces(m.w)) == m.SpaceInt()
  {
    OneMoreSpace(0); OneMoreSpace(1); OneMoreSpace(2); OneMoreSpace(3);
    OneMoreSpace(4); OneMoreSpace(5); OneMoreSpace(6); OneMoreSpace(7);
  }

  /** One comparison with SPACE_INT is w comparisons with a space, in either byte order. */
  lemma WordCompare(s: seq<byte>, ptr: nat, a: nat, m: Machine)
    requires m.Valid() && a % m.w == 0
    requires ptr <= a && a + m.w <= ptr + |s|
    ensures WordAt(s, ptr, a, m) == m.SpaceInt() <==> AllSpaces(s[a - ptr..a - ptr + m.w])
  {
    var word := s[a - ptr..a - ptr + m.w];
    var stored := if m.bigEndian then Reverse(word) else word;
    SpaceIntIsSpaces(m);
    if AllSpaces(word) {
      assert stored == Spaces(m.w);
    }
    if WordAt(s, ptr, a, m) == m.SpaceInt() {
      FromLEInjective(stored, Spaces(m.w));
      forall i | 0 <= i < |word| ensures word[i] == SPACE {
        assert stored[m.w - 1 - i] == SPACE && stored[i] == SPACE;
      }
    }
  }

  predicate SpacesFrom(s: seq<byte>, k: int) { forall i :: 0 <= k <= i < |s| ==> s[i] == SPACE }

  /** What one iteration of the word loop learns: a word of spaces, or a byte that is none. */
  lemma WordTest(s: seq<byte>, ptr: nat, a: nat, m: Machine) returns (stop: nat)
    requires m.Valid() && a % m.w == 0
    requires ptr <= a && a + m.w <= ptr + |s|
    ensures WordAt(s, ptr, a, m) == m.SpaceInt() && SpacesFrom(s, a + m.w - ptr) ==> SpacesFrom(s, a - ptr)
    ensures WordAt(s, ptr, a, m) != m.SpaceInt() ==> a < stop <= a + m.w && s[stop - 1 - ptr] != SPACE
  {
    WordCompare(s, ptr, a, m);
    var word := s[a - ptr..a - ptr + m.w];
    stop := a;
    if WordAt(s, ptr, a, m) != m.SpaceInt() {
      var i :| 0 <= i < m.w && word[i] != SPACE;
      stop := a + i + 1;
    } else {
      forall i | a - ptr <= i < a - ptr + m.w ensures s[i] == SPACE {
        assert s[i] == word[i - (a - ptr)];
      }
    }
  }

  lemma AlignedBelow(end: nat, start: nat, w: nat)
    requires w > 0 && end % w == 0 && start % w == 0 && start < end
    ensures start + w <= end && (end - w) % w == 0
  {
    MultiplesApart(start, end, w);
    assert end == w * (end / w);
    ModUnique(end - w, w, end / w - 1, 0);
  }

  /** The bytes that k words of w bytes cover. */
  ghost function Covered(w: nat, k: nat): nat { if k == 0 then 0 else w + Covered(w, k - 1) }

  lemma {:induction false} QuotientBound(w: nat, k: nat, len: nat)
    requires w > 0 && Covered(w, k) <= len
    ensures k <= len / w
  {
    if k > 0 {
      QuotientBound(w, k - 1, len - w);
      assert len - w == w * ((len - w) / w) + (len - w) % w;
      ModUnique(len, w, (len - w) / w + 1, (len - w) % w);
    }
  }

  /** The naive backward loop. */
  function Trim(s: seq<byte>): (t: seq<byte>)
    ensures |t| <= |s|
  {
    if s != [] && s[|s| - 1] == SPACE then Trim(s[..|s| - 1]) else s
  }

  /** Dropping spaces from the end does not change what the naive loop returns. */
  lemma {:induction false} TrimSuffix(s: seq<byte>, n: nat)
    requires n <= |s| && SpacesFrom(s, n)
    ensures Trim(s) == Trim(s[..n])
    decreases |s|
  {
    if n == |s| {
      assert s[..n] == s;
    } else {
      TrimSuffix(s[..|s| - 1], n);
      assert s[..|s| - 1][..n] == s[..n];
    }
  }

  /** The naive loop returns the shortest prefix after which there are only spaces. */
  lemma {:induction false} TrimShortest(s: seq<byte>, n: nat)
    requires n <= |s|
    ensures Trim(s) == s[..|Trim(s)|] && SpacesFrom(s, |Trim(s)|)
    ensures SpacesFrom(s, n) ==> |Trim(s)| <= n
    decreases |s|
  {
    if s != [] && s[|s| - 1] == SPACE {
      var r := s[..|s| - 1];
      TrimShortest(r, if n < |s| then n else 0);
      assert s[..|Trim(r)|] == r[..|Trim(r)|];
    } else {
      assert s == s[..|s|];
    }
  }

  /** The word loop, and the address `stop` below which the byte loop after it will not go. */
  method ScanWords(s: seq<byte>, ptr: nat, endWords: nat, startWords: nat, m: Machine)
    returns (end: nat, ghost stop: nat, ghost words: nat)
    requires m.Valid() && ptr <= startWords <= endWords <= ptr + |s|
    requires startWords % m.w == 0 && endWords % m.w == 0 && startWords < ptr + m.w
    requires SpacesFrom(s, endWords - ptr)
    ensures ptr <= stop <= end <= ptr + |s| && SpacesFrom(s, end - ptr)
    ensures stop == ptr || s[stop - 1 - ptr] != SPACE
    ensures end - stop < m.w && words <= |s| / m.w
  {
    end, words := endWords, 0;
    while end > startWords && (AlignedBelow(end, startWords, m.w); WordAt(s, ptr, end - m.w, m) == m.SpaceInt())
      invariant startWords <= end <= endWords && end % m.w == 0
      invariant SpacesFrom(s, end - ptr)
      invariant Covered(m.w, words) == endWords - end
    {
      AlignedBelow(end, startWords, m.w);
      var _ := WordTest(s, ptr, end - m.w, m);
      end := end - m.w;
      words := words + 1;
    }
    QuotientBound(m.w, words, |s|);
    stop := ptr;
    if end > startWords {
      AlignedBelow(end, startWords, m.w);
      stop := WordTest(s, ptr, end - m.w, m);
    }
  }

  /** The branch for texts of more than 20 bytes. Its two guards always hold. */
  method SkipLong(s: seq<byte>, ptr: nat, m: Machine) returns (end: nat, ghost stop: nat, ghost steps: nat)
    requires m.Valid() && ptr + |s| < m.AddressSpace() && |s| > 20
    ensures ptr <= stop <= end <= ptr + |s| && SpacesFrom(s, end - ptr)
    ensures stop == ptr || s[stop - 1 - ptr] != SPACE
    ensures end - stop < m.w && steps <= m.w - 1 + |s| / m.w
  {
    end, steps := ptr + |s|, 0;
    var endWords := EndWords(m, end);
    var startWords := StartWords(m, ptr);
    EndWordsRounds(m, end);
    StartWordsRounds(m, ptr);
    assert endWords > ptr && startWords < endWords;
    stop := end;
    if endWords > ptr {
      while end > endWords && ByteAt(s, ptr, end - 1) == SPACE
        invariant endWords <= end <= ptr + |s|
        invariant SpacesFrom(s, end - ptr)
        invariant steps == ptr + |s| - end
      {
        end := end - 1;
        steps := steps + 1;
      }
      stop := end;
      if ByteAt(s, ptr, end - 1) == SPACE && startWords < endWords {
        ghost var words;
        end, stop, words := ScanWords(s, ptr, endWords, startWords, m);
        steps := steps + words;
      }
    }
  }

  /** The result is the end of what the naive loop leaves, for every address, length, content,
      alignment, word size, pointer size and byte order. `steps` counts loop iterations. */
  method SkipTrailingSpace(s: seq<byte>, ptr: nat, m: Machine) returns (end: nat, ghost steps: nat)
    requires m.Valid() && ptr + |s| < m.AddressSpace()
    ensures end == ptr + |Trim(s)|
    ensures |s| > 20 ==> steps <= |s| / m.w + 2 * (m.w - 1)
    ensures |s| <= 20 ==> steps <= |s|
  {
    end := ptr + |s|;
    steps := 0;
    ghost var stop := ptr;
    if |s| > 20 {
      end, stop, steps := SkipLong(s, ptr, m);
    }
    ghost var middle, base := end, steps;
    while end > ptr && ByteAt(s, ptr, end - 1) == SPACE
      invariant stop <= end <= middle
      invariant SpacesFrom(s, end - ptr)
      invariant steps == base + (middle - end)
    {
      end := end - 1;
      steps := steps + 1;
    }
    TrimSuffix(s, end - ptr);
  }
}
