/** IO_CACHE of my_sys.h: the macros that read and write through a buffer.

    The fast paths are the macros. The slow paths, read_function and write_function, have no body
    in the repository: they are specified by the comments on the IO_CACHE fields (`SlowRead`,
    `SlowWrite`) and every result about runs holds for all that meet these; the classes contain
    one simple refill and one simple flush that do. Pointers are offsets from the buffer. */
module IoCache {
  import opened Bytes

  const MY_B_EOF: int := -0x8000_0000

  function Min(a: nat, b: nat): nat { if a < b then a else b }

  /** What reading count bytes at pos from the plain file gives: less at the end of file. */
  function Plain(file: seq<byte>, pos: nat, count: nat): (r: seq<byte>)
    ensures |r| <= count
  {
    if pos + count <= |file| then file[pos..pos + count]
    else if pos <= |file| then file[pos..]
    else []
  }

  // ----- READ_CACHE -----

  /** The state of a read cache: `window` is the valid part of the buffer, from request_pos to
      read_end, and `at` is read_pos counted from request_pos. */
  datatype ReadState = ReadState(file: seq<byte>, posInFile: nat, window: seq<byte>, at: nat) {
    /** my_b_tell. */
    function Tell(): nat { posInFile + at }

    /** The buffer equals the file at pos_in_file. */
    ghost predicate Good() { at <= |window| && window == Plain(file, posInFile, |window|) }

    /** Something is left to be read from the buffer, or the file is at its end. */
    predicate Loaded() { at < |window| || Tell() >= |file| }
  }

  datatype ReadOp = Read(count: nat) | Get | Fill {
    function Count(): nat { if Read? then count else if Get? then 1 else 0 }
  }

  /** read_function: fetch what is not in the buffer; short only at the end of file. */
  ghost predicate SlowRead(s: ReadState, count: nat, s': ReadState, out: seq<byte>) {
    && s'.file == s.file && s'.Good()
    && out == Plain(s.file, s.Tell(), count)
    && s'.Tell() == s.Tell() + |out|
  }

  /** Whether a macro is done without read_function, or calls it, and on what. */
  datatype Fetch = Hit | Miss(from: ReadState, count: nat)

  /** my_b_read, my_b_get and my_b_fill_cache. */
  ghost predicate ReadStep(s: ReadState, op: ReadOp, fetch: Fetch, s': ReadState, out: seq<byte>) {
    s.at <= |s.window| &&
    match op
    case Read(count) =>
      if s.at + count <= |s.window|
      then fetch == Hit && s' == s.(at := s.at + count) && out == s.window[s.at..s.at + count]
      else fetch == Miss(s, count) && SlowRead(s, count, s', out)
    case Get =>
      if s.at != |s.window|
      then fetch == Hit && s' == s.(at := s.at + 1) && out == [s.window[s.at]]
      else fetch == Miss(s, 1) && SlowRead(s, 1, s', out)
    case Fill =>
      && fetch == Miss(s.(window := s.window[..s.at]), 0)
      && SlowRead(fetch.from, 0, s', out) && s'.Loaded()
  }

  /** read_function is called if and only if the data is not all in the buffer, or to fill it; for
      that, nothing is left in the buffer. A hit moves the position within the buffer and leaves
      the buffer alone. */
  lemma MissesExactly(s: ReadState, op: ReadOp, fetch: Fetch, s': ReadState, out: seq<byte>)
    requires ReadStep(s, op, fetch, s', out)
    ensures fetch.Miss? <==> op.Fill? || op.Count() > |s.window| - s.at
    ensures fetch.Hit? ==> s'.Tell() == s.Tell() + op.Count() && s'.window == s.window && s'.posInFile == s.posInFile
    ensures fetch.Miss? ==> fetch.count == op.Count() && fetch.from.Tell() == s.Tell()
    ensures fetch.Miss? ==> if op.Fill? then fetch.from.at == |fetch.from.window| else fetch.from == s
  {}

  lemma PlainPart(file: seq<byte>, pos: nat, n: nat, i: nat, k: nat)
    requires i + k <= n && |Plain(file, pos, n)| == n
    ensures Plain(file, pos, n)[i..i + k] == Plain(file, pos + i, k)
  {
    if k > 0 {
      assert Plain(file, pos, n) == file[pos..pos + n];
      assert file[pos..pos + n][i..i + k] == file[pos + i..pos + i + k];
    }
  }

  /** Hit or miss, a step delivers what the plain file has at the old position, moves the position
      by as much, and leaves the buffer equal to the file. */
  lemma StepReadsFile(s: ReadState, op: ReadOp, fetch: Fetch, s': ReadState, out: seq<byte>)
    requires s.Good() && ReadStep(s, op, fetch, s', out)
    ensures s'.Good() && s'.file == s.file
    ensures out == Plain(s.file, s.Tell(), op.Count())
    ensures s'.Tell() == s.Tell() + |out|
  {
    if op.Read? && s.at + op.count <= |s.window| {
      PlainPart(s.file, s.posInFile, |s.window|, s.at, op.count);
    } else if op.Get? && s.at != |s.window| {
      PlainPart(s.file, s.posInFile, |s.window|, s.at, 1);
      assert [s.window[s.at]] == s.window[s.at..s.at + 1];
    }
  }

  /** A run of reads: each call, how it got its bytes, the bytes and the state after it. */
  datatype ReadRun = End | Then(op: ReadOp, fetch: Fetch, out: seq<byte>, after: ReadState, rest: ReadRun) {
    function Delivered(): seq<byte> { if End? then [] else out + rest.Delivered() }

    function Last(s: ReadState): ReadState { if End? then s else rest.Last(after) }

    /** The run is one of the cache, starting from s. */
    ghost predicate Of(s: ReadState) { Then? ==> ReadStep(s, op, fetch, after, out) && rest.Of(after) }

    /** Every answer is the one the plain file gives without a buffer. */
    predicate LikeFile(file: seq<byte>, pos: nat) {
      Then? ==> out == Plain(file, pos, op.Count()) && rest.LikeFile(file, pos + |out|)
    }

    /** In every state of the run the buffer equals the file. */
    ghost predicate AllGood(file: seq<byte>) {
      Then? ==> after.file == file && after.Good() && rest.AllGood(file)
    }
  }

  lemma PlainJoin(file: seq<byte>, pos: nat, count: nat, more: nat)
    requires |Plain(file, pos, count)| == count
    ensures Plain(file, pos, count) + Plain(file, pos + count, more) == Plain(file, pos, count + more)
  {}

  lemma SliceOfSlice(b: seq<byte>, lo: nat, hi: nat, at: nat, n: nat)
    requires lo + at + n <= hi <= |b|
    ensures b[lo..hi][at..at + n] == b[lo + at..lo + at + n]
  {
    var x, y := b[lo..hi][at..at + n], b[lo + at..lo + at + n];
    forall i | 0 <= i < n ensures x[i] == y[i] {
      assert b[lo..hi][at + i] == b[lo + (at + i)];
    }
  }

  lemma PlainExtend(file: seq<byte>, pos: nat, a: seq<byte>, b: seq<byte>)
    requires a == Plain(file, pos, |a|) && b == Plain(file, pos + |a|, |b|)
    ensures a + b == Plain(file, pos, |a + b|)
  {
    PlainJoin(file, pos, |a|, |b|);
  }

  lemma PlainExact(file: seq<byte>, pos: nat, count: nat)
    ensures Plain(file, pos, |Plain(file, pos, count)|) == Plain(file, pos, count)
  {}

  /** The answers of the plain file to any run of reads make up one slice of it. */
  lemma {:induction false} AnswersMakeSlice(run: ReadRun, file: seq<byte>, pos: nat)
    requires run.LikeFile(file, pos)
    ensures run.Delivered() == Plain(file, pos, |run.Delivered()|)
    decreases run
  {
    if run.Then? {
      AnswersMakeSlice(run.rest, file, pos + |run.out|);
      PlainExact(file, pos, run.op.Count());
      PlainExtend(file, pos, run.out, run.rest.Delivered());
    }
  }

  /** For every run of reads, hits and refills mixed, and every read_function that meets its
      contract: the cache answers like the plain file call by call, so that the bytes delivered
      are one slice of the file; my_b_tell ends at the first position plus their number; and the
      buffer equals the file in every state. */
  lemma {:induction false} CacheReadsLikeFile(s: ReadState, run: ReadRun)
    requires s.Good() && run.Of(s)
    ensures run.LikeFile(s.file, s.Tell()) && run.AllGood(s.file)
    ensures run.Delivered() == Plain(s.file, s.Tell(), |run.Delivered()|)
    ensures run.Last(s).Tell() == s.Tell() + |run.Delivered()|
    decreases run
  {
    if run.Then? {
      StepReadsFile(s, run.op, run.fetch, run.after, run.out);
      CacheReadsLikeFile(run.after, run.rest);
    }
    AnswersMakeSlice(run, s.file, s.Tell());
  }

  lemma AllCopied(file: seq<byte>, start: nat, out: seq<byte>, count: nat)
    requires out == Plain(file, start, |out|) && |out| <= count
    requires |out| == count || start + |out| >= |file|
    ensures out == Plain(file, start, count)
  {}

  /** The fields of IO_CACHE that a READ_CACHE uses; current_pos points to read_pos. */
  class ReadCache {
    const file: seq<byte>
    var posInFile: nat
    const buffer: array<byte>
    var requestPos: nat
    var readPos: nat
    var readEnd: nat
    var error: int

    predicate Shape()
      reads this
    {
      requestPos <= readPos <= readEnd <= buffer.Length && buffer.Length > 0
    }

    ghost function State(): ReadState
      requires Shape()
      reads this, buffer
    {
      ReadState(file, posInFile, buffer[requestPos..readEnd], readPos - requestPos)
    }

    ghost predicate Valid()
      reads this, buffer
    {
      Shape() && State().Good()
    }

    constructor (file: seq<byte>, pos: nat, size: nat)
      requires size > 0
      ensures Valid() && fresh(buffer) && State() == ReadState(file, pos, [], 0)
    {
      this.file := file;
      posInFile, requestPos, readPos, readEnd, error := pos, 0, 0, 0, 0;
      buffer := new byte[size];
    }

    method MyBTell() returns (pos: nat)
      requires Valid()
      ensures pos == State().Tell()
    {
      pos := posInFile + (readPos - requestPos);
    }

    /** my_b_bytes_in_cache. */
    method BytesInCache() returns (n: nat)
      requires Valid()
      ensures n == |State().window| - State().at
      ensures Plain(file, State().Tell(), n) == State().window[State().at..]
    {
      n := readEnd - readPos;
      PlainPart(file, posInFile, |State().window|, State().at, n);
    }

    /** memcpy of at most count bytes from read_pos on. */
    method Take(count: nat) returns (out: seq<byte>)
      requires Valid()
      modifies this`readPos
      ensures |out| == Min(|old(State()).window| - old(State()).at, count)
      ensures Valid() && State() == old(State()).(at := old(State()).at + |out|)
      ensures out == old(State()).window[old(State()).at..State().at]
    {
      var n := Min(readEnd - readPos, count);
      out := buffer[readPos..readPos + n];
      SliceOfSlice(buffer[..], requestPos, readEnd, readPos - requestPos, n);
      assert buffer[requestPos..readEnd] == buffer[..][requestPos..readEnd];
      readPos := readPos + n;
    }

    /** my_b_read: `out` is what is copied to the caller's buffer; 0 if that is count bytes, else 1
        with their number in `error`. */
    method MyBRead(count: nat) returns (rc: int, out: seq<byte>, ghost fetch: Fetch)
      requires Valid()
      modifies this, buffer
      ensures Valid() && ReadStep(old(State()), Read(count), fetch, State(), out)
      ensures rc == 0 <==> |out| == count
      ensures rc != 0 ==> error == |out|
    {
      if readPos + count <= readEnd {
        out := Take(count);
        rc, fetch := 0, Hit;
      } else {
        fetch := Miss(State(), count);
        rc, out := ReadFunction(count);
      }
    }

    /** my_b_get: the next byte, or my_b_EOF. */
    method MyBGet() returns (c: int, ghost out: seq<byte>, ghost fetch: Fetch)
      requires Valid()
      modifies this, buffer
      ensures Valid() && ReadStep(old(State()), Get, fetch, State(), out)
      ensures if out == [] then c == MY_B_EOF else |out| == 1 && c == out[0]
    {
      if readPos != readEnd {
        readPos := readPos + 1;
        c := buffer[readPos - 1];
        out, fetch := [buffer[readPos - 1]], Hit;
      } else {
        fetch := Miss(State(), 1);
        var rc, one := ReadFunction(1);
        out := one;
        c := if rc == 0 then one[0] else MY_B_EOF;
      }
    }

    /** my_b_fill_cache: drop what is left in the buffer and read on from the same position. */
    method MyBFillCache() returns (rc: int, ghost fetch: Fetch)
      requires Valid()
      modifies this, buffer
      ensures Valid() && ReadStep(old(State()), Fill, fetch, State(), []) && rc == 0
    {
      PlainPart(file, posInFile, |State().window|, 0, State().at);
      readEnd := readPos;
      assert State() == old(State()).(window := old(State()).window[..old(State()).at]);
      fetch := Miss(State(), 0);
      var out;
      rc, out := ReadFunction(0);
    }

    /** Loads the next stretch of the file, after the end of the window, into the buffer. */
    method Refill()
      requires Valid()
      modifies this, buffer
      ensures Valid() && error == old(error) && State().at == 0
      ensures State().posInFile == old(State().posInFile + |State().window|)
      ensures |State().window| == |Plain(file, State().posInFile, buffer.Length)|
    {
      var pos := posInFile + (readEnd - requestPos);
      var chunk := Plain(file, pos, buffer.Length);
      forall i | 0 <= i < |chunk| { buffer[i] := chunk[i]; }
      posInFile, requestPos, readPos, readEnd := pos, 0, 0, |chunk|;
      assert buffer[0..|chunk|] == chunk;
      PlainExact(file, pos, buffer.Length);
    }

    /** Refills the exhausted buffer and takes up to count bytes from it. */
    method RefillAndTake(ghost pos: nat, count: nat) returns (out: seq<byte>)
      requires Valid() && readPos == readEnd && State().Tell() == pos
      modifies this, buffer
      ensures Valid() && out == Plain(file, pos, |out|) && |out| <= count
      ensures State().Tell() == pos + |out|
      ensures |out| == count || readPos == readEnd
      ensures out == [] ==> State().Loaded()
    {
      Refill();
      ghost var s := State();
      out := Take(count);
      PlainPart(file, s.posInFile, |s.window|, 0, |out|);
    }

    /** Extends `out`, the bytes read so far from `start` on, by one refill. */
    method ReadMore(ghost start: nat, out: seq<byte>, count: nat) returns (all: seq<byte>)
      requires Valid() && readPos == readEnd && |out| <= count
      requires State().Tell() == start + |out| && out == Plain(file, start, |out|)
      modifies this, buffer
      ensures Valid() && |out| <= |all| <= count
      ensures State().Tell() == start + |all| && all == Plain(file, start, |all|)
      ensures |all| == count || readPos == readEnd
      ensures |all| == |out| ==> State().Loaded()
    {
      var chunk := RefillAndTake(start + |out|, count - |out|);
      assert Valid();
      all := out + chunk;
      PlainExtend(file, start, out, chunk);
    }

    /** A read_function: copy what is left, then refill and copy until enough or end of file. */
    method ReadFunction(count: nat) returns (rc: int, out: seq<byte>)
      requires Valid()
      requires readPos + count > readEnd || (count == 0 && readPos == readEnd)
      modifies this, buffer
      ensures Valid() && SlowRead(old(State()), count, State(), out)
      ensures rc == 0 <==> |out| == count
      ensures rc != 0 ==> error == |out|
      ensures count == 0 ==> State().Loaded()
    {
      ghost var s := State();
      out := Take(count);
      PlainPart(file, s.posInFile, |s.window|, s.at, |out|);
      var more := true;
      while more
        invariant Valid() && (more ==> readPos == readEnd) && |out| <= count
        invariant State().Tell() == s.Tell() + |out| && out == Plain(file, s.Tell(), |out|)
        invariant !more ==> |out| == count || s.Tell() + |out| >= |file|
        invariant !more && count == 0 ==> State().Loaded()
        decreases more, if s.Tell() + |out| < |file| then |file| - s.Tell() - |out| else 0
      {
        var all := ReadMore(s.Tell(), out, count);
        more := |out| < |all| < count;
        out := all;
      }
      rc := if |out| == count then 0 else 1;
      AllCopied(file, s.Tell(), out, count);
      if rc != 0 { error := |out|; }
    }
  }

  // ----- WRITE_CACHE -----

  /** The file after data was written at pos. */
  function Overlay(file: seq<byte>, pos: nat, data: seq<byte>): seq<byte>
    requires pos <= |file|
  {
    file[..pos] + data + (if pos + |data| < |file| then file[pos + |data|..] else [])
  }

  /** The state of a write cache: `pending` lies between request_pos and write_pos, and `room` is
      the distance from request_pos to write_end, which write_function may move. */
  datatype WriteState = WriteState(file: seq<byte>, posInFile: nat, pending: seq<byte>, room: nat) {
    /** my_b_tell. */
    function Tell(): nat { posInFile + |pending| }

    /** write_pos has not passed write_end. */
    predicate Good() { posInFile <= |file| && |pending| <= room }

    /** The file as it will be once the buffer is flushed. */
    function Content(): seq<byte>
      requires posInFile <= |file|
    {
      Overlay(file, posInFile, pending)
    }
  }

  /** Exactly data was written after what was pending. */
  ghost predicate Wrote(s: WriteState, data: seq<byte>, s': WriteState)
    requires s.Good()
  {
    && s'.Good()
    && s'.Content() == Overlay(s.Content(), s.Tell(), data)
    && s'.Tell() == s.Tell() + |data|
  }

  /** A successful write_function: it writes data, nothing else stays in the buffer, and the buffer
      is not of size 0. */
  ghost predicate SlowWrite(s: WriteState, data: seq<byte>, s': WriteState)
    requires s.Good()
  {
    Wrote(s, data, s') && |s'.pending| <= |data| && s'.room > 0
  }

  /** Whether a macro called write_function and, if so, whether that succeeded, and its state. */
  datatype Slow = NotCalled | Called(ok: bool, state: WriteState)

  /** A write_function that fails promises only that write_pos is still in range. */
  ghost predicate SlowAnswer(s: WriteState, data: seq<byte>, slow: Slow)
    requires s.Good()
  {
    slow.Called? && if slow.ok then SlowWrite(s, data, slow.state) else slow.state.Good()
  }

  datatype WriteOp = Write(data: seq<byte>) | WriteByte(c: byte) {
    function Data(): seq<byte> { if Write? then data else [c] }

    /** The guard of the macro: its data fits before write_end. For a byte, write_pos < write_end. */
    predicate Fits(s: WriteState) { |s.pending| + |Data()| <= s.room }
  }

  /** my_b_write and my_b_write_byte. The byte is stored after the slow path whatever it did. */
  ghost predicate WriteStep(s: WriteState, op: WriteOp, slow: Slow, s': WriteState)
    requires s.Good()
  {
    if op.Fits(s) then slow == NotCalled && s' == s.(pending := s.pending + op.Data())
    else if op.Write? then SlowAnswer(s, op.data, slow) && s' == slow.state
    else SlowAnswer(s, [], slow) && s' == slow.state.(pending := slow.state.pending + [op.c])
  }

  /** write_function is called if and only if the data does not fit before write_end; otherwise the
      data goes behind what is pending, and the file is left alone. */
  lemma FlushesExactly(s: WriteState, op: WriteOp, slow: Slow, s': WriteState)
    requires s.Good() && WriteStep(s, op, slow, s')
    ensures slow.Called? <==> |s.pending| + |op.Data()| > s.room
    ensures slow.NotCalled? ==> s'.pending == s.pending + op.Data() && s'.file == s.file && s'.posInFile == s.posInFile
  {}

  lemma NothingWritten(s: WriteState, s': WriteState)
    requires s.Good() && s'.Good() && s'.pending == [] && s'.room > 0
    requires s'.Content() == s.Content() && s'.Tell() == s.Tell()
    ensures SlowWrite(s, [], s')
  {
    GoodTell(s);
    OverlayNothing(s.Content(), s.Tell());
  }

  lemma OverlayLength(file: seq<byte>, pos: nat, a: seq<byte>)
    requires pos <= |file|
    ensures |Overlay(file, pos, a)| == if pos + |a| < |file| then |file| else pos + |a|
  {}

  lemma OverlayAt(file: seq<byte>, pos: nat, a: seq<byte>, i: nat)
    requires pos <= |file| && i < |Overlay(file, pos, a)|
    ensures Overlay(file, pos, a)[i] == if pos <= i < pos + |a| then a[i - pos] else if i < |file| then file[i] else 0
  {}

  /** Writing a and then b behind it is writing a + b. */
  lemma OverlayTwice(file: seq<byte>, pos: nat, a: seq<byte>, b: seq<byte>)
    requires pos <= |file|
    ensures pos + |a| <= |Overlay(file, pos, a)|
    ensures Overlay(Overlay(file, pos, a), pos + |a|, b) == Overlay(file, pos, a + b)
  {
    OverlayLength(file, pos, a);
    var once := Overlay(file, pos, a);
    var x, y := Overlay(once, pos + |a|, b), Overlay(file, pos, a + b);
    OverlayLength(once, pos + |a|, b);
    OverlayLength(file, pos, a + b);
    forall i | 0 <= i < |x| ensures x[i] == y[i] {
      OverlayAt(once, pos + |a|, b, i);
      OverlayAt(file, pos, a + b, i);
      if i < |once| { OverlayAt(file, pos, a, i); }
    }
  }

  lemma OverlayNothing(file: seq<byte>, pos: nat)
    requires pos <= |file|
    ensures Overlay(file, pos, []) == file
  {}

  lemma GoodTell(s: WriteState)
    requires s.Good()
    ensures s.Tell() <= |s.Content()|
  {
    OverlayLength(s.file, s.posInFile, s.pending);
  }

  lemma AppendPending(s: WriteState, data: seq<byte>)
    requires s.Good()
    ensures s.Tell() <= |s.Content()|
    ensures s.(pending := s.pending + data).Content() == Overlay(s.Content(), s.Tell(), data)
  {
    OverlayTwice(s.file, s.posInFile, s.pending, data);
  }

  lemma FlushThenByte(s: WriteState, m: WriteState, c: byte)
    requires s.Good() && SlowWrite(s, [], m)
    ensures s.Tell() <= |s.Content()| && m.pending == []
    ensures Wrote(s, [c], m.(pending := m.pending + [c]))
  {
    GoodTell(s);
    OverlayNothing(s.Content(), s.Tell());
    AppendPending(m, [c]);
  }

  /** Buffered or flushed, a step writes its data at the old position and nothing else, and
      write_pos stays within the buffer. */
  lemma StepWritesFile(s: WriteState, op: WriteOp, slow: Slow, s': WriteState)
    requires s.Good() && WriteStep(s, op, slow, s') && (slow.Called? ==> slow.ok)
    ensures s.Tell() <= |s.Content()| && Wrote(s, op.Data(), s')
  {
    AppendPending(s, op.Data());
    if op.WriteByte? && slow.Called? { FlushThenByte(s, slow.state, op.c); }
  }

  /** A run of writes: each call, what write_function did in it, and the state after it. A run
      that has passed write_end has no further step: what it overwrote is not known. */
  datatype WriteRun = Finish | AndThen(op: WriteOp, slow: Slow, after: WriteState, rest: WriteRun) {
    function Written(): seq<byte> { if Finish? then [] else op.Data() + rest.Written() }

    function Last(s: WriteState): WriteState { if Finish? then s else rest.Last(after) }

    /** The run is one of the cache, starting from s. */
    ghost predicate Of(s: WriteState) {
      AndThen? ==> s.Good() && WriteStep(s, op, slow, after) && rest.Of(after)
    }

    /** No call of write_function fails. */
    predicate AllSucceed() { AndThen? ==> (slow.Called? ==> slow.ok) && rest.AllSucceed() }

    predicate AllGood() { AndThen? ==> after.Good() && rest.AllGood() }

    /** No my_b_write_byte finds write_pos at write_end, calls a write_function that fails, and
        gets no room from it. */
    predicate NeverOverruns(s: WriteState) {
      AndThen? ==> !Overruns(s, op, slow) && rest.NeverOverruns(after)
    }

    /** The guard of every my_b_write_byte holds before the call. */
    predicate BytesFit(s: WriteState) {
      AndThen? ==> (op.WriteByte? ==> op.Fits(s)) && rest.BytesFit(after)
    }
  }

  predicate Overruns(s: WriteState, op: WriteOp, slow: Slow) {
    op.WriteByte? && !op.Fits(s) && slow.Called? && !slow.ok && |slow.state.pending| >= slow.state.room
  }

  /** For every run of writes, buffered and flushed mixed, and every write_function that meets its
      contract: file and buffer together hold exactly what was there before with everything
      written laid over it from the first position, nothing lost and nothing twice; my_b_tell
      counts the bytes written; and write_pos never passes write_end. */
  lemma {:induction false} CacheWritesLikeFile(s: WriteState, run: WriteRun)
    requires s.Good() && run.Of(s) && run.AllSucceed()
    ensures run.AllGood() && s.Tell() <= |s.Content()| && Wrote(s, run.Written(), run.Last(s))
    decreases run
  {
    GoodTell(s);
    if run.Finish? {
      OverlayNothing(s.Content(), s.Tell());
    } else {
      StepWritesFile(s, run.op, run.slow, run.after);
      CacheWritesLikeFile(run.after, run.rest);
      OverlayTwice(s.Content(), s.Tell(), run.op.Data(), run.rest.Written());
    }
  }

  // ----- When write_function fails: my_b_write_byte has no error check -----

  lemma StepStaysInBuffer(s: WriteState, op: WriteOp, slow: Slow, s': WriteState)
    requires s.Good() && WriteStep(s, op, slow, s')
    ensures s'.Good() <==> !Overruns(s, op, slow)
  {
    if slow.Called? && slow.ok { StepWritesFile(s, op, slow, s'); }
  }

  /** For every run, with calls of write_function failing anywhere: write_pos stays within
      write_end all along if and only if no byte is written to a full buffer while the flush fails
      and makes no room. */
  lemma {:induction false} StaysInBufferExactly(s: WriteState, run: WriteRun)
    requires s.Good() && run.Of(s)
    ensures run.AllGood() <==> run.NeverOverruns(s)
    decreases run
  {
    if run.AndThen? {
      StepStaysInBuffer(s, run.op, run.slow, run.after);
      if run.after.Good() { StaysInBufferExactly(run.after, run.rest); }
    }
  }

  /** What a caller can check before the call: whatever write_function does, the call stays within
      the buffer if and only if it is not a my_b_write_byte with write_pos == write_end. */
  lemma SafeCallExactly(s: WriteState, op: WriteOp)
    requires s.Good()
    ensures (forall slow, s' :: WriteStep(s, op, slow, s') ==> s'.Good()) <==> op.Write? || |s.pending| < s.room
  {
    forall slow, s' | WriteStep(s, op, slow, s') && (op.Write? || |s.pending| < s.room) ensures s'.Good() {
      StepStaysInBuffer(s, op, slow, s');
    }
    if op.WriteByte? && |s.pending| == s.room {
      assert WriteStep(s, op, Called(false, s), s.(pending := s.pending + [op.c]));
    }
  }

  /** So a caller who looks before every my_b_write_byte is safe, however many flushes fail. */
  lemma {:induction false} CheckedRunsAreSafe(s: WriteState, run: WriteRun)
    requires s.Good() && run.Of(s) && run.BytesFit(s)
    ensures run.AllGood()
    decreases run
  {
    if run.AndThen? {
      SafeCallExactly(s, run.op);
      CheckedRunsAreSafe(run.after, run.rest);
    }
  }

  /** A full buffer of one byte, a flush that fails, and write_pos is behind write_end. */
  lemma FailedFlushOverruns() returns (s: WriteState, run: WriteRun)
    ensures s.Good() && run.Of(s) && !run.AllGood()
    ensures |run.Last(s).pending| == 2 && run.Last(s).room == 1
  {
    s := WriteState([], 0, [0x61], 1);
    var s' := WriteState([], 0, [0x61, 0x62], 1);
    run := AndThen(WriteByte(0x62), Called(false, s), s', Finish);
    assert s'.pending == s.pending + [0x62];
    assert WriteStep(s, run.op, run.slow, s') && run.rest.Last(s') == s';
  }

  /** The fields of IO_CACHE that a WRITE_CACHE uses; current_pos points to write_pos. `memory` is
      the write buffer, of `size` bytes from request_pos on, and what lies behind it. The file can
      hold no more than `capacity` bytes. */
  class WriteCache {
    const capacity: nat
    const memory: array<byte>
    const size: nat
    var file: seq<byte>
    var posInFile: nat
    var writePos: nat
    var writeEnd: nat
    var error: int

    ghost function State(): WriteState
      requires writePos <= memory.Length
      reads this, memory
    {
      WriteState(file, posInFile, memory[..writePos], writeEnd)
    }

    predicate Shape()
      reads this
    {
      0 < size < memory.Length && writePos <= writeEnd <= size
    }

    ghost predicate Valid()
      reads this, memory
    {
      Shape() && State().Good()
    }

    constructor (file: seq<byte>, pos: nat, size: nat, end: nat, more: nat, capacity: nat)
      requires pos <= |file| && 0 < end <= size && more > 0
      ensures Valid() && fresh(memory) && State() == WriteState(file, pos, [], end)
    {
      this.file, this.size, this.capacity := file, size, capacity;
      posInFile, writePos, writeEnd, error := pos, 0, end, 0;
      memory := new byte[size + more];
    }

    method MyBTell() returns (pos: nat)
      requires Valid()
      ensures pos == State().Tell()
    {
      pos := posInFile + writePos;
    }

    /** memcpy to write_pos. */
    method Put(data: seq<byte>)
      requires Valid() && writePos + |data| <= memory.Length
      modifies this`writePos, memory
      ensures writePos == old(writePos) + |data|
      ensures State() == old(State()).(pending := old(State()).pending + data)
    {
      forall i | 0 <= i < |data| { memory[writePos + i] := data[i]; }
      writePos := writePos + |data|;
      assert memory[..writePos] == old(memory[..writePos]) + data;
    }

    method MyBWrite(data: seq<byte>) returns (rc: int, ghost slow: Slow)
      requires Valid()
      modifies this, memory
      ensures Valid() && WriteStep(old(State()), Write(data), slow, State())
      ensures rc == 0 <==> slow.NotCalled? || slow.ok
    {
      if writePos + |data| <= writeEnd {
        Put(data);
        rc, slow := 0, NotCalled;
      } else {
        rc := WriteFunction(data);
        slow := Called(rc == 0, State());
      }
    }

    /** If the flush fails the byte goes to the memory behind the buffer. */
    method MyBWriteByte(c: byte) returns (ghost slow: Slow)
      requires Valid()
      modifies this, memory
      ensures writePos <= memory.Length && WriteStep(old(State()), WriteByte(c), slow, State())
      ensures Valid() <==> !Overruns(old(State()), WriteByte(c), slow)
    {
      if writePos < writeEnd {
        Put([c]);
        slow := NotCalled;
      } else {
        var rc := WriteFunction([]);
        slow := Called(rc == 0, State());
        Put([c]);
      }
      StepStaysInBuffer(old(State()), WriteByte(c), slow, State());
    }

    /** Writes the buffer to the file, if the file has room for it; the whole buffer is then free. */
    method Flush() returns (rc: int)
      requires Valid()
      modifies this`file, this`posInFile, this`writePos, this`writeEnd, this`error
      ensures Valid() && (rc == 0 <==> old(State()).Tell() <= capacity)
      ensures rc == 0 ==> writePos == 0 && writeEnd == size
      ensures rc == 0 ==> State().Content() == old(State()).Content() && State().Tell() == old(State()).Tell()
      ensures rc != 0 ==> State() == old(State()) && error == -1
    {
      if posInFile + writePos > capacity {
        error := -1;
        return -1;
      }
      OverlayLength(file, posInFile, memory[..writePos]);
      file := Overlay(file, posInFile, memory[..writePos]);
      posInFile, writePos, writeEnd := posInFile + writePos, 0, size;
      OverlayNothing(file, posInFile);
      rc := 0;
    }

    /** Puts the next n bytes of data into the empty buffer. */
    method WriteChunk(ghost s: WriteState, data: seq<byte>, done: nat, n: nat)
      requires Valid() && writePos == 0 && done + n <= |data| && n <= writeEnd
      requires s.Good() && SlowWrite(s, data[..done], State())
      modifies this`writePos, memory
      ensures Valid() && writePos == n && writeEnd > 0 && Wrote(s, data[..done + n], State())
    {
      GoodTell(s);
      AppendPending(State(), data[done..done + n]);
      OverlayTwice(s.Content(), s.Tell(), data[..done], data[done..done + n]);
      assert data[..done] + data[done..done + n] == data[..done + n];
      Put(data[done..done + n]);
    }

    /** Passes the next bufferful of data on to the file. */
    method PassOn(ghost s: WriteState, data: seq<byte>, done: nat) returns (rc: int)
      requires Valid() && writePos == 0 && done + size <= |data| && writeEnd == size
      requires s.Good() && SlowWrite(s, data[..done], State())
      modifies this, memory
      ensures Valid()
      ensures rc == 0 ==> writePos == 0 && writeEnd == size && SlowWrite(s, data[..done + size], State())
    {
      WriteChunk(s, data, done, size);
      rc := Flush();
    }

    /** Passes full buffers on until the rest fits. */
    method PassAllOn(ghost s: WriteState, data: seq<byte>) returns (rc: int)
      requires Valid() && writePos == 0 && writeEnd == size
      requires s.Good() && SlowWrite(s, [], State())
      modifies this, memory
      ensures Valid() && (rc == 0 ==> SlowWrite(s, data, State()))
    {
      var done: nat := 0;
      rc := 0;
      assert data[..0] == [];
      while |data| - done > size
        invariant Valid() && done <= |data| && writePos == 0 && writeEnd == size && rc == 0
        invariant SlowWrite(s, data[..done], State())
      {
        rc := PassOn(s, data, done);
        if rc != 0 { return; }
        done := done + size;
      }
      WriteChunk(s, data, done, |data| - done);
      assert data[..|data|] == data;
    }

    /** A write_function: flush, then write what is new; -1 if the file is full. */
    method WriteFunction(data: seq<byte>) returns (rc: int)
      requires Valid() && (writePos + |data| > writeEnd || (data == [] && writePos == writeEnd))
      modifies this, memory
      ensures Valid() && SlowAnswer(old(State()), data, Called(rc == 0, State()))
    {
      ghost var s := State();
      rc := Flush();
      if rc == 0 {
        NothingWritten(s, State());
        rc := PassAllOn(s, data);
      }
    }
  }
}
