/** Instrumented files: the inline wrappers of mysql/psi/mysql_file.h.

    A wrapper asks for a locker, and if it gets one brackets the real call between a start and an
    end event. All but four have one of four shapes, which differ in the pair of events; fopen and
    fclose also allocate and free the MYSQL_FILE, feof is not instrumented, and create_temp sends
    one event after the call. What the environment answers is part of the call. */
module PsiFile {
  import opened Bits
  import opened Bytes

  const SIZE: nat := 0x1_0000_0000_0000_0000
  const MY_FILE_ERROR: nat := SIZE - 1
  const MY_FNABP: nat := 2
  const MY_NABP: nat := 4

  datatype Option<T> = None | Some(value: T)

  /** The pairs of events: start/end_file_wait, start/end_file_open_wait, start_file_open_wait with
      end_file_open_wait_and_bind_to_descriptor, start/end_file_close_wait. */
  datatype Shape = FileWait | OpenWait | BindWait | CloseWait

  datatype Transferring = Fread | Fwrite | Read | Write | Pread | Pwrite

  /** The wrapped calls with the arguments that the events mention. */
  datatype Call =
    | Transfer(which: Transferring, count: nat, flags: nat)
    | Fgets(size: nat) | Fgetc | Fputs(len: nat) | Fputc | Printf
    | Chsize(length: nat) | Fflush | Fstat | Fseek | Ftell | Seek | Tell | Sync | Rename(symlink: bool)
    | Stat | Create(symlink: bool) | Open
    | Close | Delete(symlink: bool)

  function ShapeOf(c: Call): Shape {
    if c.Stat? then OpenWait
    else if c.Create? || c.Open? then BindWait
    else if c.Close? || c.Delete? then CloseWait
    else FileWait
  }

  /** flags & (MY_NABP | MY_FNABP): the call returns 0 for all bytes and an error otherwise. */
  predicate Nabp(flags: nat) { And(flags, Or(MY_NABP, MY_FNABP)) != 0 }

  /** bytes_read and bytes_written. */
  function Moved(count: nat, flags: nat, result: int): int {
    if Nabp(flags) then (if result == 0 then count else 0)
    else if result != MY_FILE_ERROR then result
    else 0
  }

  /** The size a wrapper gives to its start event. */
  function Announced(c: Call): nat {
    match c
    case Transfer(_, count, _) => count
    case Fgets(size) => size
    case Fgetc => 1
    case Fputs(len) => len
    case Fputc => 1
    case Chsize(length) => length
    case _ => 0
  }

  /** What a real call returns: a number or, for fgets, the bytes read, or NULL. */
  datatype Answer = Code(code: int) | Line(bytes: Option<seq<byte>>)

  predicate Answers(c: Call, r: Answer) { c.Fgets? == r.Line? }

  /** strlen of a buffer that holds s and then a 0. */
  function StrLen(s: seq<byte>): nat {
    if s == [] || s[0] == 0 then 0 else 1 + StrLen(s[1..])
  }

  /** The number a wrapper gives to its end event; the open and close shapes pass the result. */
  function Ended(c: Call, r: Answer): int
    requires Answers(c, r)
  {
    match c
    case Transfer(_, count, flags) => Moved(count, flags, r.code)
    case Fgets(_) => if r.bytes.Some? then StrLen(r.bytes.value) else 0
    case Fgetc => 1
    case Fputs(len) => len
    case Fputc => 1
    case Printf => r.code % SIZE
    case Chsize(length) => length
    case _ => if ShapeOf(c).FileWait? then 0 else r.code
  }

  // ----- What is observable -----

  datatype Event =
    | Ask(got: bool)                     // get_thread_file_*_locker
    | Start(shape: Shape, size: nat)
    | End(shape: Shape, number: int)
    | FileCreated                        // create_file of create_temp
    | Real(c: Call, answer: Answer)
    | RealFopen(file: Option<nat>)       // my_fopen returned this FILE, or NULL
    | RealFclose(stream: nat, result: int)
    | RealFeof(result: int)
    | RealCreateTemp(result: int)
    | Malloc(memory: Option<nat>)
    | Free(a: nat)

  predicate IsPsi(e: Event) { e.Ask? || e.Start? || e.End? || e.FileCreated? }

  function Erase(t: seq<Event>): seq<Event> {
    if t == [] then []
    else Kept(t[0]) + Erase(t[1..])
  }

  function Kept(e: Event): seq<Event> { if IsPsi(e) then [] else [e] }

  /** MYSQL_FILE. */
  datatype MysqlFile = MysqlFile(mFile: nat, mPsi: Option<nat>)

  /** One call of a wrapper, with the answers of allocator, performance schema and real call. */
  datatype Op =
    | Plainly(c: Call, locker: bool, answer: Answer)
    | Fopen(memory: Option<nat>, locker: bool, file: Option<nat>, psi: Option<nat>)
    | Fclose(handle: Option<nat>, locker: bool, result: int)
    | Feof(result: int)
    | CreateTemp(result: int)

  type Handles = map<nat, MysqlFile>

  /** my_malloc returns unused memory; fclose is given NULL or a handle that is open. */
  predicate Proper(live: Handles, op: Op) {
    match op
    case Plainly(c, _, answer) => Answers(c, answer)
    case Fopen(memory, _, _, _) => memory.Some? ==> memory.value !in live
    case Fclose(handle, _, _) => handle.Some? ==> handle.value in live
    case _ => true
  }

  // ----- The instrumented build -----

  /** A real call e, bracketed if there is a locker. */
  function Bracket(locker: bool, shape: Shape, size: nat, e: Event, number: int): seq<Event> {
    if locker then [Ask(true), Start(shape, size), e, End(shape, number)] else [Ask(false), e]
  }

  function Events(live: Handles, op: Op): seq<Event>
    requires Proper(live, op)
  {
    match op
    case Plainly(c, locker, answer) =>
      Bracket(locker, ShapeOf(c), Announced(c), Real(c, answer), Ended(c, answer))
    case Fopen(memory, locker, file, _) =>
      if memory.None? then [Malloc(None)]
      else
        [Malloc(memory)]
        + Bracket(locker, OpenWait, 0, RealFopen(file), if file.Some? then 1 else 0)
        + (if file.None? then [Free(memory.value)] else [])
    case Fclose(handle, locker, result) =>
      if handle.None? then []
      else
        var f := live[handle.value].mFile;
        Bracket(locker, CloseWait, 0, RealFclose(f, result), result) + [Free(handle.value)]
    case Feof(result) => [RealFeof(result)]
    case CreateTemp(result) => [RealCreateTemp(result), FileCreated]
  }

  function LiveAfter(live: Handles, op: Op): Handles
    requires Proper(live, op)
  {
    match op
    case Fopen(memory, locker, file, psi) =>
      if memory.Some? && file.Some?
      then live[memory.value := MysqlFile(file.value, if locker then psi else None)]
      else live
    case Fclose(handle, _, _) => if handle.Some? then live - {handle.value} else live
    case _ => live
  }

  class Files {
    var live: Handles
    var trace: seq<Event>

    constructor ()
      ensures live == map[] && trace == []
    {
      live, trace := map[], [];
    }

    /** The wrappers of the regular shapes. */
    method Instrumented(c: Call, locker: bool, answer: Answer) returns (result: Answer)
      requires Answers(c, answer)
      modifies this`trace
      ensures result == answer
      ensures trace == old(trace) + Events(live, Plainly(c, locker, answer))
    {
      trace := trace + [Ask(locker)];
      if locker {
        trace := trace + [Start(ShapeOf(c), Announced(c))];
        trace := trace + [Real(c, answer)];
        result := answer;
        trace := trace + [End(ShapeOf(c), Ended(c, result))];
        return;
      }
      trace := trace + [Real(c, answer)];
      result := answer;
    }

    method Fopen(memory: Option<nat>, locker: bool, file: Option<nat>, psi: Option<nat>)
      returns (that: Option<nat>)
      requires Proper(live, Op.Fopen(memory, locker, file, psi))
      modifies this
      ensures trace == old(trace) + Events(old(live), Op.Fopen(memory, locker, file, psi))
      ensures live == LiveAfter(old(live), Op.Fopen(memory, locker, file, psi))
      ensures that == if file.Some? then memory else None
    {
      trace := trace + [Malloc(memory)];
      that := memory;
      if that.None? { return; }
      trace := trace + [Ask(locker)];
      var mPsi := None;
      if locker {
        trace := trace + [Start(OpenWait, 0)];
        trace := trace + [RealFopen(file)];
        trace := trace + [End(OpenWait, if file.Some? then 1 else 0)];
        mPsi := psi;
      } else {
        trace := trace + [RealFopen(file)];
      }
      if file.None? {
        trace := trace + [Free(that.value)];
        that := None;
      } else {
        live := live[that.value := MysqlFile(file.value, mPsi)];
      }
    }

    method Fclose(handle: Option<nat>, locker: bool, answer: int) returns (result: int)
      requires Proper(live, Op.Fclose(handle, locker, answer))
      modifies this
      ensures trace == old(trace) + Events(old(live), Op.Fclose(handle, locker, answer))
      ensures live == LiveAfter(old(live), Op.Fclose(handle, locker, answer))
      ensures result == if handle.Some? then answer else 0
    {
      result := 0;
      if handle.Some? {
        var f := live[handle.value].mFile;
        trace := trace + [Ask(locker)];
        if locker {
          trace := trace + [Start(CloseWait, 0)];
          trace := trace + [RealFclose(f, answer)];
          result := answer;
          trace := trace + [End(CloseWait, result)];
        } else {
          trace := trace + [RealFclose(f, answer)];
          result := answer;
        }
        trace := trace + [Free(handle.value)];
        live := live - {handle.value};
      }
    }

    method Feof(answer: int) returns (result: int)
      modifies this`trace
      ensures result == answer && trace == old(trace) + Events(live, Op.Feof(answer))
    {
      trace := trace + [RealFeof(answer)];
      result := answer;
    }

    method CreateTemp(answer: int) returns (result: int)
      modifies this`trace
      ensures result == answer && trace == old(trace) + Events(live, Op.CreateTemp(answer))
    {
      trace := trace + [RealCreateTemp(answer)];
      trace := trace + [FileCreated];
      result := answer;
    }
  }

  // ----- The build without HAVE_PSI_FILE_INTERFACE -----

  function BareEvents(live: map<nat, nat>, op: Op): seq<Event>
    requires op.Fclose? && op.handle.Some? ==> op.handle.value in live
  {
    match op
    case Plainly(c, _, answer) => [Real(c, answer)]
    case Fopen(memory, _, file, _) =>
      if memory.None? then [Malloc(None)]
      else if file.None? then [Malloc(memory), RealFopen(None), Free(memory.value)]
      else [Malloc(memory), RealFopen(file)]
    case Fclose(handle, _, result) =>
      if handle.None? then [] else [RealFclose(live[handle.value], result), Free(handle.value)]
    case Feof(result) => [RealFeof(result)]
    case CreateTemp(result) => [RealCreateTemp(result)]
  }

  function BareAfter(live: map<nat, nat>, op: Op): map<nat, nat> {
    match op
    case Fopen(memory, _, file, _) =>
      if memory.Some? && file.Some? then live[memory.value := file.value] else live
    case Fclose(handle, _, _) => if handle.Some? then live - {handle.value} else live
    case _ => live
  }

  /** The handles without their instrumentation hooks. */
  function Bare(live: Handles): (b: map<nat, nat>)
    ensures b.Keys == live.Keys
  {
    map a | a in live :: live[a].mFile
  }

  // ----- Runs -----

  datatype Run = Done | Then(op: Op, rest: Run) {
    predicate Of(live: Handles) { Then? ==> Proper(live, op) && rest.Of(LiveAfter(live, op)) }

    function Trace(live: Handles): seq<Event>
      requires Of(live)
    {
      if Done? then [] else Events(live, op) + rest.Trace(LiveAfter(live, op))
    }

    function Live(live: Handles): Handles
      requires Of(live)
    {
      if Done? then live else rest.Live(LiveAfter(live, op))
    }

    predicate OfBare(live: map<nat, nat>) {
      Then? ==> (op.Fclose? && op.handle.Some? ==> op.handle.value in live) && rest.OfBare(BareAfter(live, op))
    }

    function BareTrace(live: map<nat, nat>): seq<Event>
      requires OfBare(live)
    {
      if Done? then [] else BareEvents(live, op) + rest.BareTrace(BareAfter(live, op))
    }

    function BareLive(live: map<nat, nat>): map<nat, nat> {
      if Done? then live else rest.BareLive(BareAfter(live, op))
    }
  }

  lemma Associate<T>(a: seq<T>, b: seq<T>, c: seq<T>)
    ensures a + (b + c) == (a + b) + c
  {}

  lemma {:induction false} EraseConcat(s: seq<Event>, t: seq<Event>)
    ensures Erase(s + t) == Erase(s) + Erase(t)
  {
    if s == [] {
      assert s + t == t;
    } else {
      EraseConcat(s[1..], t);
      assert (s + t)[0] == s[0] && (s + t)[1..] == s[1..] + t;
      Associate(Kept(s[0]), Erase(s[1..]), Erase(t));
    }
  }

  lemma EraseOne(e: Event)
    ensures Erase([e]) == if IsPsi(e) then [] else [e]
  {}

  lemma EraseBracket(locker: bool, shape: Shape, size: nat, e: Event, number: int)
    requires !IsPsi(e)
    ensures Erase(Bracket(locker, shape, size, e, number)) == [e]
  {
    EraseOne(e);
    if locker {
      assert Bracket(locker, shape, size, e, number)
             == [Ask(true)] + ([Start(shape, size)] + ([e] + [End(shape, number)]));
      EraseConcat([e], [End(shape, number)]);
      EraseConcat([Start(shape, size)], [e] + [End(shape, number)]);
      EraseConcat([Ask(true)], [Start(shape, size)] + ([e] + [End(shape, number)]));
      EraseOne(Ask(true));
      EraseOne(Start(shape, size));
      EraseOne(End(shape, number));
    } else {
      assert Bracket(locker, shape, size, e, number) == [Ask(false)] + [e];
      EraseConcat([Ask(false)], [e]);
      EraseOne(Ask(false));
    }
  }

  lemma CallErased(live: Handles, op: Op)
    requires Proper(live, op)
    ensures Erase(Events(live, op)) == BareEvents(Bare(live), op)
  {
    match op
    case Plainly(c, locker, answer) =>
      EraseBracket(locker, ShapeOf(c), Announced(c), Real(c, answer), Ended(c, answer));
    case Fopen(_, _, _, _) => FopenErased(live, op);
    case Fclose(_, _, _) => FcloseErased(live, op);
    case Feof(result) => EraseOne(RealFeof(result));
    case CreateTemp(result) =>
      assert Events(live, op) == [RealCreateTemp(result)] + [FileCreated];
      EraseConcat([RealCreateTemp(result)], [FileCreated]);
      EraseOne(RealCreateTemp(result));
      EraseOne(FileCreated);
  }

  lemma FcloseErased(live: Handles, op: Op)
    requires Proper(live, op) && op.Fclose?
    ensures Erase(Events(live, op)) == BareEvents(Bare(live), op)
  {
    if op.handle.Some? {
      var e := RealFclose(live[op.handle.value].mFile, op.result);
      EraseBracket(op.locker, CloseWait, 0, e, op.result);
      EraseConcat(Bracket(op.locker, CloseWait, 0, e, op.result), [Free(op.handle.value)]);
      EraseOne(Free(op.handle.value));
    }
  }

  lemma FopenErased(live: Handles, op: Op)
    requires Proper(live, op) && op.Fopen?
    ensures Erase(Events(live, op)) == BareEvents(Bare(live), op)
  {
    var (memory, file) := (op.memory, op.file);
    EraseOne(Malloc(memory));
    if memory.Some? {
      var number := if file.Some? then 1 else 0;
      var middle := Bracket(op.locker, OpenWait, 0, RealFopen(file), number);
      var last := if file.None? then [Free(memory.value)] else [];
      EraseBracket(op.locker, OpenWait, 0, RealFopen(file), number);
      EraseConcat([Malloc(memory)] + middle, last);
      EraseConcat([Malloc(memory)], middle);
      EraseOne(Free(memory.value));
      assert Events(live, op) == [Malloc(memory)] + middle + last;
    }
  }

  lemma HandlesErased(live: Handles, op: Op)
    requires Proper(live, op)
    ensures Bare(LiveAfter(live, op)) == BareAfter(Bare(live), op)
  {
    match op
    case Fopen(_, _, _, _) =>
    case Fclose(_, _, _) =>
    case _ =>
  }

  /** For every run of wrappers and every pattern of NULL and non-NULL lockers: with the events
      erased, the real calls, their arguments and their answers are those of the build without
      instrumentation, and the same handles are open on the same files. */
  lemma {:induction false} Transparent(live: Handles, run: Run)
    requires run.Of(live)
    ensures run.OfBare(Bare(live))
    ensures Erase(run.Trace(live)) == run.BareTrace(Bare(live))
    ensures Bare(run.Live(live)) == run.BareLive(Bare(live))
    decreases run
  {
    if run.Then? {
      CallErased(live, run.op);
      HandlesErased(live, run.op);
      Transparent(LiveAfter(live, run.op), run.rest);
      EraseConcat(Events(live, run.op), run.rest.Trace(LiveAfter(live, run.op)));
    }
  }

  // ----- Brackets -----

  /** Where the events of a thread stand: outside any wrapper, in fopen after its malloc, after
      the answer to a request for a locker, after the start event, after the real call, before the
      free of a structure whose file is closed, before the event of create_temp. `opening` is
      whether a structure waits for its file. */
  datatype Phase =
    | Outside
    | Allocated
    | Given(opening: bool)
    | Denied(opening: bool)
    | Started(opening: bool, shape: Shape, size: nat)
    | Called(shape: Shape, call: Event)
    | MustFree
    | TempCreated
    | Broken

  /** The calls for which a locker is asked. */
  predicate IsRealIo(e: Event) { e.Real? || e.RealFopen? || e.RealFclose? }

  /** The pair of events that belongs around a real call. */
  predicate Suits(shape: Shape, e: Event) {
    match e
    case RealFopen(_) => shape == OpenWait
    case RealFclose(_, _) => shape == CloseWait
    case Real(Stat, _) => shape == OpenWait
    case Real(Create(_), _) => shape == BindWait
    case Real(Open, _) => shape == BindWait
    case Real(Close, _) => shape == CloseWait
    case Real(Delete(_), _) => shape == CloseWait
    case _ => shape == FileWait
  }

  /** The size that belongs in its start event: what is to be moved, if that is known before. */
  predicate Announces(size: nat, e: Event) {
    match e
    case Real(Transfer(_, count, _), _) => size == count
    case Real(Fgets(n), _) => size == n
    case Real(Fgetc, _) => size == 1
    case Real(Fputc, _) => size == 1
    case Real(Fputs(len), _) => size == len
    case Real(Chsize(length), _) => size == length
    case _ => size == 0
  }

  /** The number that belongs in its end event: the result of an open or a close (for fopen,
      whether there is a file), the new length for chsize, and 0 where no bytes are moved. The
      bytes that reads and writes report are a matter of the lemmas on bytes below. */
  predicate Owes(e: Event, number: int) {
    match e
    case RealFopen(file) => number == if file.Some? then 1 else 0
    case RealFclose(_, result) => number == result
    case Real(Stat, Code(result)) => number == result
    case Real(Create(_), Code(result)) => number == result
    case Real(Open, Code(result)) => number == result
    case Real(Close, Code(result)) => number == result
    case Real(Delete(_), Code(result)) => number == result
    case Real(Chsize(length), _) => number == length
    case Real(c, _) => c.Transfer? || c.Fgets? || c.Fgetc? || c.Fputs? || c.Fputc? || c.Printf? || number == 0
    case _ => false
  }

  /** A closed file's structure is freed, and so is one for which no file was opened. */
  function AfterCall(e: Event): Phase {
    if e.RealFclose? || e == RealFopen(None) then MustFree else Outside
  }

  function NextPhase(p: Phase, e: Event): Phase {
    match p
    case Outside =>
      if e.Ask? then (if e.got then Given(false) else Denied(false))
      else if e.Malloc? then (if e.memory.Some? then Allocated else Outside)
      else if e.RealFeof? then Outside
      else if e.RealCreateTemp? then TempCreated
      else Broken
    case Allocated => if e.Ask? then (if e.got then Given(true) else Denied(true)) else Broken
    case Given(opening) => if e.Start? then Started(opening, e.shape, e.size) else Broken
    case Denied(opening) => if IsRealIo(e) && opening == e.RealFopen? then AfterCall(e) else Broken
    case Started(opening, shape, size) =>
      if IsRealIo(e) && opening == e.RealFopen? && Suits(shape, e) && Announces(size, e) then Called(shape, e) else Broken
    case Called(shape, call) => if e.End? && e.shape == shape && Owes(call, e.number) then AfterCall(call) else Broken
    case MustFree => if e.Free? then Outside else Broken
    case TempCreated => if e.FileCreated? then Outside else Broken
    case Broken => Broken
  }

  function PhaseAfter(p: Phase, t: seq<Event>): Phase
    decreases |t|
  {
    if t == [] then p else PhaseAfter(NextPhase(p, t[0]), t[1..])
  }

  lemma {:induction false} PhaseConcat(p: Phase, s: seq<Event>, t: seq<Event>)
    ensures PhaseAfter(p, s + t) == PhaseAfter(PhaseAfter(p, s), t)
    decreases |s|
  {
    if s == [] {
      assert s + t == t;
    } else {
      PhaseConcat(NextPhase(p, s[0]), s[1..], t);
      assert (s + t)[0] == s[0] && (s + t)[1..] == s[1..] + t;
    }
  }

  lemma PhaseOne(p: Phase, e: Event)
    ensures PhaseAfter(p, [e]) == NextPhase(p, e)
  {
    assert [e][1..] == [];
  }

  /** A call without a hitch, from outside or from fopen after its malloc. */
  lemma BracketCloses(opening: bool, locker: bool, shape: Shape, size: nat, e: Event, number: int)
    requires IsRealIo(e) && opening == e.RealFopen?
    requires Suits(shape, e) && Announces(size, e) && Owes(e, number)
    ensures PhaseAfter(if opening then Allocated else Outside, Bracket(locker, shape, size, e, number)) == AfterCall(e)
  {
    var p := if opening then Allocated else Outside;
    var b := Bracket(locker, shape, size, e, number);
    if locker {
      var b1, b2 := [Start(shape, size), e, End(shape, number)], [e, End(shape, number)];
      assert b[1..] == b1 && b1[1..] == b2 && b2[1..] == [End(shape, number)];
      assert PhaseAfter(p, b) == PhaseAfter(Given(opening), b1);
      assert PhaseAfter(Given(opening), b1) == PhaseAfter(Started(opening, shape, size), b2);
      assert PhaseAfter(Started(opening, shape, size), b2) == PhaseAfter(Called(shape, e), [End(shape, number)]);
      PhaseOne(Called(shape, e), End(shape, number));
    } else {
      assert b[1..] == [e];
      PhaseOne(Denied(opening), e);
    }
  }

  lemma PlainCallFits(c: Call, r: Answer)
    requires Answers(c, r)
    ensures Suits(ShapeOf(c), Real(c, r)) && Announces(Announced(c), Real(c, r)) && Owes(Real(c, r), Ended(c, r))
  {}

  lemma FopenCloses(live: Handles, op: Op)
    requires Proper(live, op) && op.Fopen?
    ensures PhaseAfter(Outside, Events(live, op)) == Outside
  {
    var (memory, file) := (op.memory, op.file);
    PhaseOne(Outside, Malloc(memory));
    if memory.Some? {
      var number := if file.Some? then 1 else 0;
      var middle := Bracket(op.locker, OpenWait, 0, RealFopen(file), number);
      var last := if file.None? then [Free(memory.value)] else [];
      BracketCloses(true, op.locker, OpenWait, 0, RealFopen(file), number);
      PhaseConcat(Outside, [Malloc(memory)], middle);
      PhaseConcat(Outside, [Malloc(memory)] + middle, last);
      PhaseOne(MustFree, Free(memory.value));
      assert Events(live, op) == [Malloc(memory)] + middle + last;
    }
  }

  lemma OneCallCloses(live: Handles, op: Op)
    requires Proper(live, op)
    ensures PhaseAfter(Outside, Events(live, op)) == Outside
  {
    match op
    case Plainly(c, locker, answer) =>
      PlainCallFits(c, answer);
      BracketCloses(false, locker, ShapeOf(c), Announced(c), Real(c, answer), Ended(c, answer));
    case Fopen(_, _, _, _) => FopenCloses(live, op);
    case Fclose(handle, locker, result) =>
      if handle.Some? {
        var e := RealFclose(live[handle.value].mFile, result);
        BracketCloses(false, locker, CloseWait, 0, e, result);
        PhaseConcat(Outside, Bracket(locker, CloseWait, 0, e, result), [Free(handle.value)]);
        PhaseOne(MustFree, Free(handle.value));
      }
    case Feof(result) => PhaseOne(Outside, RealFeof(result));
    case CreateTemp(result) =>
      assert Events(live, op) == [RealCreateTemp(result)] + [FileCreated];
      PhaseConcat(Outside, [RealCreateTemp(result)], [FileCreated]);
      PhaseOne(Outside, RealCreateTemp(result));
      PhaseOne(TempCreated, FileCreated);
  }

  /** Over every run every real call but feof and create_temp asks for a locker, once. With one it
      has a start event before it and an end event after it, of the pair that belongs to the call,
      with the size and the result that belong there; without, it has none. create_temp is followed
      by its event, and a structure is freed right after its file is closed or was not opened. */
  lemma {:induction false} BracketsMatch(live: Handles, run: Run)
    requires run.Of(live)
    ensures PhaseAfter(Outside, run.Trace(live)) == Outside
    decreases run
  {
    if run.Then? {
      OneCallCloses(live, run.op);
      BracketsMatch(LiveAfter(live, run.op), run.rest);
      PhaseConcat(Outside, Events(live, run.op), run.rest.Trace(LiveAfter(live, run.op)));
    }
  }

  // ----- Lockers and hooks -----

  function AnswersGot(t: seq<Event>): seq<bool> {
    if t == [] then [] else Got(t[0]) + AnswersGot(t[1..])
  }

  function Got(e: Event): seq<bool> { if e.Ask? then [e.got] else [] }

  lemma {:induction false} GotConcat(s: seq<Event>, t: seq<Event>)
    ensures AnswersGot(s + t) == AnswersGot(s) + AnswersGot(t)
  {
    if s == [] {
      assert s + t == t;
    } else {
      GotConcat(s[1..], t);
      assert (s + t)[0] == s[0] && (s + t)[1..] == s[1..] + t;
      Associate(Got(s[0]), AnswersGot(s[1..]), AnswersGot(t));
    }
  }

  /** The lockers that the performance schema gives or denies to a call. */
  function LockersOf(op: Op): seq<bool> {
    match op
    case Plainly(_, locker, _) => [locker]
    case Fopen(memory, locker, _, _) => if memory.Some? then [locker] else []
    case Fclose(handle, locker, _) => if handle.Some? then [locker] else []
    case _ => []
  }

  function Lockers(run: Run): seq<bool> {
    if run.Done? then [] else LockersOf(run.op) + Lockers(run.rest)
  }

  lemma GotOne(e: Event)
    ensures AnswersGot([e]) == Got(e)
  {
    assert [e][1..] == [];
  }

  lemma GotBracket(locker: bool, shape: Shape, size: nat, e: Event, number: int)
    requires IsRealIo(e)
    ensures AnswersGot(Bracket(locker, shape, size, e, number)) == [locker]
  {
    var rest := if locker then [Start(shape, size), e, End(shape, number)] else [e];
    assert Bracket(locker, shape, size, e, number) == [Ask(locker)] + rest;
    GotConcat([Ask(locker)], rest);
    GotOne(Ask(locker));
    GotOne(e);
    if locker {
      assert rest == [Start(shape, size)] + ([e] + [End(shape, number)]);
      GotConcat([e], [End(shape, number)]);
      GotConcat([Start(shape, size)], [e] + [End(shape, number)]);
      GotOne(Start(shape, size));
      GotOne(End(shape, number));
    }
  }

  lemma OneCallLockers(live: Handles, op: Op)
    requires Proper(live, op)
    ensures AnswersGot(Events(live, op)) == LockersOf(op)
  {
    match op
    case Plainly(c, locker, answer) =>
      GotBracket(locker, ShapeOf(c), Announced(c), Real(c, answer), Ended(c, answer));
    case Fopen(memory, locker, file, _) =>
      GotOne(Malloc(memory));
      if memory.Some? {
        var number := if file.Some? then 1 else 0;
        var middle := Bracket(locker, OpenWait, 0, RealFopen(file), number);
        var last := if file.None? then [Free(memory.value)] else [];
        GotBracket(locker, OpenWait, 0, RealFopen(file), number);
        GotConcat([Malloc(memory)], middle);
        GotConcat([Malloc(memory)] + middle, last);
        GotOne(Free(memory.value));
        assert Events(live, op) == [Malloc(memory)] + middle + last;
      }
    case Fclose(handle, locker, result) =>
      if handle.Some? {
        var e := RealFclose(live[handle.value].mFile, result);
        GotBracket(locker, CloseWait, 0, e, result);
        GotConcat(Bracket(locker, CloseWait, 0, e, result), [Free(handle.value)]);
        GotOne(Free(handle.value));
      }
    case Feof(result) => GotOne(RealFeof(result));
    case CreateTemp(result) =>
      assert Events(live, op) == [RealCreateTemp(result)] + [FileCreated];
      GotConcat([RealCreateTemp(result)], [FileCreated]);
      GotOne(RealCreateTemp(result));
      GotOne(FileCreated);
  }

  /** The brackets of a run are those of the calls that got a locker, in their order. */
  lemma {:induction false} LockersUsed(live: Handles, run: Run)
    requires run.Of(live)
    ensures AnswersGot(run.Trace(live)) == Lockers(run)
    decreases run
  {
    if run.Then? {
      OneCallLockers(live, run.op);
      LockersUsed(LiveAfter(live, run.op), run.rest);
      GotConcat(Events(live, run.op), run.rest.Trace(LiveAfter(live, run.op)));
    }
  }

  /** The structure that the last successful fopen at address a left there. */
  function LastOpened(run: Run, a: nat): Option<MysqlFile> {
    if run.Done? then None
    else
      var later := LastOpened(run.rest, a);
      if later.Some? then later
      else
        match run.op
        case Fopen(memory, locker, file, psi) =>
          if memory == Some(a) && file.Some?
          then Some(MysqlFile(file.value, if locker then psi else None)) else None
        case _ => None
  }

  /** After every run an open handle holds the file that its fopen opened and the hook that
      end_file_open_wait returned to it, and none if it got no locker. */
  lemma {:induction false} HandlesKeepHooks(live: Handles, run: Run, a: nat)
    requires run.Of(live) && a in run.Live(live)
    ensures match LastOpened(run, a)
            case Some(f) => run.Live(live)[a] == f
            case None => a in live && run.Live(live)[a] == live[a]
    decreases run
  {
    if run.Then? { HandlesKeepHooks(LiveAfter(live, run.op), run.rest, a); }
  }

  // ----- Files of the structures -----

  /** The files that the structures hold, the structure that waits for its file, and the file that
      was closed last. */
  datatype Holding = Holding(open: map<nat, nat>, waiting: Option<nat>, closed: Option<nat>) | Wrong

  /** A file belongs to the structure allocated before it was opened, and a structure is freed
      when its own file was closed last or when it never got one. */
  function NextHolding(h: Holding, e: Event): Holding {
    if h.Wrong? then h
    else
      match e
      case Malloc(a) => h.(waiting := a)
      case RealFopen(file) =>
        if h.waiting.None? then Wrong
        else if file.None? then h
        else h.(open := h.open[h.waiting.value := file.value], waiting := None)
      case RealFclose(f, _) => h.(closed := Some(f))
      case Free(a) =>
        if h.waiting == Some(a) then h.(waiting := None)
        else if a in h.open && h.closed == Some(h.open[a]) then h.(open := h.open - {a}, closed := None)
        else Wrong
      case _ => h
  }

  function HoldingAfter(h: Holding, t: seq<Event>): Holding
    decreases |t|
  {
    if t == [] then h else HoldingAfter(NextHolding(h, t[0]), t[1..])
  }

  lemma {:induction false} HoldingConcat(h: Holding, s: seq<Event>, t: seq<Event>)
    ensures HoldingAfter(h, s + t) == HoldingAfter(HoldingAfter(h, s), t)
    decreases |s|
  {
    if s == [] {
      assert s + t == t;
    } else {
      HoldingConcat(NextHolding(h, s[0]), s[1..], t);
      assert (s + t)[0] == s[0] && (s + t)[1..] == s[1..] + t;
    }
  }

  lemma HoldingOne(h: Holding, e: Event)
    ensures HoldingAfter(h, [e]) == NextHolding(h, e)
  {
    assert [e][1..] == [];
  }

  lemma HoldingBracket(h: Holding, locker: bool, shape: Shape, size: nat, e: Event, number: int)
    ensures HoldingAfter(h, Bracket(locker, shape, size, e, number)) == NextHolding(h, e)
  {
    var first := if locker then [Ask(true), Start(shape, size)] else [Ask(false)];
    var last := if locker then [End(shape, number)] else [];
    assert Bracket(locker, shape, size, e, number) == first + ([e] + last);
    HoldingConcat(h, first, [e] + last);
    HoldingConcat(h, [e], last);
    HoldingOne(h, e);
    assert first[1..] == if locker then [Start(shape, size)] else [];
    HoldingOne(h, Start(shape, size));
    HoldingOne(NextHolding(h, e), End(shape, number));
  }

  lemma FopenHolding(live: Handles, op: Op)
    requires Proper(live, op) && op.Fopen?
    ensures HoldingAfter(Holding(Bare(live), None, None), Events(live, op)) == Holding(BareAfter(Bare(live), op), None, None)
  {
    var (memory, file) := (op.memory, op.file);
    var h, h1 := Holding(Bare(live), None, None), Holding(Bare(live), memory, None);
    HoldingOne(h, Malloc(memory));
    if memory.Some? {
      var number := if file.Some? then 1 else 0;
      var middle := Bracket(op.locker, OpenWait, 0, RealFopen(file), number);
      var last := if file.None? then [Free(memory.value)] else [];
      assert Events(live, op) == [Malloc(memory)] + (middle + last);
      HoldingConcat(h, [Malloc(memory)], middle + last);
      HoldingBracket(h1, op.locker, OpenWait, 0, RealFopen(file), number);
      HoldingConcat(h1, middle, last);
      HoldingOne(h1, Free(memory.value));
    }
  }

  lemma FcloseHolding(live: Handles, op: Op)
    requires Proper(live, op) && op.Fclose?
    ensures HoldingAfter(Holding(Bare(live), None, None), Events(live, op)) == Holding(BareAfter(Bare(live), op), None, None)
  {
    if op.handle.Some? {
      var h := Holding(Bare(live), None, None);
      var a, e := op.handle.value, RealFclose(live[op.handle.value].mFile, op.result);
      HoldingBracket(h, op.locker, CloseWait, 0, e, op.result);
      HoldingConcat(h, Bracket(op.locker, CloseWait, 0, e, op.result), [Free(a)]);
      HoldingOne(NextHolding(h, e), Free(a));
    }
  }

  lemma OneCallHolding(live: Handles, op: Op)
    requires Proper(live, op)
    ensures HoldingAfter(Holding(Bare(live), None, None), Events(live, op)) == Holding(BareAfter(Bare(live), op), None, None)
  {
    var h := Holding(Bare(live), None, None);
    match op
    case Plainly(c, locker, answer) =>
      HoldingBracket(h, locker, ShapeOf(c), Announced(c), Real(c, answer), Ended(c, answer));
    case Fopen(_, _, _, _) => FopenHolding(live, op);
    case Fclose(_, _, _) => FcloseHolding(live, op);
    case Feof(result) => HoldingOne(h, RealFeof(result));
    case CreateTemp(result) =>
      assert Events(live, op) == [RealCreateTemp(result)] + [FileCreated];
      HoldingConcat(h, [RealCreateTemp(result)], [FileCreated]);
      HoldingOne(h, RealCreateTemp(result));
      HoldingOne(h, FileCreated);
  }

  /** Over every run a structure is freed right after its own file is closed, or if none was opened
      for it, and the files opened and not closed are those of the open handles. */
  lemma {:induction false} FilesMatchHandles(live: Handles, run: Run)
    requires run.Of(live)
    ensures HoldingAfter(Holding(Bare(live), None, None), run.Trace(live)) == Holding(Bare(run.Live(live)), None, None)
    decreases run
  {
    if run.Then? {
      OneCallHolding(live, run.op);
      HandlesErased(live, run.op);
      FilesMatchHandles(LiveAfter(live, run.op), run.rest);
      HoldingConcat(Holding(Bare(live), None, None), Events(live, run.op), run.rest.Trace(LiveAfter(live, run.op)));
    }
  }

  // ----- MYSQL_FILE structures -----

  /** The memory in use after the malloc and free events of a trace; freeing memory that is not in
      use, or receiving memory that is, gives None. */
  function InUse(used: Option<set<nat>>, t: seq<Event>): Option<set<nat>>
    decreases |t|
  {
    if t == [] || used.None? then used
    else
      match t[0]
      case Malloc(a) =>
        if a.None? then InUse(used, t[1..])
        else if a.value in used.value then None
        else InUse(Some(used.value + {a.value}), t[1..])
      case Free(a) =>
        if a !in used.value then None else InUse(Some(used.value - {a}), t[1..])
      case _ => InUse(used, t[1..])
  }

  function Count(run: Run, closes: bool): nat {
    if run.Done? then 0
    else
      (match run.op
       case Fopen(memory, _, file, _) => if !closes && memory.Some? && file.Some? then 1 else 0
       case Fclose(handle, _, _) => if closes && handle.Some? then 1 else 0
       case _ => 0)
      + Count(run.rest, closes)
  }

  lemma {:induction false} InUseConcat(used: Option<set<nat>>, s: seq<Event>, t: seq<Event>)
    ensures InUse(used, s + t) == InUse(InUse(used, s), t)
    decreases |s|
  {
    if s == [] {
      assert s + t == t;
    } else if used.Some? {
      assert (s + t)[0] == s[0] && (s + t)[1..] == s[1..] + t;
      match s[0]
      case Malloc(a) =>
        if a.None? { InUseConcat(used, s[1..], t); }
        else if a.value !in used.value { InUseConcat(Some(used.value + {a.value}), s[1..], t); }
      case Free(a) =>
        if a in used.value { InUseConcat(Some(used.value - {a}), s[1..], t); }
      case _ => InUseConcat(used, s[1..], t);
    }
  }

  lemma InUseOne(used: set<nat>, e: Event)
    ensures e.Malloc? && e.memory.Some? && e.memory.value !in used ==>
              InUse(Some(used), [e]) == Some(used + {e.memory.value})
    ensures e.Free? && e.a in used ==> InUse(Some(used), [e]) == Some(used - {e.a})
    ensures !e.Free? && !(e.Malloc? && e.memory.Some?) ==> InUse(Some(used), [e]) == Some(used)
  {
    assert [e][1..] == [];
  }

  lemma BracketKeepsMemory(used: set<nat>, locker: bool, shape: Shape, size: nat, e: Event, number: int)
    requires IsRealIo(e)
    ensures InUse(Some(used), Bracket(locker, shape, size, e, number)) == Some(used)
  {
    var b := Bracket(locker, shape, size, e, number);
    if locker {
      assert b[1..][1..] == [e, End(shape, number)] && b[1..][1..][1..] == [End(shape, number)];
      var some := Some(used);
      assert InUse(some, b) == InUse(some, b[1..]) == InUse(some, b[1..][1..]) == InUse(some, b[1..][1..][1..]);
      InUseOne(used, End(shape, number));
    } else {
      assert b[1..] == [e];
      InUseOne(used, e);
    }
  }

  lemma OneCallMemory(live: Handles, op: Op)
    requires Proper(live, op)
    ensures InUse(Some(live.Keys), Events(live, op)) == Some(LiveAfter(live, op).Keys)
  {
    var used := live.Keys;
    match op
    case Plainly(c, locker, answer) =>
      BracketKeepsMemory(used, locker, ShapeOf(c), Announced(c), Real(c, answer), Ended(c, answer));
    case Fopen(memory, locker, file, _) =>
      if memory.Some? {
        var number, more := (if file.Some? then 1 else 0), used + {memory.value};
        var middle := Bracket(locker, OpenWait, 0, RealFopen(file), number);
        var last := if file.None? then [Free(memory.value)] else [];
        assert Events(live, op) == [Malloc(memory)] + middle + last;
        BracketKeepsMemory(more, locker, OpenWait, 0, RealFopen(file), number);
        InUseConcat(Some(used), [Malloc(memory)], middle);
        InUseConcat(Some(used), [Malloc(memory)] + middle, last);
        InUseOne(used, Malloc(memory));
        InUseOne(more, Free(memory.value));
        assert more - {memory.value} == used;
        assert file.Some? ==> LiveAfter(live, op).Keys == more;
      } else {
        InUseOne(used, Malloc(memory));
      }
    case Fclose(handle, locker, result) =>
      if handle.Some? {
        var e := RealFclose(live[handle.value].mFile, result);
        BracketKeepsMemory(used, locker, CloseWait, 0, e, result);
        InUseConcat(Some(used), Bracket(locker, CloseWait, 0, e, result), [Free(handle.value)]);
        InUseOne(used, Free(handle.value));
        assert LiveAfter(live, op).Keys == used - {handle.value};
      }
    case Feof(result) => InUseOne(used, RealFeof(result));
    case CreateTemp(result) =>
      assert Events(live, op)[1..] == [FileCreated];
      InUseOne(used, FileCreated);
  }

  /** Over every run of fopen and fclose, mixed with anything: each structure is freed exactly once
      and only after it was allocated, the structures allocated are the open handles, and their
      number has changed by the successful opens minus the closes of a handle. */
  lemma {:induction false} StructuresBalance(live: Handles, run: Run)
    requires run.Of(live)
    ensures InUse(Some(live.Keys), run.Trace(live)) == Some(run.Live(live).Keys)
    ensures |run.Live(live)| == |live| + Count(run, false) - Count(run, true)
    decreases run
  {
    if run.Then? {
      var next := LiveAfter(live, run.op);
      OneCallMemory(live, run.op);
      StructuresBalance(next, run.rest);
      InUseConcat(Some(live.Keys), Events(live, run.op), run.rest.Trace(next));
      HandleCount(live, run.op);
    }
  }

  lemma HandleCount(live: Handles, op: Op)
    requires Proper(live, op)
    ensures |LiveAfter(live, op)| == |live| + Count(Then(op, Done), false) - Count(Then(op, Done), true)
  {
    if op.Fclose? && op.handle.Some? {
      assert LiveAfter(live, op).Keys == live.Keys - {op.handle.value};
      assert |live.Keys - {op.handle.value}| == |live.Keys| - 1;
    }
    if op.Fopen? && op.memory.Some? && op.file.Some? {
      assert LiveAfter(live, op).Keys == live.Keys + {op.memory.value};
    }
  }

  // ----- Bytes -----

  /** One of the flags "error if not all bytes" is set: MY_FNABP, bit 1, or MY_NABP, bit 2. */
  predicate AllOrNothing(flags: nat) { flags / 2 % 2 == 1 || flags / 4 % 2 == 1 }

  lemma OneBit(x: nat)
    ensures And(x, 0) == 0 && And(x, 1) == x % 2
  {
    AndZero(x);
    AndZero(x / 2);
  }

  lemma {:induction false} AndZero(x: nat)
    ensures And(x, 0) == 0
  {
    if x != 0 { AndZero(x / 2); }
  }

  /** The test of the code sees either flag, and no other. */
  lemma NabpExactly(flags: nat)
    ensures Nabp(flags) <==> AllOrNothing(flags)
  {
    assert Or(MY_NABP, MY_FNABP) == 6;
    AndEven(flags, 3);
    TwoBits(flags / 2);
  }

  lemma TwoBits(x: nat)
    ensures And(x, 3) == x % 2 + 2 * (x / 2 % 2)
  {
    OneBit(x / 2);
  }

  /** The bytes reported for any result at all, also one that the convention below does not have. */
  lemma MovedForAnyResult(count: nat, flags: nat, result: int)
    ensures AllOrNothing(flags) ==> Moved(count, flags, result) == if result == 0 then count else 0
    ensures !AllOrNothing(flags) ==> Moved(count, flags, result) == if result == 0xFFFF_FFFF_FFFF_FFFF then 0 else result
  {
    NabpExactly(flags);
  }

  /** What really happens in a transfer: n bytes are moved, and the call may fail. The return
      convention of my_read and its likes, with and without these flags. */
  datatype Outcome = Outcome(n: nat, failed: bool) {
    predicate Success(count: nat, flags: nat) { !failed && (AllOrNothing(flags) ==> n == count) }

    function Returned(count: nat, flags: nat): int {
      if !Success(count, flags) then MY_FILE_ERROR else if AllOrNothing(flags) then 0 else n
    }
  }

  /** The end event reports the bytes of a successful transfer and 0 for a failed one, unless the
      call moved 2^64 - 1 bytes, which the return value cannot tell from an error. */
  lemma MovedExactly(count: nat, flags: nat, o: Outcome)
    requires o.n <= count
    ensures Moved(count, flags, o.Returned(count, flags)) == (if o.Success(count, flags) then o.n else 0)
            <==> !(o.Success(count, flags) && !AllOrNothing(flags) && o.n == MY_FILE_ERROR)
  {
    NabpExactly(flags);
  }

  /** A run of transfers, with and without lockers. */
  datatype Transfers = NoMore
                     | Next(which: Transferring, count: nat, flags: nat, locker: bool, o: Outcome, rest: Transfers) {
    predicate Real() { Next? ==> o.n <= count && count < MY_FILE_ERROR && rest.Real() }

    function Ops(): Run {
      if NoMore? then Done
      else Then(Plainly(Transfer(which, count, flags), locker, Code(o.Returned(count, flags))), rest.Ops())
    }

    /** The bytes of the successful transfers that got a locker, and the bytes they asked for. */
    function Successful(): nat {
      if NoMore? then 0 else (if locker && o.Success(count, flags) then o.n else 0) + rest.Successful()
    }

    function Requested(): nat {
      if NoMore? then 0 else (if locker then count else 0) + rest.Requested()
    }
  }

  function Sum(t: seq<Event>, ends: bool): int {
    if t == [] then 0
    else
      (if ends && t[0].End? then t[0].number else if !ends && t[0].Start? then t[0].size else 0)
      + Sum(t[1..], ends)
  }

  lemma {:induction false} SumConcat(s: seq<Event>, t: seq<Event>, ends: bool)
    ensures Sum(s + t, ends) == Sum(s, ends) + Sum(t, ends)
  {
    if s == [] {
      assert s + t == t;
    } else {
      SumConcat(s[1..], t, ends);
      assert (s + t)[0] == s[0] && (s + t)[1..] == s[1..] + t;
    }
  }

  lemma SumBracket(locker: bool, shape: Shape, size: nat, e: Event, number: int, ends: bool)
    requires IsRealIo(e)
    ensures Sum(Bracket(locker, shape, size, e, number), ends)
            == if !locker then 0 else if ends then number else size
  {
    var b := Bracket(locker, shape, size, e, number);
    if !locker {
      assert b[1..] == [e] && [e][1..] == [];
      assert Sum(b, ends) == Sum(b[1..], ends) == 0;
      return;
    }
    assert b[1..] == [Start(shape, size), e, End(shape, number)];
    var two := [e, End(shape, number)];
    assert b[1..][1..] == two && two[1..] == [End(shape, number)] && two[1..][1..] == [];
    assert Sum(b, ends) == Sum(b[1..], ends);
    assert Sum(b[1..], ends) == (if ends then 0 else size) + Sum(two, ends);
    assert Sum(two, ends) == Sum(two[1..], ends) == if ends then number else 0;
  }

  lemma {:induction false} TransfersAreProper(ts: Transfers, live: Handles)
    ensures ts.Ops().Of(live)
    decreases ts
  {
    if ts.Next? { TransfersAreProper(ts.rest, live); }
  }

  /** Over every run of transfers the bytes the end events report add up to the bytes of the
      successful ones, the start events announce the bytes requested, and no more are reported. */
  lemma {:induction false} BytesAddUp(ts: Transfers, live: Handles)
    requires ts.Real()
    ensures ts.Ops().Of(live)
    ensures Sum(ts.Ops().Trace(live), true) == ts.Successful()
    ensures Sum(ts.Ops().Trace(live), false) == ts.Requested() >= ts.Successful()
    decreases ts
  {
    TransfersAreProper(ts, live);
    if ts.Next? {
      BytesAddUp(ts.rest, live);
      var c, r := Transfer(ts.which, ts.count, ts.flags), Code(ts.o.Returned(ts.count, ts.flags));
      MovedExactly(ts.count, ts.flags, ts.o);
      forall ends: bool ensures Sum(ts.Ops().Trace(live), ends)
          == (if !ts.locker then 0 else if ends then Ended(c, r) else Announced(c)) + Sum(ts.rest.Ops().Trace(live), ends) {
        SumConcat(Events(live, Plainly(c, ts.locker, r)), ts.rest.Ops().Trace(live), ends);
        SumBracket(ts.locker, FileWait, Announced(c), Real(c, r), Ended(c, r), ends);
      }
    }
  }

  /** The stream wrappers are not so exact: fgetc, fputc and fputs report their full size even when
      the real call fails, and fprintf and vfprintf report a failure as a huge size. The report is
      the number of bytes if and only if the call did not fail. */
  lemma StreamReports(c: Call, result: int)
    requires c.Fgetc? || c.Fputc? || c.Fputs? || c.Printf?
    requires -0x8000_0000 <= result < 0x8000_0000
    ensures var bytes := if result < 0 then 0 else if c.Printf? then result else Announced(c);
            Ended(c, Code(result)) == bytes <==> result >= 0 || (c.Fputs? && c.len == 0)
    ensures result < 0 ==> Ended(c, Code(result)) == if c.Printf? then SIZE + result else Announced(c)
  {
    if c.Printf? {
      assert Ended(c, Code(result)) == if result >= 0 then result else result + SIZE;
    }
  }

  lemma {:induction false} StrLenExactly(s: seq<byte>)
    ensures StrLen(s) <= |s| && 0 !in s[..StrLen(s)]
    ensures StrLen(s) < |s| ==> s[StrLen(s)] == 0
    ensures StrLen(s) == |s| <==> 0 !in s
  {
    if s != [] && s[0] != 0 {
      StrLenExactly(s[1..]);
      assert s == [s[0]] + s[1..];
      assert s[..StrLen(s)] == [s[0]] + s[1..][..StrLen(s[1..])];
    }
  }

  /** fgets does not stop at a 0 byte, but the length it reports does: it reports the number of bytes
      read if and only if none of them is 0, and the number before the first 0 otherwise. */
  lemma FgetsReports(size: nat, line: seq<byte>)
    ensures Ended(Fgets(size), Line(Some(line))) == |line| <==> 0 !in line
    ensures 0 in line ==> var k := Ended(Fgets(size), Line(Some(line)));
                          0 <= k < |line| && line[k] == 0 && 0 !in line[..k]
    ensures Ended(Fgets(size), Line(None)) == 0
  {
    StrLenExactly(line);
  }

  /** Four bytes read, one reported. */
  lemma FgetsStopsAtNul()
    ensures Ended(Fgets(80), Line(Some([0x61, 0x00, 0x62, 0x0A]))) == 1
  {
    var line: seq<byte> := [0x61, 0x00, 0x62, 0x0A];
    assert StrLen(line[1..]) == 0;
  }
}
