/** Instrumented read-write locks: the rwlock and prlock wrappers of mysql/psi/mysql_thread.h.

    Both kinds run the same programs; a prlock has no try variants. The real lock is the counter
    of my_pthread.h: -1 with a writer, 0 when free, otherwise the number of read locks. A thread
    may hold several read locks, so reports and real holds are compared as counts per thread. */
module InstrumentedRwlock {

  import opened ThreadLog

  datatype Mode = Read | Write

  datatype Action =
    | InitEvent
    | RealInit(rc: int)
    | DestroyEvent
    | RealDestroy(rc: int)
    | StartRwWait(mode: Mode, trying: bool, locker: bool)
    | Acquire(mode: Mode, trying: bool, rc: int)
    | EndRwWait(mode: Mode, rc: int)
    | UnlockEvent
    | Release(rc: int)

  datatype Call = Lock(mode: Mode, trying: bool, locker: bool, rc: int) | Unlock(rc: int)

  function Program(psi: bool, c: Call): seq<Action> {
    match c
    case Lock(mode, trying, locker, rc) =>
      if !psi then [Acquire(mode, trying, rc)]
      else if locker then [StartRwWait(mode, trying, true), Acquire(mode, trying, rc), EndRwWait(mode, rc)]
      else [StartRwWait(mode, trying, false), Acquire(mode, trying, rc)]
    case Unlock(rc) =>
      if psi then [UnlockEvent, Release(rc)] else [Release(rc)]
  }

  /** mysql_rwlock_t, and equally mysql_prlock_t, as one thread sees it. */
  class MysqlRwlock {
    var mPsi: bool
    var trace: seq<Action>

    constructor ()
      ensures trace == []
    {
      mPsi, trace := false, [];
    }

    method Init(psi: bool, rc: int) returns (result: int)
      modifies this
      ensures mPsi == psi && result == rc
      ensures trace == old(trace) + [InitEvent, RealInit(rc)]
    {
      trace := trace + [InitEvent];
      mPsi := psi;
      trace := trace + [RealInit(rc)];
      result := rc;
    }

    method Destroy(rc: int) returns (result: int)
      modifies this
      ensures !mPsi && result == rc
      ensures trace == old(trace) + (if old(mPsi) then [DestroyEvent] else []) + [RealDestroy(rc)]
    {
      if mPsi {
        trace := trace + [DestroyEvent];
        mPsi := false;
      }
      trace := trace + [RealDestroy(rc)];
      result := rc;
    }

    /** rdlock, wrlock, tryrdlock and trywrlock. */
    method LockOrTry(mode: Mode, trying: bool, locker: bool, rc: int) returns (result: int)
      modifies this`trace
      ensures result == rc
      ensures trace == old(trace) + Program(mPsi, Lock(mode, trying, locker, rc))
    {
      if mPsi {
        trace := trace + [StartRwWait(mode, trying, locker)];
        trace := trace + [Acquire(mode, trying, rc)];
        result := rc;
        if locker { trace := trace + [EndRwWait(mode, result)]; }
        return;
      }
      trace := trace + [Acquire(mode, trying, rc)];
      result := rc;
    }

    method Unlock(rc: int) returns (result: int)
      modifies this`trace
      ensures result == rc
      ensures trace == old(trace) + Program(mPsi, Call.Unlock(rc))
    {
      if mPsi { trace := trace + [UnlockEvent]; }
      trace := trace + [Release(rc)];
      result := rc;
    }
  }

  // ----- What the performance schema can tell from the events -----

  /** Reported read holds, with multiplicity, and reported writers. */
  datatype View = View(rd: multiset<Tid>, wr: set<Tid>)

  function Notice(v: View, t: Tid, a: Action): View {
    match a
    case EndRwWait(mode, rc) =>
      if rc != 0 then v
      else if mode.Read? then v.(rd := v.rd + multiset{t})
      else v.(wr := v.wr + {t})
    case UnlockEvent =>
      if t in v.wr then v.(wr := v.wr - {t}) else v.(rd := v.rd - multiset{t})
    case _ => v
  }

  function Observe(log: seq<(Tid, Action)>): View {
    if log == [] then View(multiset{}, {})
    else
      var (t, a) := log[|log| - 1];
      Notice(Observe(log[..|log| - 1]), t, a)
  }

  // ----- The machine -----

  datatype Thread = Idle | InCall(call: Call, at: nat)

  /** The real lock: its counter, and whose locks they are. */
  datatype RealLock = RealLock(state: int, readers: multiset<Tid>, writers: set<Tid>)

  datatype State = State(alive: bool, psi: bool, lock: RealLock,
                         threads: map<Tid, Thread>, log: seq<(Tid, Action)>)
  {
    function At(t: Tid): Thread { if t in threads then threads[t] else Idle }
  }

  datatype Move = Init(psi: bool) | Destroy | Begin(t: Tid, call: Call) | Act(t: Tid)

  const START := State(false, false, RealLock(0, multiset{}, {}), map[], [])

  predicate Pending(psi: bool, th: Thread) {
    th.InCall? && th.at < |Program(psi, th.call)|
  }

  /** The action a thread performs next. */
  function NextAction(psi: bool, th: Thread): Action
    requires Pending(psi, th)
  {
    Program(psi, th.call)[th.at]
  }

  predicate About(psi: bool, th: Thread, a: Action) {
    Pending(psi, th) && NextAction(psi, th) == a
  }

  /** The real calls look at the counter only; a successful unlock is one by a holder. */
  predicate Possible(l: RealLock, t: Tid, a: Action) {
    match a
    case Acquire(mode, _, rc) => rc == 0 ==> if mode.Read? then l.state >= 0 else l.state == 0
    case Release(rc) => rc == 0 ==> t in l.readers || t in l.writers
    case _ => true
  }

  function LockAfter(l: RealLock, t: Tid, a: Action): RealLock {
    match a
    case Acquire(mode, _, rc) =>
      if rc != 0 then l
      else if mode.Read? then l.(state := l.state + 1, readers := l.readers + multiset{t})
      else l.(state := -1, writers := l.writers + {t})
    case Release(rc) =>
      if rc != 0 then l
      else if l.state == -1 then l.(state := 0, writers := l.writers - {t})
      else l.(state := l.state - 1, readers := l.readers - multiset{t})
    case _ => l
  }

  ghost predicate Enabled(s: State, m: Move) {
    match m
    case Init(_) => !s.alive
    case Destroy => s.alive && s.lock.state == 0 && forall t :: s.At(t).Idle?
    case Begin(t, _) => s.alive && s.At(t).Idle?
    case Act(t) => Pending(s.psi, s.At(t)) && Possible(s.lock, t, NextAction(s.psi, s.At(t)))
  }

  function Advance(psi: bool, th: Thread): Thread
    requires th.InCall?
  {
    if th.at + 1 < |Program(psi, th.call)| then th.(at := th.at + 1) else Idle
  }

  ghost function Next(s: State, m: Move): State
    requires Enabled(s, m)
  {
    match m
    case Init(psi) => s.(alive := true, psi := psi)
    case Destroy => s.(alive := false, psi := false)
    case Begin(t, call) => s.(threads := s.threads[t := InCall(call, 0)])
    case Act(t) =>
      var a := NextAction(s.psi, s.At(t));
      s.(lock := LockAfter(s.lock, t, a),
         threads := s.threads[t := Advance(s.psi, s.At(t))],
         log := s.log + [(t, a)])
  }

  ghost predicate Legal(moves: seq<Move>)
    decreases |moves|, 0
  {
    moves == [] ||
    var before := moves[..|moves| - 1];
    Legal(before) && Enabled(After(before), moves[|moves| - 1])
  }

  ghost function After(moves: seq<Move>): State
    requires Legal(moves)
    decreases |moves|, 1
  {
    if moves == [] then START
    else Next(After(moves[..|moves| - 1]), moves[|moves| - 1])
  }

  // ----- The invariant -----

  /** What the counter means. */
  predicate LockInv(l: RealLock) {
    if l.writers == {} then l.state == |l.readers|
    else l.state == -1 && l.readers == multiset{} && |l.writers| == 1
  }

  /** What holds of thread t, at th, with the real lock at l and the observer at v. */
  predicate Consistent(alive: bool, psi: bool, l: RealLock, v: View, t: Tid, th: Thread) {
    && (th.InCall? ==> alive && Pending(psi, th))
    && v.rd[t] <= l.readers[t]
    && (t in v.wr ==> t in l.writers)
    && (t in v.rd || t in v.wr ==> alive && psi)
    && (About(psi, th, EndRwWait(Read, 0)) ==> v.rd[t] < l.readers[t])
    && (About(psi, th, EndRwWait(Write, 0)) ==> t in l.writers)
    && (Pending(psi, th) && NextAction(psi, th).Release? ==>
          t !in v.wr && (t in v.rd ==> v.rd[t] < l.readers[t]))
  }

  ghost predicate ThreadInv(s: State, t: Tid) {
    Consistent(s.alive, s.psi, s.lock, Observe(s.log), t, s.At(t))
  }

  ghost predicate Inv(s: State) { LockInv(s.lock) && forall t :: ThreadInv(s, t) }

  lemma ObserveLast(log: seq<(Tid, Action)>, t: Tid, a: Action)
    ensures Observe(log + [(t, a)]) == Notice(Observe(log), t, a)
  {
    assert (log + [(t, a)])[..|log|] == log;
  }

  lemma LockKeepsInv(l: RealLock, t: Tid, a: Action)
    requires LockInv(l) && Possible(l, t, a)
    ensures LockInv(LockAfter(l, t, a))
  {
    var l' := LockAfter(l, t, a);
    if a == Release(0) && l.state == -1 {
      assert l.writers == {t} by { OnlyMember(l.writers, t); }
    }
  }

  lemma OnlyMember(s: set<Tid>, t: Tid)
    requires |s| == 1 && t in s
    ensures s == {t}
  {
    assert |s - {t}| == 0;
  }

  /** One action keeps the acting thread consistent, */
  lemma ActingConsistent(psi: bool, l: RealLock, v: View, t: Tid, th: Thread)
    requires LockInv(l) && Consistent(true, psi, l, v, t, th)
    requires Pending(psi, th) && Possible(l, t, NextAction(psi, th))
    ensures var a := NextAction(psi, th);
            Consistent(true, psi, LockAfter(l, t, a), Notice(v, t, a), t, Advance(psi, th))
  {
    match th.call
    case Lock(_, _, _, _) =>
    case Unlock(_) =>
  }

  /** and every other thread. */
  lemma OtherConsistent(psi: bool, l: RealLock, v: View, t: Tid, a: Action, u: Tid, th: Thread)
    requires u != t && Consistent(true, psi, l, v, u, th)
    ensures Consistent(true, psi, LockAfter(l, t, a), Notice(v, t, a), u, th)
  {
    var l', v' := LockAfter(l, t, a), Notice(v, t, a);
    assert v'.rd[u] == v.rd[u] && (u in v'.wr <==> u in v.wr);
    assert l'.readers[u] == l.readers[u] && (u in l'.writers <==> u in l.writers);
  }

  lemma ActKeepsThread(s: State, m: Move, u: Tid)
    requires Inv(s) && m.Act? && Enabled(s, m)
    ensures ThreadInv(Next(s, m), u)
  {
    var t, v := m.t, Observe(s.log);
    var a := NextAction(s.psi, s.At(t));
    assert ThreadInv(s, t) && ThreadInv(s, u);
    ObserveLast(s.log, t, a);
    var s' := Next(s, m);
    assert s'.lock == LockAfter(s.lock, t, a) && Observe(s'.log) == Notice(v, t, a);
    assert s'.At(u) == if u == t then Advance(s.psi, s.At(t)) else s.At(u);
    if u == t {
      ActingConsistent(s.psi, s.lock, v, t, s.At(t));
    } else {
      OtherConsistent(s.psi, s.lock, v, t, a, u, s.At(u));
    }
  }

  lemma NextKeepsInv(s: State, m: Move)
    requires Inv(s) && Enabled(s, m)
    ensures Inv(Next(s, m))
  {
    if m.Act? { LockKeepsInv(s.lock, m.t, NextAction(s.psi, s.At(m.t))); }
    forall u ensures ThreadInv(Next(s, m), u) {
      assert ThreadInv(s, u);
      if m.Act? { ActKeepsThread(s, m, u); }
    }
  }

  lemma {:induction false} ReachableInv(moves: seq<Move>)
    requires Legal(moves)
    ensures Inv(After(moves))
  {
    if moves != [] {
      ReachableInv(moves[..|moves| - 1]);
      NextKeepsInv(After(moves[..|moves| - 1]), moves[|moves| - 1]);
    }
  }

  // ----- Main results -----

  /** In every reachable state, thread by thread, the reported read locks are no more than the
      real ones and a reported writer is the real one. */
  lemma ReportedWithinReal(moves: seq<Move>)
    requires Legal(moves)
    ensures var s := After(moves);
            Observe(s.log).rd <= s.lock.readers && Observe(s.log).wr <= s.lock.writers
  {
    ReachableInv(moves);
    var s := After(moves);
    forall t ensures Observe(s.log).rd[t] <= s.lock.readers[t]
                     && (t in Observe(s.log).wr ==> t in s.lock.writers) {
      assert ThreadInv(s, t);
    }
  }

  /** The counter of the real lock tells writers from readers in every reachable state. */
  lemma CounterMeaning(moves: seq<Move>)
    requires Legal(moves)
    ensures var l := After(moves).lock;
            && l.state >= -1
            && (l.state == -1 <==> l.writers != {})
            && (l.state >= 0 ==> l.state == |l.readers|)
            && (l.state > 0 <==> l.readers != multiset{})
  {
    ReachableInv(moves);
  }

  /** A reported writer excludes every other reported reader and writer. */
  lemma ReportedWriterAlone(moves: seq<Move>, t: Tid)
    requires Legal(moves) && t in Observe(After(moves).log).wr
    ensures Observe(After(moves).log) == View(multiset{}, {t})
  {
    ReportedWithinReal(moves);
    ReachableInv(moves);
    OnlyMember(After(moves).lock.writers, t);
  }

  // ----- What each thread does -----

  /** A call that was begun, and whether the lock had a hook then. */
  datatype Asked = Asked(psi: bool, call: Call)

  /** The calls that thread t has begun, read off the moves. */
  ghost function CallsOf(moves: seq<Move>, t: Tid): seq<Asked>
    requires Legal(moves)
    decreases |moves|
  {
    if moves == [] then []
    else
      var before, m := moves[..|moves| - 1], moves[|moves| - 1];
      CallsOf(before, t) + if m.Begin? && m.t == t then [Asked(After(before).psi, m.call)] else []
  }

  function RunOf(x: Asked): seq<Action> { Program(x.psi, x.call) }

  function PlaceOf(psi: bool, th: Thread): Place<Asked> {
    if th.Idle? then Between else Inside(Asked(psi, th.call), th.at)
  }

  /** What thread t has performed is what the calls xs run, up to where it is. */
  ghost predicate Consequent(s: State, t: Tid, xs: seq<Asked>) {
    Follows(RunOf, xs, PlaceOf(s.psi, s.At(t)), ActionsOf(s.log, t))
  }

  lemma RunsSomething(x: Asked)
    ensures RunOf(x) != []
  {
    match x.call
    case _ =>
  }

  lemma PlaceAdvances(psi: bool, th: Thread)
    requires Pending(psi, th)
    ensures var x := Asked(psi, th.call);
            && th.at < |RunOf(x)| && NextAction(psi, th) == RunOf(x)[th.at] && PlaceOf(psi, th) == Inside(x, th.at)
            && PlaceOf(psi, Advance(psi, th)) == if th.at + 1 < |RunOf(x)| then Inside(x, th.at + 1) else Between
  {}

  lemma ActConsequent(s: State, t: Tid, u: Tid, xs: seq<Asked>)
    requires Enabled(s, Act(u)) && Consequent(s, t, xs)
    ensures Consequent(Next(s, Act(u)), t, xs)
  {
    var s', a := Next(s, Act(u)), NextAction(s.psi, s.At(u));
    assert s'.log == s.log + [(u, a)] && s'.At(t) == if u == t then Advance(s.psi, s.At(t)) else s.At(t);
    ActionsLast(s.log, u, a, t);
    if u == t {
      PlaceAdvances(s.psi, s.At(t));
      FollowsAct(RunOf, xs, Asked(s.psi, s.At(t).call), s.At(t).at, ActionsOf(s.log, t));
    }
  }

  lemma BeginConsequent(s: State, t: Tid, u: Tid, call: Call, xs: seq<Asked>)
    requires Enabled(s, Begin(u, call)) && Consequent(s, t, xs)
    ensures Consequent(Next(s, Begin(u, call)), t, if u == t then xs + [Asked(s.psi, call)] else xs)
  {
    var s' := Next(s, Begin(u, call));
    assert s'.At(t) == if u == t then InCall(call, 0) else s.At(t);
    if u == t {
      RunsSomething(Asked(s.psi, call));
      FollowsBegin(RunOf, xs, ActionsOf(s.log, t), Asked(s.psi, call));
    }
  }

  /** In every reachable state. */
  lemma {:induction false} History(moves: seq<Move>, t: Tid)
    requires Legal(moves)
    ensures Consequent(After(moves), t, CallsOf(moves, t))
    decreases |moves|
  {
    if moves != [] {
      var before, m := moves[..|moves| - 1], moves[|moves| - 1];
      var s, xs := After(before), CallsOf(before, t);
      History(before, t);
      assert xs + [] == xs;
      match m
      case Act(u) => ActConsequent(s, t, u, xs);
      case Begin(u, call) => BeginConsequent(s, t, u, call, xs);
      case _ =>
        ReachableInv(before);
        assert ThreadInv(s, t) && s.At(t).Idle?;
    }
  }

  // ----- Brackets -----

  /** Where the actions of a thread stand: outside any bracket, after a start event, after the real
      call if an end event is owed, after an unlock event. */
  datatype Phase =
    | Closed
    | Started(mode: Mode, trying: bool, locker: bool)
    | Called(mode: Mode, rc: int)
    | UnlockSent
    | Broken

  function NextPhase(p: Phase, a: Action): Phase {
    match p
    case Closed =>
      (match a
       case StartRwWait(mode, trying, locker) => Started(mode, trying, locker)
       case UnlockEvent => UnlockSent
       case Acquire(_, _, _) => Closed
       case Release(_) => Closed
       case _ => Broken)
    case Started(mode, trying, locker) =>
      if !a.Acquire? || a.mode != mode || a.trying != trying then Broken
      else if locker then Called(mode, a.rc)
      else Closed
    case Called(mode, rc) => if a == EndRwWait(mode, rc) then Closed else Broken
    case UnlockSent => if a.Release? then Closed else Broken
    case Broken => Broken
  }

  /** The phase of thread t. */
  function PhaseOf(log: seq<(Tid, Action)>, t: Tid): Phase { Fold(NextPhase, Closed, ActionsOf(log, t)) }

  lemma CallCloses(x: Asked)
    ensures Fold(NextPhase, Closed, RunOf(x)) == Closed
  {
    match x.call
    case Lock(mode, trying, locker, rc) =>
      var (a, b, c) := (StartRwWait(mode, trying, locker), Acquire(mode, trying, rc), EndRwWait(mode, rc));
      if x.psi { FoldFour(NextPhase, Closed, a, b, c, c); } else { FoldFour(NextPhase, Closed, b, b, b, b); }
    case Unlock(rc) =>
      var (a, b) := (UnlockEvent, Release(rc));
      if x.psi { FoldFour(NextPhase, Closed, a, b, b, b); } else { FoldFour(NextPhase, Closed, b, b, b, b); }
  }

  /** In the log of every run and for every thread, each start event with a non-NULL locker is
      followed by one real call of its mode and then by one end event of that mode with the result
      of the call, all before the wrapper returns; one with a NULL locker by the real call and no
      end event. An unlock event is followed by the unlock. */
  lemma BracketsMatch(moves: seq<Move>, t: Tid)
    requires Legal(moves)
    ensures PhaseOf(After(moves).log, t) != Broken
    ensures After(moves).At(t).Idle? ==> PhaseOf(After(moves).log, t) == Closed
  {
    History(moves, t);
    var s := After(moves);
    forall x ensures Fold(NextPhase, Closed, RunOf(x)) == Closed { CallCloses(x); }
    FollowsFold(NextPhase, Closed, Broken, RunOf, CallsOf(moves, t), PlaceOf(s.psi, s.At(t)), ActionsOf(s.log, t));
  }

  // ----- Transparency -----

  predicate IsReal(a: Action) { a.Acquire? || a.Release? || a.RealInit? || a.RealDestroy? }

  /** The real call that a call of a wrapper asks for, with its result. */
  function Wanted(x: Asked): seq<Action> {
    match x.call
    case Lock(mode, trying, _, rc) => [Acquire(mode, trying, rc)]
    case Unlock(rc) => [Release(rc)]
  }

  predicate Announces(a: Action) { a.StartRwWait? || a.UnlockEvent? }

  /** The event that announces a call, with the locker it got, and none without a hook. */
  function Announced(x: Asked): seq<Action> {
    match x.call
    case Lock(mode, trying, locker, _) => if x.psi then [StartRwWait(mode, trying, locker)] else []
    case Unlock(_) => if x.psi then [UnlockEvent] else []
  }

  lemma LockTransparent(psi: bool, mode: Mode, trying: bool, locker: bool, rc: int)
    ensures var x := Asked(psi, Lock(mode, trying, locker, rc));
            Only(RunOf(x), IsReal) == Wanted(x) && Only(RunOf(x), Announces) == Announced(x)
  {
    var (a, b, c) := (StartRwWait(mode, trying, locker), Acquire(mode, trying, rc), EndRwWait(mode, rc));
    if psi {
      OnlyFour(a, b, c, c, IsReal);
      OnlyFour(a, b, c, c, Announces);
    } else {
      OnlyFour(b, b, b, b, IsReal);
      OnlyFour(b, b, b, b, Announces);
    }
  }

  lemma CallTransparent(x: Asked)
    ensures Only(RunOf(x), IsReal) == Wanted(x) && Only(RunOf(x), Announces) == Announced(x)
  {
    match x.call
    case Lock(mode, trying, locker, rc) => LockTransparent(x.psi, mode, trying, locker, rc);
    case Unlock(rc) => UnlockTransparent(x.psi, rc);
  }

  lemma UnlockTransparent(psi: bool, rc: int)
    ensures var x := Asked(psi, Unlock(rc));
            Only(RunOf(x), IsReal) == Wanted(x) && Only(RunOf(x), Announces) == Announced(x)
  {
    var (a, b) := (UnlockEvent, Release(rc));
    if psi {
      OnlyFour(a, b, b, b, IsReal);
      OnlyFour(a, b, b, b, Announces);
    } else {
      OnlyFour(b, b, b, b, IsReal);
      OnlyFour(b, b, b, b, Announces);
    }
  }

  /** With the events erased, what a thread has done between its calls is exactly what they asked
      for, with the results of the real calls, and in a call a beginning of it. Exactly the calls
      that found a hook have sent a start or unlock event, of their mode and with the locker they got. */
  lemma Transparent(moves: seq<Move>, t: Tid)
    requires Legal(moves)
    ensures var actions, calls := ActionsOf(After(moves).log, t), CallsOf(moves, t);
            if After(moves).At(t).Idle?
            then Only(actions, IsReal) == Flat(calls, Wanted) && Only(actions, Announces) == Flat(calls, Announced)
            else calls != [] && Flat(calls[..|calls| - 1], Wanted) <= Only(actions, IsReal) <= Flat(calls, Wanted)
  {
    History(moves, t);
    var s, xs := After(moves), CallsOf(moves, t);
    var here, actions := PlaceOf(s.psi, s.At(t)), ActionsOf(s.log, t);
    forall x ensures Only(RunOf(x), IsReal) == Wanted(x) && Only(RunOf(x), Announces) == Announced(x) {
      CallTransparent(x);
    }
    FollowsOnly(RunOf, xs, here, actions, IsReal, Wanted);
    FollowsOnly(RunOf, xs, here, actions, Announces, Announced);
  }

  // ----- When nothing is missing from the report -----

  predicate FullCall(c: Call) { if c.Lock? then c.locker else c.rc == 0 }

  /** Every lock is created with a hook, every locker is non-NULL and no unlock is refused. */
  predicate FullyInstrumented(moves: seq<Move>) {
    forall k | 0 <= k < |moves| ::
      && (moves[k].Init? ==> moves[k].psi)
      && (moves[k].Begin? ==> FullCall(moves[k].call))
  }

  /** A real hold of t is missing from the report only between the two steps of one call. */
  predicate Complete(psi: bool, l: RealLock, v: View, t: Tid, th: Thread) {
    var releasing := Pending(psi, th) && NextAction(psi, th).Release?;
    && (th.InCall? ==> FullCall(th.call))
    && l.readers[t] == v.rd[t] +
         (if About(psi, th, EndRwWait(Read, 0)) || (releasing && t in l.readers) then 1 else 0)
    && (t in l.writers ==> t in v.wr || About(psi, th, EndRwWait(Write, 0)) || releasing)
  }

  ghost predicate ThreadExact(s: State, t: Tid) {
    Complete(s.psi, s.lock, Observe(s.log), t, s.At(t))
  }

  ghost predicate Exact(s: State) {
    s.psi == s.alive && forall t :: ThreadExact(s, t)
  }

  lemma ActingUnlockComplete(l: RealLock, v: View, t: Tid, th: Thread)
    requires LockInv(l) && Consistent(true, true, l, v, t, th) && Complete(true, l, v, t, th)
    requires Pending(true, th) && Possible(l, t, NextAction(true, th)) && th.call.Unlock?
    ensures var a := NextAction(true, th);
            Complete(true, LockAfter(l, t, a), Notice(v, t, a), t, Advance(true, th))
  {
    if th.at == 0 { assert NextAction(true, th) == UnlockEvent; }
  }

  lemma ActingComplete(l: RealLock, v: View, t: Tid, th: Thread)
    requires LockInv(l) && Consistent(true, true, l, v, t, th) && Complete(true, l, v, t, th)
    requires Pending(true, th) && Possible(l, t, NextAction(true, th))
    ensures var a := NextAction(true, th);
            Complete(true, LockAfter(l, t, a), Notice(v, t, a), t, Advance(true, th))
  {
    match th.call
    case Lock(_, _, _, _) =>
    case Unlock(_) => ActingUnlockComplete(l, v, t, th);
  }

  lemma OtherComplete(l: RealLock, v: View, t: Tid, a: Action, u: Tid, th: Thread)
    requires u != t && Complete(true, l, v, u, th)
    ensures Complete(true, LockAfter(l, t, a), Notice(v, t, a), u, th)
  {
    var l', v' := LockAfter(l, t, a), Notice(v, t, a);
    assert v'.rd[u] == v.rd[u] && (u in v'.wr <==> u in v.wr);
    assert l'.readers[u] == l.readers[u] && (u in l'.writers <==> u in l.writers);
  }

  lemma NextKeepsExact(s: State, m: Move)
    requires Inv(s) && Exact(s) && Enabled(s, m)
    requires m.Init? ==> m.psi
    requires m.Begin? ==> FullCall(m.call)
    ensures Exact(Next(s, m))
  {
    forall u ensures ThreadExact(Next(s, m), u) {
      assert ThreadInv(s, u) && ThreadExact(s, u);
      if m.Act? {
        var t, v := m.t, Observe(s.log);
        var a := NextAction(s.psi, s.At(t));
        assert ThreadInv(s, t);
        ObserveLast(s.log, t, a);
        if u == t { ActingComplete(s.lock, v, t, s.At(t)); }
        else { OtherComplete(s.lock, v, t, a, u, s.At(u)); }
      }
    }
  }

  lemma {:induction false} ReachableExact(moves: seq<Move>)
    requires Legal(moves) && FullyInstrumented(moves)
    ensures Exact(After(moves))
  {
    if moves != [] {
      var before := moves[..|moves| - 1];
      assert FullyInstrumented(before);
      ReachableExact(before);
      ReachableInv(before);
      NextKeepsExact(After(before), moves[|moves| - 1]);
    }
  }

  /** In a fully instrumented run the report and the real lock agree, count by count, about every
      thread that is not inside a call. */
  lemma ReportExactWhenIdle(moves: seq<Move>, t: Tid)
    requires Legal(moves) && FullyInstrumented(moves) && After(moves).At(t).Idle?
    ensures var s := After(moves);
            && Observe(s.log).rd[t] == s.lock.readers[t]
            && (t in Observe(s.log).wr <==> t in s.lock.writers)
  {
    ReachableExact(moves);
    ReachableInv(moves);
    assert ThreadExact(After(moves), t) && ThreadInv(After(moves), t);
  }
}
