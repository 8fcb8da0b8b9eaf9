/** Instrumented mutexes and conditions: the wrappers of mysql/psi/mysql_thread.h.

    A wrapper call is a short program of actions: events sent to the performance schema and
    calls of the real mutex. `Program` lists them in the order of the code; the class
    `MysqlMutex` performs them one by one and is proved to perform exactly that list. The
    machine below interleaves the programs of any number of threads action by action, and the
    observer `Observe` rebuilds, from the events alone, which threads appear to hold the mutex. */
module InstrumentedMutex {

  import opened ThreadLog

  datatype Owner = Nobody | By(t: Tid)

  /** One event or one real call. `locker` is whether a start event returned a non-NULL locker,
      `rc` a return code. */
  datatype Action =
    | InitEvent
    | RealInit(rc: int)
    | DestroyEvent
    | RealDestroy(rc: int)
    | StartMutexWait(trying: bool, locker: bool)
    | Acquire(trying: bool, rc: int)
    | EndMutexWait(rc: int)
    | UnlockEvent
    | Release(rc: int)
    | StartCondWait(locker: bool)
    | WaitRelease               // the real wait has given the mutex up and blocks
    | WaitReacquire(rc: int)    // the real wait has the mutex again and returns
    | WaitRefused(rc: int)      // the real wait fails without giving the mutex up
    | EndCondWait(rc: int)
    | SignalEvent(broadcast: bool)
    | Signal(broadcast: bool, rc: int)

  /** A call of a wrapper, with the answers the environment will give it. `trying` is whether it is a
      trylock, which differs from a lock in the operation it announces and the real call it makes;
      both may fail at any time. `condPsi` is whether the condition has an instrumentation hook. */
  datatype Call =
    | Lock(trying: bool, locker: bool, rc: int)
    | Unlock(rc: int)
    | Wait(condPsi: bool, locker: bool, released: bool, rc: int)
    | Wake(condPsi: bool, broadcast: bool, rc: int)

  function Program(psi: bool, c: Call): seq<Action> {
    match c
    case Lock(trying, locker, rc) =>
      if !psi then [Acquire(trying, rc)]
      else if locker then [StartMutexWait(trying, true), Acquire(trying, rc), EndMutexWait(rc)]
      else [StartMutexWait(trying, false), Acquire(trying, rc)]
    case Unlock(rc) =>
      if psi then [UnlockEvent, Release(rc)] else [Release(rc)]
    case Wait(condPsi, locker, released, rc) =>
      if released then
        if !condPsi then [WaitRelease, WaitReacquire(rc)]
        else if locker then [StartCondWait(true), WaitRelease, WaitReacquire(rc), EndCondWait(rc)]
        else [StartCondWait(false), WaitRelease, WaitReacquire(rc)]
      else
        if !condPsi then [WaitRefused(rc)]
        else if locker then [StartCondWait(true), WaitRefused(rc), EndCondWait(rc)]
        else [StartCondWait(false), WaitRefused(rc)]
    case Wake(condPsi, broadcast, rc) =>
      if condPsi then [SignalEvent(broadcast), Signal(broadcast, rc)] else [Signal(broadcast, rc)]
  }

  /** mysql_mutex_t as one thread sees it: the instrumentation hook, and the actions performed. */
  class MysqlMutex {
    var mPsi: bool
    var trace: seq<Action>

    constructor ()
      ensures trace == []
    {
      mPsi, trace := false, [];
    }

    /** mysql_mutex_init: the hook is whatever init_mutex returned. */
    method Init(psi: bool, rc: int) returns (result: int)
      modifies this
      ensures mPsi == psi && result == rc
      ensures trace == old(trace) + [InitEvent, RealInit(rc)]
    {
      trace := trace + [InitEvent];
      mPsi := psi;
      trace := trace + [RealInit(rc)];
      result := rc;
    }

    /** mysql_mutex_destroy: the hook is cleared, so later calls send no event. */
    method Destroy(rc: int) returns (result: int)
      modifies this
      ensures !mPsi && result == rc
      ensures trace == old(trace) + (if old(mPsi) then [DestroyEvent] else []) + [RealDestroy(rc)]
    {
      if mPsi {
        trace := trace + [DestroyEvent];
        mPsi := false;
      }
      trace := trace + [RealDestroy(rc)];
      result := rc;
    }

    /** mysql_mutex_lock and mysql_mutex_trylock. */
    method LockOrTry(trying: bool, locker: bool, rc: int) returns (result: int)
      modifies this`trace
      ensures result == rc
      ensures trace == old(trace) + Program(mPsi, Lock(trying, locker, rc))
    {
      if mPsi {
        trace := trace + [StartMutexWait(trying, locker)];
        trace := trace + [Acquire(trying, rc)];
        result := rc;
        if locker { trace := trace + [EndMutexWait(result)]; }
        return;
      }
      trace := trace + [Acquire(trying, rc)];
      result := rc;
    }

    method Unlock(rc: int) returns (result: int)
      modifies this`trace
      ensures result == rc
      ensures trace == old(trace) + Program(mPsi, Call.Unlock(rc))
    {
      if mPsi { trace := trace + [UnlockEvent]; }
      trace := trace + [Release(rc)];
      result := rc;
    }

    /** mysql_cond_wait and mysql_cond_timedwait on this mutex. */
    method CondWait(condPsi: bool, locker: bool, released: bool, rc: int) returns (result: int)
      modifies this`trace
      ensures result == rc
      ensures trace == old(trace) + Program(mPsi, Wait(condPsi, locker, released, rc))
    {
      if condPsi {
        trace := trace + [StartCondWait(locker)];
        RealWait(released, rc);
        result := rc;
        if locker { trace := trace + [EndCondWait(result)]; }
        return;
      }
      RealWait(released, rc);
      result := rc;
    }

    /** my_cond_wait: every return but a refusal has given the mutex up and taken it back. */
    method RealWait(released: bool, rc: int)
      modifies this`trace
      ensures trace == old(trace) + if released then [WaitRelease, WaitReacquire(rc)] else [WaitRefused(rc)]
    {
      if released {
        trace := trace + [WaitRelease];
        trace := trace + [WaitReacquire(rc)];
      } else {
        trace := trace + [WaitRefused(rc)];
      }
    }

    /** mysql_cond_signal and mysql_cond_broadcast. */
    method CondSignal(condPsi: bool, broadcast: bool, rc: int) returns (result: int)
      modifies this`trace
      ensures result == rc
      ensures trace == old(trace) + Program(mPsi, Wake(condPsi, broadcast, rc))
    {
      if condPsi { trace := trace + [SignalEvent(broadcast)]; }
      trace := trace + [Signal(broadcast, rc)];
      result := rc;
    }
  }

  // ----- What the performance schema can tell from the events -----

  /** `held`: threads between a successful end_mutex_wait and their next unlock_mutex event;
      `waiting`: threads between start_cond_wait and end_cond_wait of a non-NULL locker. */
  datatype View = View(held: set<Tid>, waiting: set<Tid>)

  function Notice(v: View, t: Tid, a: Action): View {
    match a
    case EndMutexWait(rc) => if rc == 0 then v.(held := v.held + {t}) else v
    case UnlockEvent => v.(held := v.held - {t})
    case StartCondWait(locker) => if locker then v.(waiting := v.waiting + {t}) else v
    case EndCondWait(_) => v.(waiting := v.waiting - {t})
    case _ => v
  }

  function Observe(log: seq<(Tid, Action)>): View {
    if log == [] then View({}, {})
    else
      var (t, a) := log[|log| - 1];
      Notice(Observe(log[..|log| - 1]), t, a)
  }

  /** The threads taken for holders, by an observer that does (`condAware`) or does not take a
      thread for a non-holder while it waits on a condition. */
  function Holders(v: View, condAware: bool): set<Tid> {
    if condAware then v.held - v.waiting else v.held
  }

  function Reported(log: seq<(Tid, Action)>, condAware: bool): set<Tid> { Holders(Observe(log), condAware) }

  // ----- The machine -----

  datatype Thread = Idle | InCall(call: Call, at: nat)

  datatype State = State(alive: bool, psi: bool, owner: Owner,
                         threads: map<Tid, Thread>, log: seq<(Tid, Action)>)
  {
    function At(t: Tid): Thread { if t in threads then threads[t] else Idle }
  }

  datatype Move = Init(psi: bool) | Destroy | Begin(t: Tid, call: Call) | Act(t: Tid)

  const START := State(false, false, Nobody, map[], [])

  predicate Pending(psi: bool, th: Thread) {
    th.InCall? && th.at < |Program(psi, th.call)|
  }

  /** The action a thread performs next. */
  function NextAction(psi: bool, th: Thread): Action
    requires Pending(psi, th)
  {
    Program(psi, th.call)[th.at]
  }

  predicate About(psi: bool, th: Thread, a: Action) {
    Pending(psi, th) && NextAction(psi, th) == a
  }

  /** The real mutex has one owner. Locking may fail at any time and unlocking may be refused,
      but success needs a free mutex, respectively one that the thread owns. */
  predicate Possible(owner: Owner, t: Tid, a: Action) {
    match a
    case Acquire(_, rc) => rc == 0 ==> owner == Nobody
    case Release(rc) => rc == 0 ==> owner == By(t)
    case WaitRelease => owner == By(t)
    case WaitReacquire(_) => owner == Nobody
    case _ => true
  }

  function OwnerAfter(owner: Owner, t: Tid, a: Action): Owner {
    match a
    case Acquire(_, rc) => if rc == 0 then By(t) else owner
    case Release(rc) => if rc == 0 then Nobody else owner
    case WaitRelease => Nobody
    case WaitReacquire(_) => By(t)
    case _ => owner
  }

  ghost predicate Quiet(s: State) {
    s.owner == Nobody && forall t :: s.At(t).Idle?
  }

  /** Nothing is asked of the callers of lock, unlock and wait; a mutex is used between init and
      destroy, and destroyed only when it is free and no call is in progress. */
  ghost predicate Enabled(s: State, m: Move) {
    match m
    case Init(_) => !s.alive
    case Destroy => s.alive && Quiet(s)
    case Begin(t, _) => s.alive && s.At(t).Idle?
    case Act(t) => Pending(s.psi, s.At(t)) && Possible(s.owner, t, NextAction(s.psi, s.At(t)))
  }

  function Advance(psi: bool, th: Thread): Thread
    requires th.InCall?
  {
    if th.at + 1 < |Program(psi, th.call)| then th.(at := th.at + 1) else Idle
  }

  ghost function Next(s: State, m: Move): State
    requires Enabled(s, m)
  {
    match m
    case Init(psi) => s.(alive := true, psi := psi)
    case Destroy => s.(alive := false, psi := false)
    case Begin(t, call) => s.(threads := s.threads[t := InCall(call, 0)])
    case Act(t) =>
      var a := NextAction(s.psi, s.At(t));
      s.(owner := OwnerAfter(s.owner, t, a),
         threads := s.threads[t := Advance(s.psi, s.At(t))],
         log := s.log + [(t, a)])
  }

  ghost predicate Legal(moves: seq<Move>)
    decreases |moves|, 0
  {
    moves == [] ||
    var before := moves[..|moves| - 1];
    Legal(before) && Enabled(After(before), moves[|moves| - 1])
  }

  /** The state after any interleaving of moves. */
  ghost function After(moves: seq<Move>): State
    requires Legal(moves)
    decreases |moves|, 1
  {
    if moves == [] then START
    else Next(After(moves[..|moves| - 1]), moves[|moves| - 1])
  }

  // ----- The invariant -----

  /** A thread inside the real wait, without the mutex. */
  predicate Blocked(psi: bool, th: Thread) { Pending(psi, th) && NextAction(psi, th).WaitReacquire? }

  /** A thread between the two events of an instrumented wait. */
  predicate Bracketed(th: Thread) {
    th.InCall? && th.at > 0 && th.call.Wait? && th.call.condPsi && th.call.locker
  }

  /** What holds of thread t, at th, with the mutex owned by `owner` and the observer at v. */
  predicate Consistent(alive: bool, psi: bool, owner: Owner, v: View, t: Tid, th: Thread) {
    && (th.InCall? ==> alive && Pending(psi, th))
    && (About(psi, th, EndMutexWait(0)) ==> owner == By(t))
    && (Blocked(psi, th) ==> owner != By(t))
    && (t in v.held ==> alive && psi && (owner == By(t) || Blocked(psi, th)))
    && (t in v.held && Pending(psi, th) ==> !NextAction(psi, th).Release?)
    && (t in v.waiting <==> Bracketed(th))
  }

  ghost predicate ThreadInv(s: State, t: Tid) {
    Consistent(s.alive, s.psi, s.owner, Observe(s.log), t, s.At(t))
  }

  ghost predicate Inv(s: State) { forall t :: ThreadInv(s, t) }

  lemma ObserveLast(log: seq<(Tid, Action)>, t: Tid, a: Action)
    ensures Observe(log + [(t, a)]) == Notice(Observe(log), t, a)
  {
    assert (log + [(t, a)])[..|log|] == log;
  }

  lemma WaitConsistent(psi: bool, owner: Owner, v: View, t: Tid, th: Thread)
    requires Consistent(true, psi, owner, v, t, th)
    requires Pending(psi, th) && Possible(owner, t, NextAction(psi, th)) && th.call.Wait?
    ensures var a := NextAction(psi, th);
            Consistent(true, psi, OwnerAfter(owner, t, a), Notice(v, t, a), t, Advance(psi, th))
  {
    match NextAction(psi, th)
    case StartCondWait(_) =>
    case WaitRelease =>
    case WaitReacquire(_) =>
    case WaitRefused(_) =>
    case EndCondWait(_) =>
  }

  /** One action keeps the acting thread consistent, */
  lemma ActingConsistent(psi: bool, owner: Owner, v: View, t: Tid, th: Thread)
    requires Consistent(true, psi, owner, v, t, th)
    requires Pending(psi, th) && Possible(owner, t, NextAction(psi, th))
    ensures var a := NextAction(psi, th);
            Consistent(true, psi, OwnerAfter(owner, t, a), Notice(v, t, a), t, Advance(psi, th))
  {
    match th.call
    case Lock(_, _, _) =>
    case Unlock(_) =>
    case Wait(_, _, _, _) => WaitConsistent(psi, owner, v, t, th);
    case Wake(_, _, _) =>
  }

  /** and every other thread. */
  lemma OtherConsistent(psi: bool, owner: Owner, v: View, t: Tid, a: Action, u: Tid, th: Thread)
    requires u != t && Possible(owner, t, a) && Consistent(true, psi, owner, v, u, th)
    ensures Consistent(true, psi, OwnerAfter(owner, t, a), Notice(v, t, a), u, th)
  {
  }

  lemma ActKeepsThread(s: State, m: Move, u: Tid)
    requires Inv(s) && m.Act? && Enabled(s, m)
    ensures ThreadInv(Next(s, m), u)
  {
    var t, v := m.t, Observe(s.log);
    var a := NextAction(s.psi, s.At(t));
    assert ThreadInv(s, t) && ThreadInv(s, u);
    ObserveLast(s.log, t, a);
    var s' := Next(s, m);
    assert s'.owner == OwnerAfter(s.owner, t, a) && Observe(s'.log) == Notice(v, t, a);
    assert s'.At(u) == if u == t then Advance(s.psi, s.At(t)) else s.At(u);
    if u == t {
      ActingConsistent(s.psi, s.owner, v, t, s.At(t));
    } else {
      OtherConsistent(s.psi, s.owner, v, t, a, u, s.At(u));
    }
  }

  lemma NextKeepsInv(s: State, m: Move)
    requires Inv(s) && Enabled(s, m)
    ensures Inv(Next(s, m))
  {
    forall u ensures ThreadInv(Next(s, m), u) {
      assert ThreadInv(s, u);
      if m.Act? { ActKeepsThread(s, m, u); }
    }
  }

  lemma {:induction false} ReachableInv(moves: seq<Move>)
    requires Legal(moves)
    ensures Inv(After(moves))
  {
    if moves != [] {
      ReachableInv(moves[..|moves| - 1]);
      NextKeepsInv(After(moves[..|moves| - 1]), moves[|moves| - 1]);
    }
  }

  // ----- Main results -----

  /** Every reported holder really owns the mutex. */
  ghost predicate Contained(s: State, condAware: bool) {
    forall t :: t in Reported(s.log, condAware) ==> s.owner == By(t)
  }

  /** In every reachable state the report is right except about threads blocked inside a wait:
      it is contained in the real holds exactly when it names none of those. */
  lemma ContainedExactly(moves: seq<Move>, condAware: bool)
    requires Legal(moves)
    ensures var s := After(moves);
            Contained(s, condAware) <==> forall t :: Blocked(s.psi, s.At(t)) ==> t !in Reported(s.log, condAware)
  {
    ReachableInv(moves);
    var s := After(moves);
    forall t
      ensures t in Reported(s.log, condAware) ==> s.owner == By(t) || Blocked(s.psi, s.At(t))
      ensures Blocked(s.psi, s.At(t)) ==> s.owner != By(t)
    {
      assert ThreadInv(s, t);
    }
  }

  /** A thread gives the mutex up inside a wait while it is reported as a holder. */
  ghost predicate Exposes(s: State, m: Move, condAware: bool) {
    m.Act? && About(s.psi, s.At(m.t), WaitRelease) && m.t in Reported(s.log, condAware)
  }

  lemma StepContained(s: State, m: Move, condAware: bool)
    requires Inv(s) && Enabled(s, m) && Contained(s, condAware)
    ensures Contained(Next(s, m), condAware) <==> !Exposes(s, m, condAware)
  {
    if m.Act? {
      var s' := Next(s, m);
      assert ThreadInv(s, m.t);
      ObserveLast(s.log, m.t, NextAction(s.psi, s.At(m.t)));
      NextKeepsInv(s, m);
      assert ThreadInv(s', m.t);
      if !Exposes(s, m, condAware) {
        forall t | t in Reported(s'.log, condAware) ensures s'.owner == By(t) {
          assert ThreadInv(s', t) && ThreadInv(s, t);
        }
      }
    }
  }

  lemma Prefix(moves: seq<Move>, k: nat)
    requires Legal(moves) && k <= |moves|
    ensures Legal(moves[..k])
    ensures k < |moves| ==> Enabled(After(moves[..k]), moves[k])
                            && Legal(moves[..k + 1])
                            && After(moves[..k + 1]) == Next(After(moves[..k]), moves[k])
    decreases |moves| - k
  {
    if k == |moves| {
      assert moves[..k] == moves;
    } else {
      Prefix(moves, k + 1);
      var more := moves[..k + 1];
      assert more[..|more| - 1] == moves[..k] && more[|more| - 1] == moves[k];
    }
  }

  ghost predicate AlwaysContained(moves: seq<Move>, condAware: bool)
    requires Legal(moves)
  {
    forall k | 0 <= k <= |moves| :: (Prefix(moves, k); Contained(After(moves[..k]), condAware))
  }

  ghost predicate NeverExposes(moves: seq<Move>, condAware: bool)
    requires Legal(moves)
  {
    forall k | 0 <= k < |moves| :: (Prefix(moves, k); !Exposes(After(moves[..k]), moves[k], condAware))
  }

  lemma {:induction false} ContainedUpTo(moves: seq<Move>, condAware: bool, k: nat)
    requires Legal(moves) && k <= |moves| && NeverExposes(moves, condAware)
    ensures (Prefix(moves, k); Contained(After(moves[..k]), condAware))
  {
    if k > 0 {
      Prefix(moves, k - 1);
      ContainedUpTo(moves, condAware, k - 1);
      ReachableInv(moves[..k - 1]);
      StepContained(After(moves[..k - 1]), moves[k - 1], condAware);
    }
  }

  /** For every run and either observer: the report is contained in the real holds all along the
      run if and only if no thread enters the real wait while it is reported as a holder. */
  lemma ContainmentOfRuns(moves: seq<Move>, condAware: bool)
    requires Legal(moves)
    ensures AlwaysContained(moves, condAware) <==> NeverExposes(moves, condAware)
  {
    if NeverExposes(moves, condAware) {
      forall k | 0 <= k <= |moves| ensures (Prefix(moves, k); Contained(After(moves[..k]), condAware)) {
        ContainedUpTo(moves, condAware, k);
      }
    }
    if AlwaysContained(moves, condAware) {
      forall k | 0 <= k < |moves|
        ensures (Prefix(moves, k); !Exposes(After(moves[..k]), moves[k], condAware))
      {
        Prefix(moves, k);
        Prefix(moves, k + 1);
        assert Contained(After(moves[..k]), condAware);
        assert Contained(After(moves[..k + 1]), condAware);
        ReachableInv(moves[..k]);
        StepContained(After(moves[..k]), moves[k], condAware);
      }
    }
  }

  /** Every wait is on an instrumented condition and gets a non-NULL locker. */
  predicate WaitsInstrumented(moves: seq<Move>) {
    forall k | 0 <= k < |moves| ::
      moves[k].Begin? && moves[k].call.Wait? ==> moves[k].call.condPsi && moves[k].call.locker
  }

  predicate NoWaits(moves: seq<Move>) {
    forall k | 0 <= k < |moves| :: moves[k].Begin? ==> !moves[k].call.Wait?
  }

  lemma BegunOrContinued(s: State, m: Move, t: Tid)
    requires Enabled(s, m) && Next(s, m).At(t).InCall?
    ensures var call := Next(s, m).At(t).call;
            m == Begin(t, call) || (s.At(t).InCall? && s.At(t).call == call)
  {}

  /** Every call in progress was begun by an earlier move. */
  lemma {:induction false} BegunBefore(moves: seq<Move>, k: nat, t: Tid) returns (j: nat)
    requires Legal(moves) && k <= |moves|
    requires (Prefix(moves, k); After(moves[..k]).At(t).InCall?)
    ensures j < k && (Prefix(moves, k); moves[j] == Begin(t, After(moves[..k]).At(t).call))
  {
    Prefix(moves, k);
    j := k - 1;
    Prefix(moves, j);
    BegunOrContinued(After(moves[..j]), moves[j], t);
    if moves[j] != Begin(t, After(moves[..k]).At(t).call) {
      j := BegunBefore(moves, j, t);
    }
  }

  lemma OnlyWaitsWait(s: State, t: Tid)
    requires About(s.psi, s.At(t), WaitRelease)
    ensures s.At(t).call.Wait?
  {
    match s.At(t).call
    case _ =>
  }

  /** Locks, trylocks and unlocks of any number of threads, failing or not, with lockers NULL or
      not: with no wait in the run, every reported hold lies inside a real one. */
  lemma LockUnlockContained(moves: seq<Move>, condAware: bool)
    requires Legal(moves) && NoWaits(moves)
    ensures AlwaysContained(moves, condAware)
  {
    forall k | 0 <= k < |moves|
      ensures (Prefix(moves, k); !Exposes(After(moves[..k]), moves[k], condAware))
    {
      Prefix(moves, k);
      var s := After(moves[..k]);
      if Exposes(s, moves[k], condAware) {
        var t := moves[k].t;
        OnlyWaitsWait(s, t);
        var _ := BegunBefore(moves, k, t);
      }
    }
    ContainmentOfRuns(moves, condAware);
  }

  lemma InstrumentedWaitHidden(s: State, t: Tid)
    requires ThreadInv(s, t) && About(s.psi, s.At(t), WaitRelease)
    requires s.At(t).call.Wait? ==> s.At(t).call.condPsi && s.At(t).call.locker
    ensures t !in Reported(s.log, true)
  {
    OnlyWaitsWait(s, t);
    assert Bracketed(s.At(t));
  }

  /** With waits, the cond-aware observer is still right in every run whose waits are instrumented. */
  lemma InstrumentedWaitsContained(moves: seq<Move>)
    requires Legal(moves) && WaitsInstrumented(moves)
    ensures AlwaysContained(moves, true)
  {
    forall k | 0 <= k < |moves|
      ensures (Prefix(moves, k); !Exposes(After(moves[..k]), moves[k], true))
    {
      Prefix(moves, k);
      var s := After(moves[..k]);
      if Exposes(s, moves[k], true) {
        var t := moves[k].t;
        var _ := BegunBefore(moves, k, t);
        ReachableInv(moves[..k]);
        InstrumentedWaitHidden(s, t);
      }
    }
    ContainmentOfRuns(moves, true);
  }

  // ----- What each thread does -----

  /** A call that was begun, and whether the mutex had a hook then. */
  datatype Asked = Asked(psi: bool, call: Call)

  /** The calls that thread t has begun, read off the moves. */
  ghost function CallsOf(moves: seq<Move>, t: Tid): seq<Asked>
    requires Legal(moves)
    decreases |moves|
  {
    if moves == [] then []
    else
      var before, m := moves[..|moves| - 1], moves[|moves| - 1];
      CallsOf(before, t) + if m.Begin? && m.t == t then [Asked(After(before).psi, m.call)] else []
  }

  function RunOf(x: Asked): seq<Action> { Program(x.psi, x.call) }

  function PlaceOf(psi: bool, th: Thread): Place<Asked> {
    if th.Idle? then Between else Inside(Asked(psi, th.call), th.at)
  }

  /** What thread t has performed is what the calls xs run, up to where it is. */
  ghost predicate Consequent(s: State, t: Tid, xs: seq<Asked>) {
    Follows(RunOf, xs, PlaceOf(s.psi, s.At(t)), ActionsOf(s.log, t))
  }

  lemma RunsSomething(x: Asked)
    ensures RunOf(x) != []
  {
    match x.call
    case _ =>
  }

  lemma PlaceAdvances(psi: bool, th: Thread)
    requires Pending(psi, th)
    ensures var x := Asked(psi, th.call);
            && th.at < |RunOf(x)| && NextAction(psi, th) == RunOf(x)[th.at] && PlaceOf(psi, th) == Inside(x, th.at)
            && PlaceOf(psi, Advance(psi, th)) == if th.at + 1 < |RunOf(x)| then Inside(x, th.at + 1) else Between
  {}

  lemma ActConsequent(s: State, t: Tid, u: Tid, xs: seq<Asked>)
    requires Enabled(s, Act(u)) && Consequent(s, t, xs)
    ensures Consequent(Next(s, Act(u)), t, xs)
  {
    var s', a := Next(s, Act(u)), NextAction(s.psi, s.At(u));
    assert s'.log == s.log + [(u, a)] && s'.At(t) == if u == t then Advance(s.psi, s.At(t)) else s.At(t);
    ActionsLast(s.log, u, a, t);
    if u == t {
      PlaceAdvances(s.psi, s.At(t));
      FollowsAct(RunOf, xs, Asked(s.psi, s.At(t).call), s.At(t).at, ActionsOf(s.log, t));
    }
  }

  lemma BeginConsequent(s: State, t: Tid, u: Tid, call: Call, xs: seq<Asked>)
    requires Enabled(s, Begin(u, call)) && Consequent(s, t, xs)
    ensures Consequent(Next(s, Begin(u, call)), t, if u == t then xs + [Asked(s.psi, call)] else xs)
  {
    var s' := Next(s, Begin(u, call));
    assert s'.At(t) == if u == t then InCall(call, 0) else s.At(t);
    if u == t {
      RunsSomething(Asked(s.psi, call));
      FollowsBegin(RunOf, xs, ActionsOf(s.log, t), Asked(s.psi, call));
    }
  }

  /** In every reachable state. */
  lemma {:induction false} History(moves: seq<Move>, t: Tid)
    requires Legal(moves)
    ensures Consequent(After(moves), t, CallsOf(moves, t))
    decreases |moves|
  {
    if moves != [] {
      var before, m := moves[..|moves| - 1], moves[|moves| - 1];
      var s, xs := After(before), CallsOf(before, t);
      History(before, t);
      assert xs + [] == xs;
      match m
      case Act(u) => ActConsequent(s, t, u, xs);
      case Begin(u, call) => BeginConsequent(s, t, u, call, xs);
      case _ =>
        ReachableInv(before);
        assert ThreadInv(s, t) && s.At(t).Idle?;
    }
  }

  // ----- Brackets -----

  /** Where the actions of a thread stand: outside any bracket, after a start event, after the real
      call if an end event is owed, after an unlock or signal event; `owes` is whether the wait in
      progress owes an end event. */
  datatype Phase =
    | Closed
    | LockStarted(trying: bool, locker: bool)
    | LockCalled(rc: int)
    | UnlockSent
    | WaitStarted(locker: bool)
    | WaitBlocked(owes: bool)
    | WaitCalled(rc: int)
    | SignalSent(broadcast: bool)
    | Broken

  function NextPhase(p: Phase, a: Action): Phase {
    match p
    case Closed =>
      (match a
       case StartMutexWait(trying, locker) => LockStarted(trying, locker)
       case UnlockEvent => UnlockSent
       case StartCondWait(locker) => WaitStarted(locker)
       case SignalEvent(broadcast) => SignalSent(broadcast)
       case Acquire(_, _) => Closed
       case Release(_) => Closed
       case WaitRelease => WaitBlocked(false)
       case WaitRefused(_) => Closed
       case Signal(_, _) => Closed
       case _ => Broken)
    case LockStarted(trying, locker) =>
      if !a.Acquire? || a.trying != trying then Broken else if locker then LockCalled(a.rc) else Closed
    case LockCalled(rc) => if a == EndMutexWait(rc) then Closed else Broken
    case UnlockSent => if a.Release? then Closed else Broken
    case WaitStarted(locker) =>
      if a.WaitRelease? then WaitBlocked(locker)
      else if a.WaitRefused? then (if locker then WaitCalled(a.rc) else Closed)
      else Broken
    case WaitBlocked(owes) => if !a.WaitReacquire? then Broken else if owes then WaitCalled(a.rc) else Closed
    case WaitCalled(rc) => if a == EndCondWait(rc) then Closed else Broken
    case SignalSent(broadcast) => if a.Signal? && a.broadcast == broadcast then Closed else Broken
    case Broken => Broken
  }

  /** The phase of thread t. */
  function PhaseOf(log: seq<(Tid, Action)>, t: Tid): Phase { Fold(NextPhase, Closed, ActionsOf(log, t)) }

  lemma RunCloses(a: Action, b: Action, c: Action, d: Action)
    ensures NextPhase(Closed, a) == Closed ==> Fold(NextPhase, Closed, [a]) == Closed
    ensures NextPhase(NextPhase(Closed, a), b) == Closed ==> Fold(NextPhase, Closed, [a, b]) == Closed
    ensures NextPhase(NextPhase(NextPhase(Closed, a), b), c) == Closed ==> Fold(NextPhase, Closed, [a, b, c]) == Closed
    ensures NextPhase(NextPhase(NextPhase(NextPhase(Closed, a), b), c), d) == Closed ==>
              Fold(NextPhase, Closed, [a, b, c, d]) == Closed
  {
    FoldFour(NextPhase, Closed, a, b, c, d);
  }

  lemma CallCloses(x: Asked)
    ensures Fold(NextPhase, Closed, RunOf(x)) == Closed
  {
    match x.call
    case Lock(trying, locker, rc) =>
      if x.psi {
        RunCloses(StartMutexWait(trying, locker), Acquire(trying, rc), EndMutexWait(rc), UnlockEvent);
      } else {
        RunCloses(Acquire(trying, rc), UnlockEvent, UnlockEvent, UnlockEvent);
      }
    case Unlock(rc) =>
      if x.psi {
        RunCloses(UnlockEvent, Release(rc), UnlockEvent, UnlockEvent);
      } else {
        RunCloses(Release(rc), UnlockEvent, UnlockEvent, UnlockEvent);
      }
    case Wait(condPsi, locker, released, rc) => WaitCloses(x.psi, condPsi, locker, released, rc);
    case Wake(condPsi, broadcast, rc) =>
      if condPsi {
        RunCloses(SignalEvent(broadcast), Signal(broadcast, rc), UnlockEvent, UnlockEvent);
      } else {
        RunCloses(Signal(broadcast, rc), UnlockEvent, UnlockEvent, UnlockEvent);
      }
  }

  lemma WaitCloses(psi: bool, condPsi: bool, locker: bool, released: bool, rc: int)
    ensures Fold(NextPhase, Closed, RunOf(Asked(psi, Wait(condPsi, locker, released, rc)))) == Closed
  {
    if released {
      if condPsi {
        RunCloses(StartCondWait(locker), WaitRelease, WaitReacquire(rc), EndCondWait(rc));
      } else {
        RunCloses(WaitRelease, WaitReacquire(rc), UnlockEvent, UnlockEvent);
      }
    } else if condPsi {
      RunCloses(StartCondWait(locker), WaitRefused(rc), EndCondWait(rc), UnlockEvent);
    } else {
      RunCloses(WaitRefused(rc), UnlockEvent, UnlockEvent, UnlockEvent);
    }
  }

  /** In the log of every run and for every thread, each start event with a non-NULL locker is
      followed by one real call and then by one end event with the result of that call, all before
      the wrapper returns; one with a NULL locker by the real call and no end event. An unlock event
      is followed by the unlock, a signal or broadcast event by the signal or broadcast. */
  lemma BracketsMatch(moves: seq<Move>, t: Tid)
    requires Legal(moves)
    ensures PhaseOf(After(moves).log, t) != Broken
    ensures After(moves).At(t).Idle? ==> PhaseOf(After(moves).log, t) == Closed
  {
    History(moves, t);
    var s := After(moves);
    forall x ensures Fold(NextPhase, Closed, RunOf(x)) == Closed { CallCloses(x); }
    FollowsFold(NextPhase, Closed, Broken, RunOf, CallsOf(moves, t), PlaceOf(s.psi, s.At(t)), ActionsOf(s.log, t));
  }

  // ----- Transparency -----

  predicate IsReal(a: Action) {
    a.Acquire? || a.Release? || a.WaitRelease? || a.WaitReacquire? || a.WaitRefused? || a.Signal?
    || a.RealInit? || a.RealDestroy?
  }

  /** The real calls that a call of a wrapper asks for, with their results. */
  function Wanted(x: Asked): seq<Action> {
    match x.call
    case Lock(trying, _, rc) => [Acquire(trying, rc)]
    case Unlock(rc) => [Release(rc)]
    case Wait(_, _, released, rc) => if released then [WaitRelease, WaitReacquire(rc)] else [WaitRefused(rc)]
    case Wake(_, broadcast, rc) => [Signal(broadcast, rc)]
  }

  /** The event that announces a call, with the locker it got, and none without a hook. */
  predicate Announces(a: Action) {
    a.StartMutexWait? || a.UnlockEvent? || a.StartCondWait? || a.SignalEvent?
  }

  function Announced(x: Asked): seq<Action> {
    match x.call
    case Lock(trying, locker, _) => if x.psi then [StartMutexWait(trying, locker)] else []
    case Unlock(_) => if x.psi then [UnlockEvent] else []
    case Wait(condPsi, locker, _, _) => if condPsi then [StartCondWait(locker)] else []
    case Wake(condPsi, broadcast, _) => if condPsi then [SignalEvent(broadcast)] else []
  }

  lemma LockTransparent(psi: bool, trying: bool, locker: bool, rc: int)
    ensures var x := Asked(psi, Lock(trying, locker, rc));
            Only(RunOf(x), IsReal) == Wanted(x) && Only(RunOf(x), Announces) == Announced(x)
  {
    var (a, b, c) := (StartMutexWait(trying, locker), Acquire(trying, rc), EndMutexWait(rc));
    if psi {
      OnlyFour(a, b, c, c, IsReal);
      OnlyFour(a, b, c, c, Announces);
    } else {
      OnlyFour(b, b, b, b, IsReal);
      OnlyFour(b, b, b, b, Announces);
    }
  }

  lemma PairTransparent(psi: bool, event: Action, call: Action)
    requires Announces(event) && !IsReal(event) && IsReal(call) && !Announces(call)
    ensures var run := if psi then [event, call] else [call];
            Only(run, IsReal) == [call] && Only(run, Announces) == if psi then [event] else []
  {
    var (a, b) := if psi then (event, call) else (call, event);
    OnlyFour(a, b, b, b, IsReal);
    OnlyFour(a, b, b, b, Announces);
  }

  lemma BlockingTransparent(locker: bool, rc: int, keep: Action -> bool)
    ensures var (a, b, c, d) := (StartCondWait(locker), WaitRelease, WaitReacquire(rc), EndCondWait(rc));
            && (keep == IsReal ==> Only([b, c], keep) == Only([a, b, c], keep) == Only([a, b, c, d], keep) == [b, c])
            && (keep == Announces ==> Only([b, c], keep) == [] && Only([a, b, c], keep) == Only([a, b, c, d], keep) == [a])
  {
    OnlyFour(StartCondWait(locker), WaitRelease, WaitReacquire(rc), EndCondWait(rc), keep);
    OnlyFour(WaitRelease, WaitReacquire(rc), EndCondWait(rc), EndCondWait(rc), keep);
  }

  lemma RefusedTransparent(locker: bool, rc: int, keep: Action -> bool)
    ensures var (a, b, c) := (StartCondWait(locker), WaitRefused(rc), EndCondWait(rc));
            && (keep == IsReal ==> Only([b], keep) == Only([a, b], keep) == Only([a, b, c], keep) == [b])
            && (keep == Announces ==> Only([b], keep) == [] && Only([a, b], keep) == Only([a, b, c], keep) == [a])
  {
    OnlyFour(StartCondWait(locker), WaitRefused(rc), EndCondWait(rc), EndCondWait(rc), keep);
    OnlyFour(WaitRefused(rc), EndCondWait(rc), EndCondWait(rc), EndCondWait(rc), keep);
  }

  lemma WaitTransparent(psi: bool, condPsi: bool, locker: bool, released: bool, rc: int)
    ensures var x := Asked(psi, Wait(condPsi, locker, released, rc));
            Only(RunOf(x), IsReal) == Wanted(x) && Only(RunOf(x), Announces) == Announced(x)
  {
    if released {
      BlockingTransparent(locker, rc, IsReal);
      BlockingTransparent(locker, rc, Announces);
    } else {
      RefusedTransparent(locker, rc, IsReal);
      RefusedTransparent(locker, rc, Announces);
    }
  }

  lemma CallTransparent(x: Asked)
    ensures Only(RunOf(x), IsReal) == Wanted(x) && Only(RunOf(x), Announces) == Announced(x)
  {
    match x.call
    case Lock(trying, locker, rc) => LockTransparent(x.psi, trying, locker, rc);
    case Unlock(rc) => PairTransparent(x.psi, UnlockEvent, Release(rc));
    case Wait(condPsi, locker, released, rc) => WaitTransparent(x.psi, condPsi, locker, released, rc);
    case Wake(condPsi, broadcast, rc) => PairTransparent(condPsi, SignalEvent(broadcast), Signal(broadcast, rc));
  }

  /** With the events erased, what a thread has done between its calls is exactly what they asked
      for, with the results of the real calls, and in a call a beginning of it. Exactly the calls
      that found a hook have sent a start, unlock or signal event, of their kind and with the locker
      they got. */
  lemma Transparent(moves: seq<Move>, t: Tid)
    requires Legal(moves)
    ensures var actions, calls := ActionsOf(After(moves).log, t), CallsOf(moves, t);
            if After(moves).At(t).Idle?
            then Only(actions, IsReal) == Flat(calls, Wanted) && Only(actions, Announces) == Flat(calls, Announced)
            else calls != [] && Flat(calls[..|calls| - 1], Wanted) <= Only(actions, IsReal) <= Flat(calls, Wanted)
  {
    History(moves, t);
    var s, xs := After(moves), CallsOf(moves, t);
    var here, actions := PlaceOf(s.psi, s.At(t)), ActionsOf(s.log, t);
    forall x ensures Only(RunOf(x), IsReal) == Wanted(x) && Only(RunOf(x), Announces) == Announced(x) {
      CallTransparent(x);
    }
    FollowsOnly(RunOf, xs, here, actions, IsReal, Wanted);
    FollowsOnly(RunOf, xs, here, actions, Announces, Announced);
  }

  // ----- When two threads are reported at once -----

  predicate Single(x: set<Tid>) { forall t, u :: t in x && u in x ==> t == u }

  ghost predicate AtMostOne(s: State, condAware: bool) { Single(Reported(s.log, condAware)) }

  ghost predicate AlwaysAtMostOne(moves: seq<Move>, condAware: bool)
    requires Legal(moves)
  {
    forall k | 0 <= k <= |moves| :: (Prefix(moves, k); AtMostOne(After(moves[..k]), condAware))
  }

  /** An event makes thread t a reported holder. */
  predicate Reports(v: View, t: Tid, a: Action, condAware: bool) {
    a == EndMutexWait(0) || (condAware && a.EndCondWait? && t in v.held)
  }

  predicate Appears(s: State, t: Tid, condAware: bool) {
    Pending(s.psi, s.At(t)) && Reports(Observe(s.log), t, NextAction(s.psi, s.At(t)), condAware)
  }

  /** A thread is reported while another one, blocked inside a wait, still is. */
  ghost predicate Doubles(s: State, m: Move, condAware: bool) {
    && m.Act? && Appears(s, m.t, condAware)
    && exists t :: t != m.t && Blocked(s.psi, s.At(t)) && t in Reported(s.log, condAware)
  }

  ghost predicate NeverDoubles(moves: seq<Move>, condAware: bool)
    requires Legal(moves)
  {
    forall k | 0 <= k < |moves| :: (Prefix(moves, k); !Doubles(After(moves[..k]), moves[k], condAware))
  }

  lemma ActingReports(psi: bool, owner: Owner, v: View, t: Tid, th: Thread, condAware: bool)
    requires Consistent(true, psi, owner, v, t, th) && Pending(psi, th)
    ensures var a := NextAction(psi, th);
            if Reports(v, t, a, condAware)
            then owner == By(t) && Holders(Notice(v, t, a), condAware) == Holders(v, condAware) + {t}
            else Holders(Notice(v, t, a), condAware) <= Holders(v, condAware)
  {
    match th.call
    case Lock(_, _, _) =>
    case Unlock(_) =>
    case Wait(_, _, _, _) =>
    case Wake(_, _, _) =>
  }

  /** What one action does to the report. */
  lemma StepReports(s: State, m: Move, condAware: bool)
    requires Inv(s) && Enabled(s, m)
    ensures m.Act? && Appears(s, m.t, condAware) ==>
              s.owner == By(m.t) && Reported(Next(s, m).log, condAware) == Reported(s.log, condAware) + {m.t}
    ensures !(m.Act? && Appears(s, m.t, condAware)) ==>
              Reported(Next(s, m).log, condAware) <= Reported(s.log, condAware)
  {
    if m.Act? {
      assert ThreadInv(s, m.t);
      ObserveLast(s.log, m.t, NextAction(s.psi, s.At(m.t)));
      ActingReports(s.psi, s.owner, Observe(s.log), m.t, s.At(m.t), condAware);
    }
  }

  lemma SingleAdd(x: set<Tid>, t: Tid)
    requires Single(x)
    ensures Single(x + {t}) <==> forall u :: u in x ==> u == t
  {
    if Single(x + {t}) {
      forall u | u in x ensures u == t { assert u in x + {t} && t in x + {t}; }
    }
  }

  lemma StepAtMostOne(s: State, m: Move, condAware: bool)
    requires Inv(s) && Enabled(s, m) && AtMostOne(s, condAware)
    ensures AtMostOne(Next(s, m), condAware) <==> !Doubles(s, m, condAware)
  {
    StepReports(s, m, condAware);
    if m.Act? && Appears(s, m.t, condAware) {
      SingleAdd(Reported(s.log, condAware), m.t);
      forall t | t in Reported(s.log, condAware) && t != m.t ensures Blocked(s.psi, s.At(t)) {
        assert ThreadInv(s, t);
      }
    }
  }

  lemma {:induction false} AtMostOneUpTo(moves: seq<Move>, condAware: bool, k: nat)
    requires Legal(moves) && k <= |moves| && NeverDoubles(moves, condAware)
    ensures (Prefix(moves, k); AtMostOne(After(moves[..k]), condAware))
  {
    if k > 0 {
      Prefix(moves, k - 1);
      AtMostOneUpTo(moves, condAware, k - 1);
      ReachableInv(moves[..k - 1]);
      StepAtMostOne(After(moves[..k - 1]), moves[k - 1], condAware);
    }
  }

  /** For every run and either observer: at most one thread is reported all along if and only if no
      thread gets reported while another one, blocked inside a wait, still is. */
  lemma AtMostOneExactly(moves: seq<Move>, condAware: bool)
    requires Legal(moves)
    ensures AlwaysAtMostOne(moves, condAware) <==> NeverDoubles(moves, condAware)
  {
    if NeverDoubles(moves, condAware) {
      forall k | 0 <= k <= |moves| ensures (Prefix(moves, k); AtMostOne(After(moves[..k]), condAware)) {
        AtMostOneUpTo(moves, condAware, k);
      }
    }
    if AlwaysAtMostOne(moves, condAware) {
      forall k | 0 <= k < |moves|
        ensures (Prefix(moves, k); !Doubles(After(moves[..k]), moves[k], condAware))
      {
        Prefix(moves, k);
        Prefix(moves, k + 1);
        assert AtMostOne(After(moves[..k]), condAware);
        assert AtMostOne(After(moves[..k + 1]), condAware);
        ReachableInv(moves[..k]);
        StepAtMostOne(After(moves[..k]), moves[k], condAware);
      }
    }
  }

  /** No two threads are ever reported at once in a run without waits or, to an observer that
      suspends holds, in a run whose waits are instrumented. */
  lemma AtMostOneReported(moves: seq<Move>, condAware: bool)
    requires Legal(moves)
    requires NoWaits(moves) || (condAware && WaitsInstrumented(moves))
    ensures AlwaysAtMostOne(moves, condAware)
  {
    if NoWaits(moves) {
      LockUnlockContained(moves, condAware);
    } else {
      InstrumentedWaitsContained(moves);
    }
    forall k | 0 <= k <= |moves| ensures (Prefix(moves, k); AtMostOne(After(moves[..k]), condAware)) {
      Prefix(moves, k);
      assert Contained(After(moves[..k]), condAware);
    }
  }

  // ----- The hypotheses on waits are needed -----

  /** The waits that a run begins. */
  function WaitsBegun(moves: seq<Move>): seq<Call> {
    if moves == [] then []
    else
      var m := moves[|moves| - 1];
      WaitsBegun(moves[..|moves| - 1]) + if m.Begin? && m.call.Wait? then [m.call] else []
  }

  lemma OneMore(moves: seq<Move>, m: Move) returns (more: seq<Move>)
    requires Legal(moves) && Enabled(After(moves), m)
    ensures Legal(more) && After(more) == Next(After(moves), m)
    ensures WaitsBegun(more) == WaitsBegun(moves) + if m.Begin? && m.call.Wait? then [m.call] else []
  {
    more := moves + [m];
    assert more[..|moves|] == moves;
  }

  lemma ActNext(s: State, t: Tid, a: Action)
    requires About(s.psi, s.At(t), a) && Possible(s.owner, t, a)
    ensures Enabled(s, Act(t))
    ensures var s' := Next(s, Act(t));
            && s'.alive == s.alive && s'.psi == s.psi && s'.owner == OwnerAfter(s.owner, t, a)
            && s'.At(t) == Advance(s.psi, s.At(t))
            && (forall u :: u != t ==> s'.At(u) == s.At(u))
            && Observe(s'.log) == Notice(Observe(s.log), t, a)
  {
    ObserveLast(s.log, t, a);
  }

  /** In a state that shows thread t at th, it performs its next action a. */
  lemma Acting(moves: seq<Move>, t: Tid, th: Thread, a: Action) returns (more: seq<Move>)
    requires Legal(moves) && After(moves).At(t) == th
    requires About(After(moves).psi, th, a) && Possible(After(moves).owner, t, a)
    ensures Legal(more) && WaitsBegun(more) == WaitsBegun(moves)
    ensures var s, s' := After(moves), After(more);
            && s'.alive == s.alive && s'.psi == s.psi && s'.owner == OwnerAfter(s.owner, t, a)
            && s'.At(t) == Advance(s.psi, th)
            && (forall u :: u != t ==> s'.At(u) == s.At(u))
            && Observe(s'.log) == Notice(Observe(s.log), t, a)
  {
    ActNext(After(moves), t, a);
    more := OneMore(moves, Act(t));
  }

  lemma LockProgram(th: Thread)
    requires th.InCall? && th.call == Lock(false, true, 0)
    ensures th.at == 0 ==> About(true, th, StartMutexWait(false, true)) && Advance(true, th) == InCall(th.call, 1)
    ensures th.at == 1 ==> About(true, th, Acquire(false, 0)) && Advance(true, th) == InCall(th.call, 2)
    ensures th.at == 2 ==> About(true, th, EndMutexWait(0)) && Advance(true, th) == Idle
  {}

  /** Thread t, idle, locks an instrumented free mutex and gets a locker: it is reported. */
  lemma LockReports(moves: seq<Move>, t: Tid) returns (more: seq<Move>)
    requires Legal(moves)
    requires var s := After(moves); s.alive && s.psi && s.owner == Nobody && s.At(t).Idle?
    ensures Legal(more) && WaitsBegun(more) == WaitsBegun(moves)
    ensures var s, s' := After(moves), After(more);
            && s'.alive && s'.psi && s'.owner == By(t) && s'.At(t).Idle?
            && (forall u :: u != t ==> s'.At(u) == s.At(u))
            && Observe(s'.log) == Observe(s.log).(held := Observe(s.log).held + {t})
  {
    var lock := Lock(false, true, 0);
    LockProgram(InCall(lock, 0));
    LockProgram(InCall(lock, 1));
    LockProgram(InCall(lock, 2));
    more := OneMore(moves, Begin(t, lock));
    more := Acting(more, t, InCall(lock, 0), StartMutexWait(false, true));
    more := Acting(more, t, InCall(lock, 1), Acquire(false, 0));
    more := Acting(more, t, InCall(lock, 2), EndMutexWait(0));
  }

  lemma WaitProgram(psi: bool, condPsi: bool, locker: bool, th: Thread)
    requires th.InCall? && th.call == Wait(condPsi, locker, true, 0)
    ensures condPsi && th.at == 0 ==> About(psi, th, StartCondWait(locker)) && Advance(psi, th) == InCall(th.call, 1)
    ensures th.at == (if condPsi then 1 else 0) ==> About(psi, th, WaitRelease)
  {}

  /** The owner t starts a wait: the mutex is free, and t is still held to be a holder. */
  lemma WaitReleases(moves: seq<Move>, t: Tid, condPsi: bool, locker: bool) returns (more: seq<Move>)
    requires Legal(moves)
    requires var s := After(moves); s.alive && s.owner == By(t) && s.At(t).Idle?
    ensures Legal(more) && WaitsBegun(more) == WaitsBegun(moves) + [Wait(condPsi, locker, true, 0)]
    ensures var s, s' := After(moves), After(more);
            && s'.alive && s'.psi == s.psi && s'.owner == Nobody
            && (forall u :: u != t ==> s'.At(u) == s.At(u))
            && Observe(s'.log).held == Observe(s.log).held
            && (!(condPsi && locker) ==> Observe(s'.log) == Observe(s.log))
  {
    var wait, psi := Wait(condPsi, locker, true, 0), After(moves).psi;
    WaitProgram(psi, condPsi, locker, InCall(wait, 0));
    more := OneMore(moves, Begin(t, wait));
    if condPsi {
      WaitProgram(psi, condPsi, locker, InCall(wait, 1));
      more := Acting(more, t, InCall(wait, 0), StartCondWait(locker));
      more := Acting(more, t, InCall(wait, 1), WaitRelease);
    } else {
      more := Acting(more, t, InCall(wait, 0), WaitRelease);
    }
  }

  /** Each of the three hypotheses of InstrumentedWaitsContained is needed: without a hook of the
      condition, without a locker, or with an observer that does not suspend holds, a run with one
      such wait ends with two threads reported as holders. */
  lemma UninstrumentedWaitBreaksReport(condAware: bool, condPsi: bool, locker: bool) returns (moves: seq<Move>)
    requires !(condAware && condPsi && locker)
    ensures Legal(moves) && WaitsBegun(moves) == [Wait(condPsi, locker, true, 0)]
    ensures Reported(After(moves).log, condAware) == {0, 1}
  {
    moves := OneMore([], Init(true));
    assert Observe(After(moves).log) == View({}, {});
    moves := LockReports(moves, 0);
    assert Observe(After(moves).log) == View({0}, {}) && After(moves).At(1).Idle?;
    moves := WaitReleases(moves, 0, condPsi, locker);
    moves := LockReports(moves, 1);
    assert Observe(After(moves).log).held == {0, 1};
  }

  // ----- The order of the events is needed -----

  function RealOwner(log: seq<(Tid, Action)>): Owner {
    if log == [] then Nobody
    else
      var (t, a) := log[|log| - 1];
      OwnerAfter(RealOwner(log[..|log| - 1]), t, a)
  }

  /** The log is one that the real mutex allows. */
  predicate RealRun(log: seq<(Tid, Action)>)
    decreases |log|
  {
    log == [] ||
    var (t, a) := log[|log| - 1];
    RealRun(log[..|log| - 1]) && Possible(RealOwner(log[..|log| - 1]), t, a)
  }

  lemma Append(log: seq<(Tid, Action)>, t: Tid, a: Action) returns (more: seq<(Tid, Action)>)
    requires RealRun(log) && Possible(RealOwner(log), t, a)
    ensures RealRun(more) && RealOwner(more) == OwnerAfter(RealOwner(log), t, a)
    ensures Observe(more) == Notice(Observe(log), t, a)
    ensures ActionsOf(more, t) == ActionsOf(log, t) + [a]
    ensures forall u :: u != t ==> ActionsOf(more, u) == ActionsOf(log, u)
  {
    more := log + [(t, a)];
    assert more[..|log|] == log;
    forall u ensures ActionsOf(more, u) == ActionsOf(log, u) + if t == u then [a] else [] { ActionsLast(log, t, a, u); }
  }

  lemma AppendLock(log: seq<(Tid, Action)>, t: Tid) returns (more: seq<(Tid, Action)>)
    requires RealRun(log) && RealOwner(log) == Nobody
    ensures RealRun(more) && RealOwner(more) == By(t)
    ensures Observe(more).held == Observe(log).held + {t}
    ensures ActionsOf(more, t) == ActionsOf(log, t) + Program(true, Lock(false, true, 0))
    ensures forall u :: u != t ==> ActionsOf(more, u) == ActionsOf(log, u)
  {
    more := Append(log, t, StartMutexWait(false, true));
    more := Append(more, t, Acquire(false, 0));
    more := Append(more, t, EndMutexWait(0));
  }

  /** If the unlock event came after the real unlock, two threads could be reported at once: thread
      0 unlocks, thread 1 locks and is reported, and only then comes the event of thread 0. */
  lemma LateUnlockEventBreaksReport() returns (log: seq<(Tid, Action)>)
    ensures RealRun(log) && Observe(log).held == {0, 1}
    ensures ActionsOf(log, 0) == Program(true, Lock(false, true, 0)) + [Release(0)]
    ensures ActionsOf(log, 1) == Program(true, Lock(false, true, 0))
  {
    log := AppendLock([], 0);
    log := Append(log, 0, Release(0));
    log := AppendLock(log, 1);
  }

  /** If the end event came before the real lock, two threads could be reported before either locks. */
  lemma EarlyEndEventBreaksReport() returns (log: seq<(Tid, Action)>)
    ensures RealRun(log) && Observe(log).held == {0, 1}
    ensures ActionsOf(log, 0) == ActionsOf(log, 1) == [StartMutexWait(false, true), EndMutexWait(0)]
  {
    log := Append([], 0, StartMutexWait(false, true));
    log := Append(log, 0, EndMutexWait(0));
    log := Append(log, 1, StartMutexWait(false, true));
    log := Append(log, 1, EndMutexWait(0));
  }

  // ----- When nothing is missing from the report -----

  predicate FullCall(c: Call) {
    match c
    case Lock(_, locker, _) => locker
    case Unlock(rc) => rc == 0
    case _ => true
  }

  /** Every mutex is created with a hook, every lock gets a locker and no unlock is refused. */
  predicate FullyInstrumented(moves: seq<Move>) {
    forall k | 0 <= k < |moves| ::
      && (moves[k].Init? ==> moves[k].psi)
      && (moves[k].Begin? ==> FullCall(moves[k].call))
  }

  /** The owner is missing from the report only between the two steps of one call, and the
      blocked threads are the only ones the report has too much. */
  predicate Complete(psi: bool, owner: Owner, v: View, t: Tid, th: Thread) {
    && (th.InCall? ==> FullCall(th.call))
    && (owner == By(t) || Blocked(psi, th) ==>
          || t in v.held
          || (Pending(psi, th) && (NextAction(psi, th) == EndMutexWait(0) || NextAction(psi, th).Release?)))
  }

  ghost predicate ThreadExact(s: State, t: Tid) {
    Complete(s.psi, s.owner, Observe(s.log), t, s.At(t))
  }

  ghost predicate Exact(s: State) {
    s.psi == s.alive && forall t :: ThreadExact(s, t)
  }

  lemma ActingComplete(owner: Owner, v: View, t: Tid, th: Thread)
    requires Consistent(true, true, owner, v, t, th) && Complete(true, owner, v, t, th)
    requires Pending(true, th) && Possible(owner, t, NextAction(true, th))
    ensures var a := NextAction(true, th);
            Complete(true, OwnerAfter(owner, t, a), Notice(v, t, a), t, Advance(true, th))
  {
    match th.call
    case Lock(_, _, _) =>
    case Unlock(_) =>
    case Wait(_, _, _, _) =>
    case Wake(_, _, _) =>
  }

  lemma OtherComplete(owner: Owner, v: View, t: Tid, a: Action, u: Tid, th: Thread)
    requires u != t && Possible(owner, t, a) && Complete(true, owner, v, u, th)
    ensures Complete(true, OwnerAfter(owner, t, a), Notice(v, t, a), u, th)
  {
  }

  lemma ActKeepsExact(s: State, m: Move, u: Tid)
    requires Inv(s) && Exact(s) && m.Act? && Enabled(s, m)
    ensures ThreadExact(Next(s, m), u)
  {
    var t, v := m.t, Observe(s.log);
    var a := NextAction(s.psi, s.At(t));
    assert ThreadInv(s, t) && ThreadExact(s, t) && ThreadExact(s, u);
    ObserveLast(s.log, t, a);
    var s' := Next(s, m);
    assert s'.owner == OwnerAfter(s.owner, t, a) && Observe(s'.log) == Notice(v, t, a);
    assert s'.At(u) == if u == t then Advance(s.psi, s.At(t)) else s.At(u);
    if u == t {
      ActingComplete(s.owner, v, t, s.At(t));
    } else {
      OtherComplete(s.owner, v, t, a, u, s.At(u));
    }
  }

  lemma NextKeepsExact(s: State, m: Move)
    requires Inv(s) && Exact(s) && Enabled(s, m)
    requires m.Init? ==> m.psi
    requires m.Begin? ==> FullCall(m.call)
    ensures Exact(Next(s, m))
  {
    forall u ensures ThreadExact(Next(s, m), u) {
      assert ThreadInv(s, u) && ThreadExact(s, u);
      if m.Act? { ActKeepsExact(s, m, u); }
    }
  }

  lemma {:induction false} ReachableExact(moves: seq<Move>)
    requires Legal(moves) && FullyInstrumented(moves)
    ensures Exact(After(moves))
  {
    if moves != [] {
      var before := moves[..|moves| - 1];
      assert FullyInstrumented(before);
      ReachableExact(before);
      ReachableInv(before);
      NextKeepsExact(After(before), moves[|moves| - 1]);
    }
  }

  /** In a fully instrumented run, a thread outside any call is reported if and only if it owns
      the mutex; waits, instrumented or not, leave no trace in the report once they are over. */
  lemma ReportExactWhenIdle(moves: seq<Move>, condAware: bool, t: Tid)
    requires Legal(moves) && FullyInstrumented(moves) && After(moves).At(t).Idle?
    ensures t in Reported(After(moves).log, condAware) <==> After(moves).owner == By(t)
  {
    ReachableExact(moves);
    ReachableInv(moves);
    assert ThreadExact(After(moves), t) && ThreadInv(After(moves), t);
  }
}
