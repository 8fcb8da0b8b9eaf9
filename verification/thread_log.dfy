/** Logs of several threads, and what can be read off them: the actions of one thread, those of one
    kind, and the state of an automaton that follows them. Everything is read from the end. */
module ThreadLog {

  type Tid = nat

  function ActionsOf<A>(log: seq<(Tid, A)>, u: Tid): seq<A> {
    if log == [] then []
    else
      var (t, a) := log[|log| - 1];
      ActionsOf(log[..|log| - 1], u) + if t == u then [a] else []
  }

  lemma ActionsLast<A>(log: seq<(Tid, A)>, t: Tid, a: A, u: Tid)
    ensures ActionsOf(log + [(t, a)], u) == ActionsOf(log, u) + if t == u then [a] else []
  {
    assert (log + [(t, a)])[..|log|] == log;
  }

  function Only<A>(s: seq<A>, keep: A -> bool): seq<A> {
    if s == [] then []
    else
      var a := s[|s| - 1];
      Only(s[..|s| - 1], keep) + if keep(a) then [a] else []
  }

  lemma {:induction false} OnlyConcat<A>(s: seq<A>, t: seq<A>, keep: A -> bool)
    ensures Only(s + t, keep) == Only(s, keep) + Only(t, keep)
    decreases |t|
  {
    if t == [] {
      assert s + t == s;
    } else {
      OnlyConcat(s, t[..|t| - 1], keep);
      assert (s + t)[..|s + t| - 1] == s + t[..|t| - 1];
    }
  }

  /** Up to four actions. */
  lemma OnlyFour<A>(a: A, b: A, c: A, d: A, keep: A -> bool)
    ensures Only([a], keep) == if keep(a) then [a] else []
    ensures Only([a, b], keep) == Only([a], keep) + if keep(b) then [b] else []
    ensures Only([a, b, c], keep) == Only([a, b], keep) + if keep(c) then [c] else []
    ensures Only([a, b, c, d], keep) == Only([a, b, c], keep) + if keep(d) then [d] else []
  {
    assert [a, b][..1] == [a] && [a, b, c][..2] == [a, b] && [a, b, c, d][..3] == [a, b, c];
  }

  lemma OnlyPrefix<A>(s: seq<A>, k: nat, keep: A -> bool)
    requires k <= |s|
    ensures Only(s[..k], keep) <= Only(s, keep)
  {
    assert s[..k] + s[k..] == s;
    OnlyConcat(s[..k], s[k..], keep);
  }

  /** The state of an automaton after s, from p. */
  function Fold<P, A>(step: (P, A) -> P, p: P, s: seq<A>): P {
    if s == [] then p else step(Fold(step, p, s[..|s| - 1]), s[|s| - 1])
  }

  lemma {:induction false} FoldConcat<P, A>(step: (P, A) -> P, p: P, s: seq<A>, t: seq<A>)
    ensures Fold(step, p, s + t) == Fold(step, Fold(step, p, s), t)
    decreases |t|
  {
    if t == [] {
      assert s + t == s;
    } else {
      FoldConcat(step, p, s, t[..|t| - 1]);
      assert (s + t)[..|s + t| - 1] == s + t[..|t| - 1];
    }
  }

  lemma FoldFour<P, A>(step: (P, A) -> P, p: P, a: A, b: A, c: A, d: A)
    ensures Fold(step, p, [a]) == step(p, a)
    ensures Fold(step, p, [a, b]) == step(step(p, a), b)
    ensures Fold(step, p, [a, b, c]) == step(step(step(p, a), b), c)
    ensures Fold(step, p, [a, b, c, d]) == step(step(step(step(p, a), b), c), d)
  {
    assert [a, b][..1] == [a] && [a, b, c][..2] == [a, b] && [a, b, c, d][..3] == [a, b, c];
  }

  /** What each of xs contributes, one behind the other. */
  function Flat<X, A>(xs: seq<X>, part: X -> seq<A>): seq<A> {
    if xs == [] then [] else Flat(xs[..|xs| - 1], part) + part(xs[|xs| - 1])
  }

  lemma {:induction false} OnlyFlat<X(!new), A>(xs: seq<X>, part: X -> seq<A>, keep: A -> bool, kept: X -> seq<A>)
    requires forall x :: Only(part(x), keep) == kept(x)
    ensures Only(Flat(xs, part), keep) == Flat(xs, kept)
  {
    if xs != [] {
      var before, last := xs[..|xs| - 1], xs[|xs| - 1];
      OnlyFlat(before, part, keep, kept);
      OnlyConcat(Flat(before, part), part(last), keep);
    }
  }

  lemma {:induction false} FoldFlat<X(!new), P, A>(step: (P, A) -> P, p: P, xs: seq<X>, part: X -> seq<A>)
    requires forall x :: Fold(step, p, part(x)) == p
    ensures Fold(step, p, Flat(xs, part)) == p
  {
    if xs != [] {
      var before, last := xs[..|xs| - 1], xs[|xs| - 1];
      FoldFlat(step, p, before, part);
      FoldConcat(step, p, Flat(before, part), part(last));
    }
  }

  /** An automaton that never leaves `sink` was not in it before. */
  lemma {:induction false} NotSunkBefore<P(!new), A(!new)>(step: (P, A) -> P, p: P, s: seq<A>, k: nat, sink: P)
    requires forall a :: step(sink, a) == sink
    requires k <= |s| && Fold(step, p, s) != sink
    ensures Fold(step, p, s[..k]) != sink
    decreases |s|
  {
    if k == |s| {
      assert s[..k] == s;
    } else {
      NotSunkBefore(step, p, s[..|s| - 1], k, sink);
      assert s[..|s| - 1][..k] == s[..k];
    }
  }

  /** Where a thread is: between its calls, or in a call x of which it has performed `at` actions. */
  datatype Place<X> = Between | Inside(x: X, at: nat)

  /** A thread that began the calls xs and is here has performed these actions, if each call x runs
      part(x). */
  predicate Follows<X(==), A(==)>(part: X -> seq<A>, xs: seq<X>, here: Place<X>, actions: seq<A>) {
    match here
    case Between => actions == Flat(xs, part)
    case Inside(x, at) =>
      && xs != [] && xs[|xs| - 1] == x && at < |part(x)|
      && actions == Flat(xs[..|xs| - 1], part) + part(x)[..at]
  }

  lemma FollowsBegin<X, A>(part: X -> seq<A>, xs: seq<X>, actions: seq<A>, x: X)
    requires Follows(part, xs, Between, actions) && part(x) != []
    ensures Follows(part, xs + [x], Inside(x, 0), actions)
  {
    assert (xs + [x])[..|xs|] == xs;
  }

  lemma FollowsAct<X, A>(part: X -> seq<A>, xs: seq<X>, x: X, at: nat, actions: seq<A>)
    requires Follows(part, xs, Inside(x, at), actions)
    ensures var run := part(x);
            Follows(part, xs, if at + 1 < |run| then Inside(x, at + 1) else Between, actions + [run[at]])
  {
    var run := part(x);
    assert run[..at] + [run[at]] == run[..at + 1];
    if at + 1 == |run| {
      assert run[..at + 1] == run;
    }
  }

  /** If every call takes the automaton from p back to p, it is never in the sink, and in p between
      the calls. */
  lemma FollowsFold<X(!new), A(!new), P(!new)>(step: (P, A) -> P, p: P, sink: P, part: X -> seq<A>, xs: seq<X>,
                                               here: Place<X>, actions: seq<A>)
    requires (forall x :: Fold(step, p, part(x)) == p) && (forall a :: step(sink, a) == sink) && p != sink
    requires Follows(part, xs, here, actions)
    ensures Fold(step, p, actions) != sink
    ensures here.Between? ==> Fold(step, p, actions) == p
  {
    match here
    case Between => FoldFlat(step, p, xs, part);
    case Inside(x, at) =>
      FoldFlat(step, p, xs[..|xs| - 1], part);
      FoldConcat(step, p, Flat(xs[..|xs| - 1], part), part(x)[..at]);
      NotSunkBefore(step, p, part(x), at, sink);
  }

  /** If every call contributes kept(x) of one kind, so do all of them together, and the last one in
      progress a beginning of it. */
  lemma FollowsOnly<X(!new), A>(part: X -> seq<A>, xs: seq<X>, here: Place<X>, actions: seq<A>,
                                keep: A -> bool, kept: X -> seq<A>)
    requires (forall x :: Only(part(x), keep) == kept(x)) && Follows(part, xs, here, actions)
    ensures here.Between? ==> Only(actions, keep) == Flat(xs, kept)
    ensures here.Inside? ==> Flat(xs[..|xs| - 1], kept) <= Only(actions, keep) <= Flat(xs, kept)
  {
    match here
    case Between => OnlyFlat(xs, part, keep, kept);
    case Inside(x, at) =>
      OnlyFlat(xs[..|xs| - 1], part, keep, kept);
      OnlyConcat(Flat(xs[..|xs| - 1], part), part(x)[..at], keep);
      OnlyPrefix(part(x), at, keep);
  }
}
