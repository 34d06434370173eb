// Streams of samples fed to a state machine that may refuse some of them.  The machine is
// a parameter, so that the induction over a stream is done once and without its arithmetic.
module Streams {

  function Run<S, V>(next: (S, V) -> S, s: S, xs: seq<V>): S {
    if xs == [] then s else next(Run(next, s, xs[..|xs| - 1]), xs[|xs| - 1])
  }

  // The samples that were let in.
  function Accepted<S, V>(next: (S, V) -> S, absorbs: (S, V) -> bool, s: S, xs: seq<V>): seq<V> {
    if xs == [] then []
    else
      var n := |xs| - 1;
      Accepted(next, absorbs, s, xs[..n]) + if absorbs(Run(next, s, xs[..n]), xs[n]) then [xs[n]] else []
  }

  // The answers given to the samples that were let in.
  function Answers<S, V, R>(next: (S, V) -> S, absorbs: (S, V) -> bool, answer: (S, V) -> R, s: S, xs: seq<V>): seq<R> {
    if xs == [] then []
    else
      var n := |xs| - 1;
      var before := Run(next, s, xs[..n]);
      Answers(next, absorbs, answer, s, xs[..n]) + if absorbs(before, xs[n]) then [answer(before, xs[n])] else []
  }

  // A sample that is not let in leaves the state alone.
  ghost predicate Gated<S(!new), V(!new)>(next: (S, V) -> S, absorbs: (S, V) -> bool) {
    forall s, v :: !absorbs(s, v) ==> next(s, v) == s
  }

  lemma Snoc<S, V, R>(next: (S, V) -> S, absorbs: (S, V) -> bool, answer: (S, V) -> R, s: S, xs: seq<V>, v: V)
    ensures var t := Run(next, s, xs);
            && Run(next, s, xs + [v]) == next(t, v)
            && Accepted(next, absorbs, s, xs + [v]) ==
               Accepted(next, absorbs, s, xs) + (if absorbs(t, v) then [v] else [])
            && Answers(next, absorbs, answer, s, xs + [v]) ==
               Answers(next, absorbs, answer, s, xs) + (if absorbs(t, v) then [answer(t, v)] else [])
  {
    assert (xs + [v])[..|xs|] == xs;
  }

  // Deleting the refused samples changes neither the state reached nor any answer given to
  // a sample that was let in, and of what is left nothing is refused.
  lemma {:induction false} Erasure<S(!new), V(!new), R>(
      next: (S, V) -> S, absorbs: (S, V) -> bool, answer: (S, V) -> R, s: S, xs: seq<V>)
    requires Gated(next, absorbs)
    ensures Run(next, s, Accepted(next, absorbs, s, xs)) == Run(next, s, xs)
    ensures Accepted(next, absorbs, s, Accepted(next, absorbs, s, xs)) == Accepted(next, absorbs, s, xs)
    ensures Answers(next, absorbs, answer, s, Accepted(next, absorbs, s, xs)) == Answers(next, absorbs, answer, s, xs)
  {
    if xs != [] {
      var n := |xs| - 1;
      var before, kept := Run(next, s, xs[..n]), Accepted(next, absorbs, s, xs[..n]);
      Erasure(next, absorbs, answer, s, xs[..n]);
      assert xs == xs[..n] + [xs[n]];
      Snoc(next, absorbs, answer, s, xs[..n], xs[n]);
      Snoc(next, absorbs, answer, s, kept, xs[n]);
      assert !absorbs(before, xs[n]) ==> next(before, xs[n]) == before;
      assert kept + [] == kept;
    }
  }

  // Every step whose sample passes the guard keeps inv, a relation between the state and
  // the samples let in so far.
  ghost predicate Keeps<S(!new), V(!new)>(
      next: (S, V) -> S, absorbs: (S, V) -> bool, guard: (S, V) -> bool, inv: (S, seq<V>) -> bool)
  {
    forall s, kept, v :: inv(s, kept) && guard(s, v) ==>
      inv(next(s, v), if absorbs(s, v) then kept + [v] else kept)
  }

  // Every sample passes the guard in the state in which it arrives.
  ghost predicate Guarded<S, V>(next: (S, V) -> S, guard: (S, V) -> bool, s: S, xs: seq<V>) {
    xs == [] ||
    (var n := |xs| - 1;
     Guarded(next, guard, s, xs[..n]) && guard(Run(next, s, xs[..n]), xs[n]))
  }

  ghost function Always<S, V>(): (S, V) -> bool { (s: S, v: V) => true }

  lemma {:induction false} AlwaysGuarded<S, V>(next: (S, V) -> S, s: S, xs: seq<V>)
    ensures Guarded(next, Always(), s, xs)
  {
    if xs != [] {
      AlwaysGuarded(next, s, xs[..|xs| - 1]);
    }
  }

  lemma {:induction false} Invariant<S(!new), V(!new)>(
      next: (S, V) -> S, absorbs: (S, V) -> bool, guard: (S, V) -> bool, inv: (S, seq<V>) -> bool,
      s: S, xs: seq<V>)
    requires inv(s, []) && Keeps(next, absorbs, guard, inv) && Guarded(next, guard, s, xs)
    ensures inv(Run(next, s, xs), Accepted(next, absorbs, s, xs))
  {
    if xs != [] {
      var n := |xs| - 1;
      Invariant(next, absorbs, guard, inv, s, xs[..n]);
      assert Accepted(next, absorbs, s, xs[..n]) + [] == Accepted(next, absorbs, s, xs[..n]);
    }
  }

  // The sample picked passes the guard and takes a numbered invariant one further.
  ghost predicate GoesOn<S(!new), V>(next: (S, V) -> S, guard: (S, V) -> bool, inv: (S, nat) -> bool,
                                     pick: (S, nat) -> V) {
    forall s, k: nat {:trigger pick(s, k)} :: inv(s, k) ==> guard(s, pick(s, k)) && inv(next(s, pick(s, k)), k + 1)
  }

  lemma GuardedSnoc<S, V>(next: (S, V) -> S, guard: (S, V) -> bool, s: S, xs: seq<V>, v: V)
    requires Guarded(next, guard, s, xs) && guard(Run(next, s, xs), v)
    ensures Guarded(next, guard, s, xs + [v]) && Run(next, s, xs + [v]) == next(Run(next, s, xs), v)
  {
    assert (xs + [v])[..|xs|] == xs;
  }

  lemma {:induction false} Ascend<S(!new), V>(
      next: (S, V) -> S, guard: (S, V) -> bool, inv: (S, nat) -> bool, pick: (S, nat) -> V, s: S, k: nat)
      returns (xs: seq<V>)
    requires inv(s, 0) && GoesOn(next, guard, inv, pick)
    ensures Guarded(next, guard, s, xs) && inv(Run(next, s, xs), k)
  {
    if k == 0 {
      xs := [];
    } else {
      var init := Ascend(next, guard, inv, pick, s, k - 1);
      var v := pick(Run(next, s, init), k - 1);
      GuardedSnoc(next, guard, s, init, v);
      xs := init + [v];
    }
  }

  // A stream with one more sample in front.
  lemma {:induction false} Cons<S, V>(next: (S, V) -> S, guard: (S, V) -> bool, s: S, v: V, xs: seq<V>)
    requires guard(s, v) && Guarded(next, guard, next(s, v), xs)
    ensures Guarded(next, guard, s, [v] + xs) && Run(next, s, [v] + xs) == Run(next, next(s, v), xs)
  {
    var all := [v] + xs;
    if xs == [] {
      assert all[..0] == [];
      assert all == [v];
    } else {
      var n := |xs| - 1;
      Cons(next, guard, s, v, xs[..n]);
      assert all[..|all| - 1] == [v] + xs[..n];
    }
  }
}
