/** Why a hash that consumes its input by bijective steps notices every change of a single element. */
module Detection {

  /** The state after feeding xs to step, from s on. */
  function Fold<S, E>(step: (S, E) -> S, s: S, xs: seq<E>): S {
    if xs == [] then s else Fold(step, step(s, xs[0]), xs[1..])
  }

  lemma {:induction false} FoldSnoc<S, E>(step: (S, E) -> S, s: S, xs: seq<E>, e: E)
    ensures Fold(step, s, xs + [e]) == step(Fold(step, s, xs), e)
    decreases |xs|
  {
    if xs == [] {
      assert [e][1..] == [];
    } else {
      assert (xs + [e])[1..] == xs[1..] + [e];
      FoldSnoc(step, step(s, xs[0]), xs[1..], e);
    }
  }

  /** For every element the step is injective in the state, and for every state in the element. */
  ghost predicate Bijective<S(!new), E(!new)>(step: (S, E) -> S) {
    && (forall s, t, e :: step(s, e) == step(t, e) ==> s == t)
    && (forall s, e, f :: step(s, e) == step(s, f) ==> e == f)
  }

  /** xs and ys differ in element i and nowhere else. */
  ghost predicate DifferAt<E>(xs: seq<E>, ys: seq<E>, i: nat) {
    i < |xs| == |ys| && xs[i] != ys[i] && forall k :: 0 <= k < |xs| && k != i ==> xs[k] == ys[k]
  }

  lemma {:induction false} StatesStayApart<S(!new), E(!new)>(step: (S, E) -> S, s: S, t: S, xs: seq<E>)
    requires Bijective(step) && s != t
    ensures Fold(step, s, xs) != Fold(step, t, xs)
    decreases |xs|
  {
    if xs != [] {
      StatesStayApart(step, step(s, xs[0]), step(t, xs[0]), xs[1..]);
    }
  }

  /** One changed element changes the final state, whatever comes before and after it. */
  lemma {:induction false} OneElementShows<S(!new), E(!new)>(step: (S, E) -> S, s: S, xs: seq<E>, ys: seq<E>, i: nat)
    requires Bijective(step) && DifferAt(xs, ys, i)
    ensures Fold(step, s, xs) != Fold(step, s, ys)
    decreases i
  {
    if i == 0 {
      assert xs[1..] == ys[1..];
      StatesStayApart(step, step(s, xs[0]), step(s, ys[0]), xs[1..]);
    } else {
      assert DifferAt(xs[1..], ys[1..], i - 1);
      OneElementShows(step, step(s, xs[0]), xs[1..], ys[1..], i - 1);
    }
  }
}
