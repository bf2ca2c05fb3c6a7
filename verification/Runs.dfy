/** Runs of a state machine: a fold of its step function over a sequence of events. */
module Runs {
  function Fold<S, E>(apply: (S, E) -> S, s: S, events: seq<E>): S
    decreases |events|
  {
    if events == [] then s else Fold(apply, apply(s, events[0]), events[1..])
  }

  lemma {:induction false} FoldConcat<S, E>(apply: (S, E) -> S, s: S, xs: seq<E>, ys: seq<E>)
    ensures Fold(apply, s, xs + ys) == Fold(apply, Fold(apply, s, xs), ys)
    decreases |xs|
  {
    if xs == [] {
      assert xs + ys == ys;
    } else {
      assert (xs + ys)[0] == xs[0] && (xs + ys)[1..] == xs[1..] + ys;
      FoldConcat(apply, apply(s, xs[0]), xs[1..], ys);
    }
  }

  lemma FoldHead<S, E>(apply: (S, E) -> S, s: S, e: E, rest: seq<E>)
    ensures Fold(apply, s, [e] + rest) == Fold(apply, apply(s, e), rest)
  {
    assert ([e] + rest)[1..] == rest;
  }

  lemma FoldOne<S, E>(apply: (S, E) -> S, s: S, e: E)
    ensures Fold(apply, s, [e]) == apply(s, e)
  {
    FoldHead(apply, s, e, []);
    assert [e] + [] == [e];
  }

  lemma FoldLast<S, E>(apply: (S, E) -> S, s: S, events: seq<E>, e: E)
    ensures Fold(apply, s, events + [e]) == apply(Fold(apply, s, events), e)
  {
    FoldConcat(apply, s, events, [e]);
    FoldOne(apply, Fold(apply, s, events), e);
  }

  lemma FoldInit<S, E>(apply: (S, E) -> S, s: S, events: seq<E>)
    requires events != []
    ensures var n := |events| - 1; Fold(apply, s, events) == apply(Fold(apply, s, events[..n]), events[n])
  {
    var n := |events| - 1;
    assert events == events[..n] + [events[n]];
    FoldLast(apply, s, events[..n], events[n]);
  }

  lemma FoldTwo<S, E>(apply: (S, E) -> S, s: S, a: E, b: E)
    ensures Fold(apply, s, [a, b]) == apply(apply(s, a), b)
  {
    assert [a, b] == [a] + [b];
    FoldLast(apply, s, [a], b);
    FoldOne(apply, s, a);
  }

  lemma FoldFour<S, E>(apply: (S, E) -> S, s: S, a: E, b: E, c: E, d: E)
    ensures Fold(apply, s, [a, b, c, d]) == apply(apply(apply(apply(s, a), b), c), d)
  {
    assert [a, b, c, d] == [a, b] + [c, d];
    FoldConcat(apply, s, [a, b], [c, d]);
    FoldTwo(apply, s, a, b);
    FoldTwo(apply, apply(apply(s, a), b), c, d);
  }
}
