/** Finite runs of deterministic state machines. */
module Runs {

  /** A prefix of a prefix is a prefix. */
  lemma PrefixOfPrefix<T>(s: seq<T>, i: nat, n: nat)
    requires i <= n <= |s|
    ensures s[..n][..i] == s[..i] && s[..|s|] == s
  {
  }

  /** The state after `events`, from state `s`. */
  function Fold<S, E>(step: (S, E) -> S, s: S, events: seq<E>): S
    decreases |events|
  {
    if events == [] then s else Fold(step, step(s, events[0]), events[1..])
  }

  lemma {:induction false} FoldAppend<S, E>(step: (S, E) -> S, s: S, a: seq<E>, b: seq<E>)
    ensures Fold(step, s, a + b) == Fold(step, Fold(step, s, a), b)
    decreases |a|
  {
    if a == [] {
      assert a + b == b;
    } else {
      FoldAppend(step, step(s, a[0]), a[1..], b);
      assert (a + b)[1..] == a[1..] + b;
    }
  }

  lemma FoldSnoc<S, E>(step: (S, E) -> S, s: S, events: seq<E>, e: E)
    ensures Fold(step, s, events + [e]) == step(Fold(step, s, events), e)
  {
    FoldAppend(step, s, events, [e]);
  }

  lemma FoldThree<S, E>(step: (S, E) -> S, s: S, a: E, b: E, c: E)
    ensures Fold(step, s, [a, b, c]) == step(step(step(s, a), b), c)
  {
    FoldSnoc(step, s, [], a);
    FoldSnoc(step, s, [a], b);
    FoldSnoc(step, s, [a, b], c);
    assert [] + [a] == [a] && [a] + [b] == [a, b] && [a, b] + [c] == [a, b, c];
  }
}
