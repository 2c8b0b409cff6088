/** Left folds over sequences, for any state and element types. */
module Folds {
  function Fold<S(!new), E(!new)>(step: (S, E) -> S, s: S, xs: seq<E>): S {
    if xs == [] then s else step(Fold(step, s, xs[..|xs| - 1]), xs[|xs| - 1])
  }

  lemma {:induction false} FoldAppend<S(!new), E(!new)>(step: (S, E) -> S, s: S, a: seq<E>, b: seq<E>)
    ensures Fold(step, s, a + b) == Fold(step, Fold(step, s, a), b)
    decreases |b|
  {
    if b == [] {
      assert a + b == a;
    } else {
      var n := |b| - 1;
      assert (a + b)[..|a + b| - 1] == a + b[..n];
      FoldAppend(step, s, a, b[..n]);
    }
  }

  lemma FoldFirst<S(!new), E(!new)>(step: (S, E) -> S, s: S, xs: seq<E>)
    requires xs != []
    ensures Fold(step, s, xs) == Fold(step, step(s, xs[0]), xs[1..])
  {
    var head := xs[..1];
    assert xs == head + xs[1..];
    FoldAppend(step, s, head, xs[1..]);
    assert head[..0] == [];
    assert Fold(step, s, head) == step(Fold(step, s, head[..0]), xs[0]);
  }

  ghost predicate InjectiveStep<S(!new), E(!new)>(step: (S, E) -> S) {
    forall a, b, e :: step(a, e) == step(b, e) ==> a == b
  }

  /** If every element acts injectively, so does every sequence. */
  lemma {:induction false} FoldInjective<S(!new), E(!new)>(step: (S, E) -> S, s: S, t: S, xs: seq<E>)
    requires InjectiveStep(step)
    requires Fold(step, s, xs) == Fold(step, t, xs)
    ensures s == t
    decreases |xs|
  {
    if xs != [] {
      FoldInjective(step, s, t, xs[..|xs| - 1]);
    }
  }

  function Flatten<E, F>(parts: E -> seq<F>, xs: seq<E>): seq<F> {
    if xs == [] then [] else Flatten(parts, xs[..|xs| - 1]) + parts(xs[|xs| - 1])
  }

  /** Folding coarse steps is folding the fine steps each of them stands for. */
  lemma {:induction false} FoldFlatten<S(!new), E(!new), F(!new)>(
      coarse: (S, E) -> S, fine: (S, F) -> S, parts: E -> seq<F>, s: S, xs: seq<E>)
    requires forall c, e :: coarse(c, e) == Fold(fine, c, parts(e))
    ensures Fold(coarse, s, xs) == Fold(fine, s, Flatten(parts, xs))
    decreases |xs|
  {
    if xs != [] {
      var front := xs[..|xs| - 1];
      FoldFlatten(coarse, fine, parts, s, front);
      FoldAppend(fine, s, Flatten(parts, front), parts(xs[|xs| - 1]));
    }
  }

  lemma {:induction false} FlattenUniform<E, F>(parts: E -> seq<F>, xs: seq<E>)
    requires forall e :: |parts(e)| == 8
    ensures |Flatten(parts, xs)| == 8 * |xs|
  {
    if xs != [] { FlattenUniform(parts, xs[..|xs| - 1]); }
  }

  /** When each element has eight parts, element k occupies positions 8k .. 8k+8 of the output. */
  lemma {:induction false} FlattenAt<E, F>(parts: E -> seq<F>, xs: seq<E>, k: nat)
    requires forall e :: |parts(e)| == 8
    requires k < |xs|
    ensures |Flatten(parts, xs)| == 8 * |xs|
    ensures Flatten(parts, xs)[8 * k..8 * k + 8] == parts(xs[k])
    decreases |xs|
  {
    var front := xs[..|xs| - 1];
    FlattenUniform(parts, front);
    if k < |front| {
      FlattenAt(parts, front, k);
      assert Flatten(parts, xs)[8 * k..8 * k + 8] == Flatten(parts, front)[8 * k..8 * k + 8];
    }
  }

  lemma FlattenInjective<E(!new), F(!new)>(parts: E -> seq<F>, a: seq<E>, b: seq<E>)
    requires forall e :: |parts(e)| == 8
    requires forall d, e :: parts(d) == parts(e) ==> d == e
    requires Flatten(parts, a) == Flatten(parts, b)
    ensures a == b
  {
    FlattenUniform(parts, a);
    FlattenUniform(parts, b);
    forall k | 0 <= k < |a| ensures a[k] == b[k] {
      FlattenAt(parts, a, k);
      FlattenAt(parts, b, k);
    }
  }

  ghost predicate AdditiveStep<S(!new), E(!new)>(step: (S, E) -> S, add: (S, S) -> S, mix: (E, E) -> E) {
    forall x, y, d, e :: step(add(x, y), mix(d, e)) == add(step(x, d), step(y, e))
  }

  function Mixed<E(!new)>(mix: (E, E) -> E, a: seq<E>, b: seq<E>): seq<E>
    requires |a| == |b|
  {
    seq(|a|, i requires 0 <= i < |a| => mix(a[i], b[i]))
  }

  /** A fold of a step that is additive in state and element is additive. */
  lemma {:induction false} FoldAdditive<S(!new), E(!new)>(
      step: (S, E) -> S, add: (S, S) -> S, mix: (E, E) -> E, s: S, t: S, a: seq<E>, b: seq<E>)
    requires |a| == |b|
    requires AdditiveStep(step, add, mix)
    ensures Fold(step, add(s, t), Mixed(mix, a, b)) == add(Fold(step, s, a), Fold(step, t, b))
    decreases |a|
  {
    if a != [] {
      var n := |a| - 1;
      FoldAdditive(step, add, mix, s, t, a[..n], b[..n]);
      assert Mixed(mix, a, b)[..n] == Mixed(mix, a[..n], b[..n]);
    }
  }

  lemma FoldFive<S(!new), E(!new)>(step: (S, E) -> S, s: S, xs: seq<E>)
    requires |xs| == 5
    ensures Fold(step, s, xs) == step(step(step(step(step(s, xs[0]), xs[1]), xs[2]), xs[3]), xs[4])
  {
    assert xs[..4][..3] == xs[..3] && xs[..3][..2] == xs[..2] && xs[..2][..1] == xs[..1] && xs[..1][..0] == [];
    assert Fold(step, s, xs[..1]) == step(s, xs[0]);
    assert Fold(step, s, xs[..2]) == step(Fold(step, s, xs[..1]), xs[1]);
    assert Fold(step, s, xs[..3]) == step(Fold(step, s, xs[..2]), xs[2]);
    assert Fold(step, s, xs[..4]) == step(Fold(step, s, xs[..3]), xs[3]);
  }

  lemma FoldSnoc<S(!new), E(!new)>(step: (S, E) -> S, s: S, xs: seq<E>, i: nat)
    requires i < |xs|
    ensures Fold(step, s, xs[..i + 1]) == step(Fold(step, s, xs[..i]), xs[i])
  {
    assert xs[..i + 1][..i] == xs[..i];
  }
}
