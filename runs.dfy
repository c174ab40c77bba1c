/** Runs of a step relation: a sequence of items processed one after the
    other, each step taking the state the one before it left. */
module Runs {

  /** `ss` is a run of `step` over `xs`: `ss[i]` is the state before
      `xs[i]` and `ss[i + 1]` the state after it. */
  ghost predicate Chain<S, X>(step: (S, X, S) -> bool, xs: seq<X>, ss: seq<S>)
    decreases |xs|
  {
    && |ss| == |xs| + 1
    && (xs != [] ==>
          && Chain(step, xs[..|xs| - 1], ss[..|xs|])
          && step(ss[|xs| - 1], xs[|xs| - 1], ss[|xs|]))
  }

  /** Every item of a run is a step from the state before it to the
      state after it. */
  lemma {:induction false} ChainAt<S, X>(step: (S, X, S) -> bool, xs: seq<X>, ss: seq<S>, j: nat)
    requires Chain(step, xs, ss) && j < |xs|
    ensures step(ss[j], xs[j], ss[j + 1])
    decreases |xs|
  {
    if j < |xs| - 1 {
      ChainAt(step, xs[..|xs| - 1], ss[..|xs|], j);
      assert xs[..|xs| - 1][j] == xs[j];
    }
  }

  /** A run over the first `i` items followed by a step over the `i`-th
      from its last state is a run over the first `i + 1`. */
  lemma ChainSnoc<S, X>(step: (S, X, S) -> bool, xs: seq<X>, i: nat, ss: seq<S>, s': S)
    requires i < |xs| && Chain(step, xs[..i], ss) && step(ss[i], xs[i], s')
    ensures Chain(step, xs[..i + 1], ss + [s'])
  {
    assert xs[..i + 1][..i] == xs[..i];
    assert (ss + [s'])[..i + 1] == ss;
  }

  /** The items of `xs` paired with those of `ys`, position by position. */
  function Zip<A, B>(xs: seq<A>, ys: seq<B>): (r: seq<(A, B)>)
    requires |xs| == |ys|
    ensures |r| == |xs| && forall k :: 0 <= k < |xs| ==> r[k] == (xs[k], ys[k])
  {
    seq(|xs|, k requires 0 <= k < |xs| => (xs[k], ys[k]))
  }

  /** Pairing the first `i + 1` items of `xs` with `ys` grown by `y`
      extends the pairing of the first `i` by `(xs[i], y)`. */
  lemma ZipSnoc<A, B>(xs: seq<A>, ys: seq<B>, i: nat, y: B)
    requires i < |xs| && |ys| == i
    ensures Zip(xs[..i + 1], ys + [y])[..i] == Zip(xs[..i], ys)
    ensures Zip(xs[..i + 1], ys + [y])[i] == (xs[i], y)
  {
  }
}
