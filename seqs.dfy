/** Sequence helpers shared by the schedule modules. */
module Seqs {

  /** The concatenation of f(x) for the elements x of xs, in order (nested loops that push). */
  function FlatMap<A, B>(xs: seq<A>, f: A -> seq<B>): seq<B>
  {
    if xs == [] then [] else FlatMap(xs[..|xs| - 1], f) + f(xs[|xs| - 1])
  }

  /** FlatMap distributes over concatenation, so the output keeps the order of the input. */
  lemma {:induction false} FlatMapAppend<A, B>(xs: seq<A>, ys: seq<A>, f: A -> seq<B>)
    ensures FlatMap(xs + ys, f) == FlatMap(xs, f) + FlatMap(ys, f)
    decreases |ys|
  {
    if ys == [] {
      assert xs + ys == xs;
    } else {
      var front := ys[..|ys| - 1];
      assert (xs + ys)[..|xs + ys| - 1] == xs + front;
      FlatMapAppend(xs, front, f);
    }
  }

  /** One step of a loop that pushes f(xs[i]). */
  lemma FlatMapStep<A, B>(xs: seq<A>, i: nat, f: A -> seq<B>)
    requires i < |xs|
    ensures FlatMap(xs[..i + 1], f) == FlatMap(xs[..i], f) + f(xs[i])
  {
    assert xs[..i + 1][..i] == xs[..i];
  }

  /** Every element of FlatMap(xs, f) comes from f(y) for some y in xs, and every such element occurs. */
  lemma {:induction false} FlatMapMember<A, B>(xs: seq<A>, f: A -> seq<B>, b: B)
    ensures b in FlatMap(xs, f) <==> exists y :: y in xs && b in f(y)
  {
    if xs != [] {
      var front := xs[..|xs| - 1];
      var last := xs[|xs| - 1];
      FlatMapMember(front, f, b);
      assert xs == front + [last];
      if y :| y in xs && b in f(y) {
        if y != last { assert y in front; }
      }
    }
  }

  /** When f yields exactly one element per input, FlatMap is an element-wise map. */
  lemma {:induction false} FlatMapSingletons<A, B>(xs: seq<A>, f: A -> seq<B>)
    requires forall y :: y in xs ==> |f(y)| == 1
    ensures |FlatMap(xs, f)| == |xs|
    ensures forall k :: 0 <= k < |xs| ==> FlatMap(xs, f)[k] == f(xs[k])[0]
  {
    if xs != [] {
      var front := xs[..|xs| - 1];
      assert forall y :: y in front ==> y in xs;
      FlatMapSingletons(front, f);
    }
  }

  /** No element occurs twice. */
  predicate Distinct<A(==)>(xs: seq<A>)
  {
    forall a, b :: 0 <= a < b < |xs| ==> xs[a] != xs[b]
  }
}
