/** Left folds: the state after processing a list from left to right. */
module Folding {
  import opened Text

  function Fold<S, A>(f: (S, A) -> S, s: S, xs: seq<A>): S {
    if xs == [] then s else f(Fold(f, s, xs[..|xs| - 1]), xs[|xs| - 1])
  }

  lemma {:induction false} FoldConcat<S, A>(f: (S, A) -> S, s: S, xs: seq<A>, ys: seq<A>)
    ensures Fold(f, s, xs + ys) == Fold(f, Fold(f, s, xs), ys)
  {
    if ys == [] {
      assert xs + ys == xs;
    } else {
      var n := |ys| - 1;
      FoldConcat(f, s, xs, ys[..n]);
      assert (xs + ys)[..|xs| + n] == xs + ys[..n];
    }
  }

  lemma FoldStep<S, A>(f: (S, A) -> S, s: S, xs: seq<A>, i: nat)
    requires i < |xs|
    ensures Fold(f, s, xs[..i + 1]) == f(Fold(f, s, xs[..i]), xs[i])
  {
    assert xs[..i + 1][..i] == xs[..i];
  }

  /** A state that every step leaves alone is left alone by the whole fold. */
  lemma {:induction false} FoldFixed<S, A(!new)>(f: (S, A) -> S, s: S, xs: seq<A>)
    requires forall x: A :: f(s, x) == s
    ensures Fold(f, s, xs) == s
  {
    if xs != [] {
      FoldFixed(f, s, xs[..|xs| - 1]);
    }
  }

  function Map<A, B>(f: A -> B, xs: seq<A>): seq<B> {
    seq(|xs|, i requires 0 <= i < |xs| => f(xs[i]))
  }

  function FlatMap<A, B>(f: A -> seq<B>, xs: seq<A>): seq<B> {
    if xs == [] then [] else FlatMap(f, xs[..|xs| - 1]) + f(xs[|xs| - 1])
  }

  lemma FlatMapStep<A, B>(f: A -> seq<B>, xs: seq<A>, i: nat)
    requires i < |xs|
    ensures FlatMap(f, xs[..i + 1]) == FlatMap(f, xs[..i]) + f(xs[i])
  {
    assert xs[..i + 1][..i] == xs[..i];
  }

  lemma FlatMapSnoc<A, B>(f: A -> seq<B>, xs: seq<A>, x: A)
    ensures FlatMap(f, xs + [x]) == FlatMap(f, xs) + f(x)
  {
  }

  lemma {:induction false} FlatMapEmpty<A, B>(f: A -> seq<B>, xs: seq<A>)
    ensures FlatMap(f, xs) == [] <==> forall i :: 0 <= i < |xs| ==> f(xs[i]) == []
  {
    if xs != [] {
      var n := |xs| - 1;
      FlatMapEmpty(f, xs[..n]);
      if FlatMap(f, xs) == [] {
        forall i | 0 <= i < |xs| ensures f(xs[i]) == [] {
          if i < n { assert xs[..n][i] == xs[i]; }
        }
      }
    }
  }

  lemma {:induction false} FlatMapMembers<A, B>(f: A -> seq<B>, xs: seq<A>, y: B)
    ensures y in FlatMap(f, xs) <==> exists i :: 0 <= i < |xs| && y in f(xs[i])
  {
    if xs != [] {
      var n := |xs| - 1;
      FlatMapMembers(f, xs[..n], y);
      if i :| 0 <= i < |xs| && y in f(xs[i]) {
        assert i < n ==> y in f(xs[..n][i]);
      }
    }
  }

  /** The numbers below n of which p holds. */
  ghost function Those(p: nat -> bool, n: nat): set<nat> {
    set i: nat | i < n && p(i)
  }

  lemma OneMore(p: nat -> bool, n: nat)
    ensures |Those(p, n + 1)| == |Those(p, n)| + if p(n) then 1 else 0
  {
    if p(n) {
      assert Those(p, n + 1) == Those(p, n) + {n};
    } else {
      assert Those(p, n + 1) == Those(p, n);
    }
  }

  /** All of them count exactly if p holds of each. */
  lemma {:induction false} AllCounted(p: nat -> bool, n: nat)
    ensures |Those(p, n)| <= n
    ensures |Those(p, n)| == n <==> forall i: nat :: i < n ==> p(i)
  {
    if n > 0 {
      AllCounted(p, n - 1);
      OneMore(p, n - 1);
    } else {
      assert Those(p, 0) == {};
    }
  }

  /** All results, or None if one of the calls has none. */
  function Traverse<A, B>(f: A -> Option<B>, xs: seq<A>): Option<seq<B>> {
    if xs == [] then Some([]) else
    var init, last := Traverse(f, xs[..|xs| - 1]), f(xs[|xs| - 1]);
    if init.Some? && last.Some? then Some(init.value + [last.value]) else None
  }

  lemma {:induction false} TraverseIs<A, B>(f: A -> Option<B>, xs: seq<A>, ys: seq<B>)
    ensures Traverse(f, xs) == Some(ys) <==> |ys| == |xs| && forall i :: 0 <= i < |xs| ==> f(xs[i]) == Some(ys[i])
  {
    if xs != [] && |ys| == |xs| {
      var n := |xs| - 1;
      TraverseIs(f, xs[..n], ys[..n]);
      assert ys == ys[..n] + [ys[n]];
      if Traverse(f, xs) == Some(ys) {
        assert Traverse(f, xs[..n]).value == ys[..n];
      }
    } else if xs != [] && Traverse(f, xs) == Some(ys) {
      TraverseIs(f, xs[..|xs| - 1], Traverse(f, xs[..|xs| - 1]).value);
      assert false;
    }
  }
}
