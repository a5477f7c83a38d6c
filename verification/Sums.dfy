/** Sums over lists, and what leaves them unchanged. */
module Sums {

  function Sum<T>(f: T -> int, xs: seq<T>): int {
    if xs == [] then 0 else Sum(f, xs[..|xs| - 1]) + f(xs[|xs| - 1])
  }

  lemma {:induction false} SumConcat<T>(f: T -> int, xs: seq<T>, ys: seq<T>)
    ensures Sum(f, xs + ys) == Sum(f, xs) + Sum(f, ys)
  {
    if ys == [] {
      assert xs + ys == xs;
    } else {
      var zs := xs + ys;
      assert zs[..|zs| - 1] == xs + ys[..|ys| - 1];
      SumConcat(f, xs, ys[..|ys| - 1]);
    }
  }

  lemma SumSnoc<T>(f: T -> int, xs: seq<T>, x: T)
    ensures Sum(f, xs + [x]) == Sum(f, xs) + f(x)
  {
    assert (xs + [x])[..|xs|] == xs;
  }

  lemma SplitAround<T>(xs: seq<T>, i: nat)
    requires i < |xs|
    ensures xs == xs[..i] + [xs[i]] + xs[i + 1..]
  {
  }

  lemma SumAround<T>(f: T -> int, xs: seq<T>, a: seq<T>, x: T, b: seq<T>)
    requires xs == a + [x] + b
    ensures Sum(f, xs) == Sum(f, a + b) + f(x)
  {
    SumConcat(f, a + [x], b);
    SumSnoc(f, a, x);
    SumConcat(f, a, b);
  }

  lemma SumRemove<T>(f: T -> int, xs: seq<T>, i: nat)
    requires i < |xs|
    ensures Sum(f, xs) == Sum(f, xs[..i] + xs[i + 1..]) + f(xs[i])
  {
    SplitAround(xs, i);
    SumAround(f, xs, xs[..i], xs[i], xs[i + 1..]);
  }

  lemma MultisetRemove<T>(xs: seq<T>, i: nat)
    requires i < |xs|
    ensures multiset(xs) == multiset(xs[..i] + xs[i + 1..]) + multiset{xs[i]}
  {
    SplitAround(xs, i);
  }

  lemma MultisetCancel<T>(a: multiset<T>, b: multiset<T>, x: T)
    requires a + multiset{x} == b + multiset{x}
    ensures a == b
  {
    assert a == (a + multiset{x}) - multiset{x};
    assert b == (b + multiset{x}) - multiset{x};
  }

  /** A sum depends only on which elements are listed and how often. */
  lemma {:induction false} SumPermutation<T>(f: T -> int, xs: seq<T>, ys: seq<T>)
    requires multiset(xs) == multiset(ys)
    ensures Sum(f, xs) == Sum(f, ys)
    decreases |xs|
  {
    if xs == [] {
      assert |multiset(ys)| == 0;
    } else {
      assert xs[0] in multiset(ys);
      var i :| 0 <= i < |ys| && ys[i] == xs[0];
      MultisetRemove(xs, 0);
      MultisetRemove(ys, i);
      SumRemove(f, xs, 0);
      SumRemove(f, ys, i);
      assert xs[..0] + xs[1..] == xs[1..];
      var rest := ys[..i] + ys[i + 1..];
      assert multiset(xs[1..]) + multiset{xs[0]} == multiset(rest) + multiset{xs[0]};
      MultisetCancel(multiset(xs[1..]), multiset(rest), xs[0]);
      SumPermutation(f, xs[1..], rest);
    }
  }

  lemma {:induction false} SumPointwise<S, T>(f: S -> int, xs: seq<S>, g: T -> int, ys: seq<T>)
    requires |xs| == |ys|
    requires forall i :: 0 <= i < |xs| ==> f(xs[i]) == g(ys[i])
    ensures Sum(f, xs) == Sum(g, ys)
  {
    if xs != [] {
      SumPointwise(f, xs[..|xs| - 1], g, ys[..|ys| - 1]);
    }
  }

  /** Scaling every term scales the sum. */
  lemma {:induction false} SumScaled<T>(f: T -> int, g: T -> int, xs: seq<T>, k: int)
    requires forall i :: 0 <= i < |xs| ==> f(xs[i]) * k == g(xs[i])
    ensures Sum(f, xs) * k == Sum(g, xs)
  {
    if xs != [] {
      SumScaled(f, g, xs[..|xs| - 1], k);
    }
  }
}
