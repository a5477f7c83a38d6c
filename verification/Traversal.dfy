/** Mapping a list, also through a step that can fail, stopping at the first failure. */
module Traversal {
  import opened Errors

  function Map<A, B>(f: A -> B, xs: seq<A>): (ys: seq<B>)
    ensures |ys| == |xs| && forall i :: 0 <= i < |xs| ==> ys[i] == f(xs[i])
  {
    seq(|xs|, i requires 0 <= i < |xs| => f(xs[i]))
  }

  lemma MapExtend<A, B>(f: A -> B, xs: seq<A>, n: nat)
    requires n < |xs|
    ensures Map(f, xs[..n + 1]) == Map(f, xs[..n]) + [f(xs[n])]
  {
  }

  function Traverse<A, B>(f: A -> Result<B>, xs: seq<A>): Result<seq<B>> {
    if xs == [] then Ok([])
    else
      match Traverse(f, xs[..|xs| - 1])
      case Err(e) => Err(e)
      case Ok(ys) =>
        match f(xs[|xs| - 1])
        case Err(e) => Err(e)
        case Ok(y) => Ok(ys + [y])
  }

  /** All or nothing: success means every element succeeded, with one result per element, in order. */
  lemma {:induction false} TraverseAll<A, B>(f: A -> Result<B>, xs: seq<A>)
    ensures Traverse(f, xs).Ok? <==> forall i :: 0 <= i < |xs| ==> f(xs[i]).Ok?
    ensures Traverse(f, xs).Ok? ==>
              |Traverse(f, xs).value| == |xs| &&
              forall i :: 0 <= i < |xs| ==> f(xs[i]) == Ok(Traverse(f, xs).value[i])
    ensures Traverse(f, xs).Err? ==>
              exists i :: 0 <= i < |xs| && f(xs[i]) == Err(Traverse(f, xs).error)
  {
    if xs != [] {
      var head := xs[..|xs| - 1];
      TraverseAll(f, head);
      assert forall i :: 0 <= i < |head| ==> head[i] == xs[i];
      if Traverse(f, head).Err? {
        var i :| 0 <= i < |head| && f(head[i]) == Err(Traverse(f, head).error);
        assert f(xs[i]) == Err(Traverse(f, xs).error);
      }
    }
  }

  /** A failed traversal fails with the first failure in the list. */
  lemma {:induction false} TraverseFirst<A, B>(f: A -> Result<B>, xs: seq<A>) returns (n: nat)
    requires Traverse(f, xs).Err?
    ensures n < |xs| && f(xs[n]) == Err(Traverse(f, xs).error)
    ensures forall i :: 0 <= i < n ==> f(xs[i]).Ok?
  {
    var head := xs[..|xs| - 1];
    if Traverse(f, head).Err? {
      n := TraverseFirst(f, head);
      assert forall i :: 0 <= i <= n ==> head[i] == xs[i];
    } else {
      n := |head|;
      TraverseAll(f, head);
      assert forall i :: 0 <= i < n ==> head[i] == xs[i];
    }
  }

  lemma TraverseIs<A, B>(f: A -> Result<B>, xs: seq<A>, ys: seq<B>)
    requires |xs| == |ys| && forall i :: 0 <= i < |xs| ==> f(xs[i]) == Ok(ys[i])
    ensures Traverse(f, xs) == Ok(ys)
  {
    TraverseAll(f, xs);
    assert Traverse(f, xs).value == ys;
  }

  /** A failure on a prefix is the failure of the whole. */
  lemma {:induction false} TraverseStops<A, B>(f: A -> Result<B>, xs: seq<A>, n: nat)
    requires n <= |xs| && Traverse(f, xs[..n]).Err?
    ensures Traverse(f, xs) == Traverse(f, xs[..n])
    decreases |xs| - n
  {
    if n == |xs| {
      assert xs[..n] == xs;
    } else {
      assert xs[..n + 1][..n] == xs[..n];
      TraverseStops(f, xs, n + 1);
    }
  }

  /** One more element on a prefix that has succeeded so far. */
  lemma TraverseStep<A, B>(f: A -> Result<B>, xs: seq<A>, n: nat, ys: seq<B>)
    requires n < |xs| && Traverse(f, xs[..n]) == Ok(ys)
    ensures f(xs[n]).Ok? ==> Traverse(f, xs[..n + 1]) == Ok(ys + [f(xs[n]).value])
    ensures f(xs[n]).Err? ==> Traverse(f, xs) == Err(f(xs[n]).error)
  {
    assert xs[..n + 1][..n] == xs[..n];
    if f(xs[n]).Err? {
      TraverseStops(f, xs, n + 1);
    }
  }
}
