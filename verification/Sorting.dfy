/** Sorted string lists: `sort.Strings`, and the one sorted list a set of strings has. */
module Sorting {

  /** Go's string order. */
  predicate Less(a: string, b: string) {
    if b == "" then false
    else if a == "" then true
    else if a[0] != b[0] then a[0] < b[0]
    else Less(a[1..], b[1..])
  }

  /** After `k` common characters, `a` ends or has the smaller character. */
  predicate PrecedesAt(a: string, b: string, k: nat) {
    k <= |a| && k < |b| && a[..k] == b[..k] && (k == |a| || a[k] < b[k])
  }

  /** Dictionary order, by the first place where two texts differ. */
  ghost predicate Precedes(a: string, b: string) {
    exists k: nat :: PrecedesAt(a, b, k)
  }

  lemma {:induction false} LessIsPrecedes(a: string, b: string)
    ensures Less(a, b) <==> Precedes(a, b)
  {
    if b == "" {
      assert !Precedes(a, b);
    } else if a == "" || a[0] != b[0] {
      assert PrecedesAt(a, b, 0) <==> a == "" || a[0] < b[0];
      assert forall k: nat :: k > 0 && a != "" && k <= |a| && k < |b| ==> a[..k][0] == a[0] && b[..k][0] == b[0];
    } else {
      LessIsPrecedes(a[1..], b[1..]);
      PrecedesTail(a, b);
    }
  }

  lemma PrecedesTail(a: string, b: string)
    requires a != "" && b != "" && a[0] == b[0]
    ensures Precedes(a, b) <==> Precedes(a[1..], b[1..])
  {
    if Precedes(a, b) {
      var k: nat :| PrecedesAt(a, b, k);
      assert a[1..][..k - 1] == a[..k][1..] && b[1..][..k - 1] == b[..k][1..];
      assert PrecedesAt(a[1..], b[1..], k - 1);
    }
    if Precedes(a[1..], b[1..]) {
      var k: nat :| PrecedesAt(a[1..], b[1..], k);
      assert a[..k + 1] == [a[0]] + a[1..][..k] && b[..k + 1] == [b[0]] + b[1..][..k];
      assert PrecedesAt(a, b, k + 1);
    }
  }

  /** A list in dictionary order, without repetition. */
  ghost predicate InDictionaryOrder(xs: seq<string>) {
    forall i, j :: 0 <= i < j < |xs| ==> Precedes(xs[i], xs[j])
  }

  lemma AscendingIsDictionaryOrder(xs: seq<string>)
    ensures StrictlyAscending(xs) <==> InDictionaryOrder(xs)
  {
    forall i, j | 0 <= i < j < |xs|
      ensures Less(xs[i], xs[j]) <==> Precedes(xs[i], xs[j])
    {
      LessIsPrecedes(xs[i], xs[j]);
    }
  }

  lemma {:induction false} LessTotal(a: string, b: string)
    ensures Less(a, b) || a == b || Less(b, a)
    ensures !(Less(a, b) && Less(b, a))
    ensures !Less(a, a)
  {
    if a != "" {
      LessTotal(a[1..], if b == "" then "" else b[1..]);
    }
    if a != "" && b != "" && a[0] == b[0] && a[1..] == b[1..] {
      assert a == [a[0]] + a[1..] && b == [b[0]] + b[1..];
    }
  }

  lemma {:induction false} LessTransitive(a: string, b: string, c: string)
    requires Less(a, b) && Less(b, c)
    ensures Less(a, c)
  {
    if a != "" && a[0] == b[0] == c[0] {
      LessTransitive(a[1..], b[1..], c[1..]);
    }
  }

  ghost predicate Ascending(xs: seq<string>) {
    forall i, j :: 0 <= i < j < |xs| ==> !Less(xs[j], xs[i])
  }

  ghost predicate StrictlyAscending(xs: seq<string>) {
    forall i, j :: 0 <= i < j < |xs| ==> Less(xs[i], xs[j])
  }

  function Insert(xs: seq<string>, x: string): seq<string> {
    if xs == [] || !Less(x, xs[|xs| - 1]) then xs + [x]
    else Insert(xs[..|xs| - 1], x) + [xs[|xs| - 1]]
  }

  /** `sort.Strings`, on the list's value. */
  function SortStrings(xs: seq<string>): seq<string> {
    if xs == [] then [] else Insert(SortStrings(xs[..|xs| - 1]), xs[|xs| - 1])
  }

  lemma {:induction false} InsertKeeps(xs: seq<string>, x: string)
    ensures multiset(Insert(xs, x)) == multiset(xs) + multiset{x}
  {
    if xs != [] && Less(x, xs[|xs| - 1]) {
      InsertKeeps(xs[..|xs| - 1], x);
      assert xs == xs[..|xs| - 1] + [xs[|xs| - 1]];
    }
  }

  lemma {:induction false} InsertSorts(xs: seq<string>, x: string)
    requires Ascending(xs)
    ensures Ascending(Insert(xs, x))
  {
    if xs == [] || !Less(x, xs[|xs| - 1]) {
      forall i | 0 <= i < |xs|
        ensures !Less(x, xs[i])
      {
        if Less(x, xs[i]) {
          BelowLast(xs, i, x);
        }
      }
    } else {
      var head, last := xs[..|xs| - 1], xs[|xs| - 1];
      InsertSorts(head, x);
      InsertKeeps(head, x);
      LessTotal(x, last);
      var r := Insert(head, x);
      forall i | 0 <= i < |r|
        ensures !Less(last, r[i])
      {
        assert r[i] in multiset(r);
        assert r[i] == x || r[i] in head;
      }
    }
  }

  /** Below some element of an ascending list is below its last. */
  lemma BelowLast(xs: seq<string>, i: nat, x: string)
    requires Ascending(xs) && i < |xs| && Less(x, xs[i])
    ensures Less(x, xs[|xs| - 1])
  {
    var last := xs[|xs| - 1];
    LessTotal(xs[i], last);
    if Less(xs[i], last) {
      LessTransitive(x, xs[i], last);
    }
  }

  lemma {:induction false} SortStringsKeeps(xs: seq<string>)
    ensures multiset(SortStrings(xs)) == multiset(xs)
  {
    if xs != [] {
      var head, last := xs[..|xs| - 1], xs[|xs| - 1];
      SortStringsKeeps(head);
      InsertKeeps(SortStrings(head), last);
      assert xs == head + [last];
      assert multiset(xs) == multiset(head) + multiset{last};
    }
  }

  lemma {:induction false} SortStringsSorts(xs: seq<string>)
    ensures Ascending(SortStrings(xs))
  {
    if xs != [] {
      SortStringsSorts(xs[..|xs| - 1]);
      InsertSorts(SortStrings(xs[..|xs| - 1]), xs[|xs| - 1]);
    }
  }

  function Elements(xs: seq<string>): set<string> {
    set x | x in xs
  }

  lemma ElementsAppend(xs: seq<string>, x: string)
    ensures Elements(xs + [x]) == Elements(xs) + {x}
    ensures Distinct(xs) && x !in Elements(xs) ==> Distinct(xs + [x])
  {
    var ys := xs + [x];
    assert ys[|xs|] == x;
    assert forall i :: 0 <= i < |xs| ==> ys[i] == xs[i] && xs[i] in Elements(xs);
    assert forall y :: y in ys <==> y in xs || y == x;
  }

  predicate Distinct(xs: seq<string>) {
    forall i, j :: 0 <= i < j < |xs| ==> xs[i] != xs[j]
  }

  /** Sorting distinct strings gives a strictly ascending list of the same strings. */
  lemma SortDistinct(xs: seq<string>)
    requires Distinct(xs)
    ensures StrictlyAscending(SortStrings(xs))
    ensures Elements(SortStrings(xs)) == Elements(xs)
  {
    var ys := SortStrings(xs);
    SortStringsSorts(xs);
    SortStringsKeeps(xs);
    forall y | y in ys || y in xs
      ensures y in ys <==> y in xs
    {
      assert y in multiset(ys) <==> y in multiset(xs);
    }
    DistinctCounts(xs);
    forall i, j | 0 <= i < j < |ys|
      ensures Less(ys[i], ys[j])
    {
      if ys[i] == ys[j] {
        TwiceCounts(ys, i, j);
      }
      LessTotal(ys[i], ys[j]);
    }
  }

  lemma {:induction false} DistinctCounts(xs: seq<string>)
    requires Distinct(xs)
    ensures forall x :: multiset(xs)[x] <= 1
  {
    if xs != [] {
      var head, last := xs[..|xs| - 1], xs[|xs| - 1];
      DistinctCounts(head);
      assert xs == head + [last];
      assert last !in head;
      assert multiset(xs) == multiset(head) + multiset{last};
    }
  }

  lemma TwiceCounts(xs: seq<string>, i: nat, j: nat)
    requires i < j < |xs| && xs[i] == xs[j]
    ensures multiset(xs)[xs[i]] >= 2
  {
    assert xs == xs[..j] + [xs[j]] + xs[j + 1..];
    assert xs[i] in xs[..j];
    assert multiset(xs) == multiset(xs[..j]) + multiset{xs[j]} + multiset(xs[j + 1..]);
  }

  /** A set of strings has only one strictly ascending listing. */
  lemma {:induction false} ListingUnique(xs: seq<string>, ys: seq<string>)
    requires StrictlyAscending(xs) && StrictlyAscending(ys) && Elements(xs) == Elements(ys)
    ensures xs == ys
  {
    assert ys != [] ==> ys[0] in Elements(xs);
    if xs != [] {
      var n := |xs| - 1;
      assert xs[n] in Elements(ys);
      var m := |ys| - 1;
      assert ys[m] in Elements(xs);
      LastIsGreatest(xs, ys[m]);
      LastIsGreatest(ys, xs[n]);
      LessTotal(xs[n], ys[m]);
      ElementsButLast(xs);
      ElementsButLast(ys);
      ListingUnique(xs[..n], ys[..m]);
      assert xs == xs[..n] + [xs[n]] && ys == ys[..m] + [ys[m]];
    }
  }

  lemma LastIsGreatest(xs: seq<string>, x: string)
    requires StrictlyAscending(xs) && x in xs
    ensures x == xs[|xs| - 1] || Less(x, xs[|xs| - 1])
  {
  }

  lemma ElementsButLast(xs: seq<string>)
    requires StrictlyAscending(xs) && xs != []
    ensures Elements(xs[..|xs| - 1]) == Elements(xs) - {xs[|xs| - 1]}
  {
    var head, last := xs[..|xs| - 1], xs[|xs| - 1];
    LessTotal(last, last);
    assert forall i :: 0 <= i < |head| ==> head[i] != last;
    assert xs == head + [last];
  }

  /** The strictly ascending listing of a set. */
  ghost function Listing(s: set<string>): (xs: seq<string>)
    ensures StrictlyAscending(xs) && Elements(xs) == s
  {
    ListingExists(s);
    var xs :| StrictlyAscending(xs) && Elements(xs) == s;
    xs
  }

  lemma ListingExists(s: set<string>)
    ensures exists xs :: StrictlyAscending(xs) && Elements(xs) == s
  {
    var xs := Enumerate(s);
    SortDistinct(xs);
  }

  lemma {:induction false} Enumerate(s: set<string>) returns (xs: seq<string>)
    ensures Distinct(xs) && Elements(xs) == s
  {
    if s == {} {
      xs := [];
    } else {
      var x :| x in s;
      xs := Enumerate(s - {x});
      ElementsAppend(xs, x);
      xs := xs + [x];
    }
  }

  /** Ranging over a map's keys in an arbitrary order and sorting what was collected. */
  method SortedKeys(keys: set<string>) returns (r: seq<string>)
    ensures r == Listing(keys)
    ensures InDictionaryOrder(r) && forall key :: key in r <==> key in keys
  {
    var collected := [];
    var rest := keys;
    while rest != {}
      invariant Distinct(collected)
      invariant Elements(collected) == keys - rest
      invariant rest <= keys
      decreases |rest|
    {
      var key :| key in rest;
      ElementsAppend(collected, key);
      collected := collected + [key];
      rest := rest - {key};
    }
    SortDistinct(collected);
    r := SortStrings(collected);
    ListingUnique(r, Listing(keys));
    AscendingIsDictionaryOrder(r);
    assert forall key :: key in r <==> key in Elements(r);
  }
}
