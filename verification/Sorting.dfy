/** Go's `sort.Slice` by an integer key. */
module Sorting {

  ghost predicate SortedBy<T>(xs: seq<T>, key: T -> int) {
    forall i, j :: 0 <= i < j < |xs| ==> key(xs[i]) <= key(xs[j])
  }

  function InsertBy<T>(x: T, xs: seq<T>, key: T -> int): (r: seq<T>)
    ensures multiset(r) == multiset(xs) + multiset{x}
  {
    if xs == [] || key(x) <= key(xs[0]) then
      [x] + xs
    else
      assert xs == [xs[0]] + xs[1..];
      [xs[0]] + InsertBy(x, xs[1..], key)
  }

  lemma {:induction false} InsertSorted<T>(x: T, xs: seq<T>, key: T -> int)
    requires SortedBy(xs, key)
    ensures SortedBy(InsertBy(x, xs, key), key)
  {
    if xs != [] && key(x) > key(xs[0]) {
      var rest := InsertBy(x, xs[1..], key);
      InsertSorted(x, xs[1..], key);
      forall i | 0 <= i < |rest|
        ensures key(xs[0]) <= key(rest[i])
      {
        assert rest[i] in multiset(rest);
        assert rest[i] == x || rest[i] in xs[1..];
      }
    }
  }

  /** The same elements, each as often, in ascending order of their keys. */
  function SortBy<T>(xs: seq<T>, key: T -> int): (r: seq<T>)
    ensures multiset(r) == multiset(xs) && |r| == |xs|
    ensures SortedBy(r, key)
  {
    if xs == [] then []
    else
      assert xs == [xs[0]] + xs[1..];
      InsertSorted(xs[0], SortBy(xs[1..], key), key);
      InsertBy(xs[0], SortBy(xs[1..], key), key)
  }

  /** What a listing of a set may give: each element once, in any order. */
  ghost predicate Lists<T>(xs: seq<T>, elements: set<T>) {
    multiset(xs) == multiset(elements)
  }

  /** Go's iteration over a map, and the API server's listing, come in no particular order. */
  method List<T>(elements: set<T>) returns (xs: seq<T>)
    ensures Lists(xs, elements)
  {
    var rest := elements;
    xs := [];
    while rest != {}
      invariant rest <= elements
      invariant multiset(xs) + multiset(rest) == multiset(elements)
      decreases |rest|
    {
      var x :| x in rest;
      xs, rest := xs + [x], rest - {x};
    }
  }

  lemma ListedOnce<T>(xs: seq<T>, elements: set<T>, i: nat, j: nat)
    requires Lists(xs, elements) && i < j < |xs|
    ensures xs[i] != xs[j]
  {
    assert xs == xs[..i] + [xs[i]] + xs[i + 1..j] + [xs[j]] + xs[j + 1..];
    assert multiset(xs)[xs[i]] >= if xs[i] == xs[j] then 2 else 1;
    assert multiset(elements)[xs[i]] <= 1;
  }

  ghost predicate TellsApart<T(!new)>(key: T -> int, elements: set<T>) {
    forall x, y :: x in elements && y in elements && key(x) == key(y) ==> x == y
  }

  function Keys<T>(xs: seq<T>, key: T -> int): (ks: seq<int>)
    ensures |ks| == |xs| && forall i :: 0 <= i < |xs| ==> ks[i] == key(xs[i])
  {
    seq(|xs|, i requires 0 <= i < |xs| => key(xs[i]))
  }

  lemma ListedIn<T>(xs: seq<T>, elements: set<T>)
    requires Lists(xs, elements)
    ensures |xs| == |elements|
    ensures forall x :: x in xs <==> x in elements
  {
    assert |multiset(xs)| == |multiset(elements)|;
    assert forall x :: x in xs <==> x in multiset(xs);
  }

  /** A sorted listing by a key that tells the elements apart is strictly ascending. */
  lemma SortedListing<T(!new)>(xs: seq<T>, elements: set<T>, key: T -> int)
    requires Lists(xs, elements) && TellsApart(key, elements)
    ensures Lists(SortBy(xs, key), elements)
    ensures Ascending(Keys(SortBy(xs, key), key))
  {
    var r := SortBy(xs, key);
    ListedIn(r, elements);
    forall i, j | 0 <= i < j < |r|
      ensures key(r[i]) < key(r[j])
    {
      ListedOnce(r, elements, i, j);
      assert r[i] in r && r[j] in r;
    }
  }

  ghost predicate Ascending(s: seq<int>) {
    forall i, j :: 0 <= i < j < |s| ==> s[i] < s[j]
  }

  ghost predicate Contained(a: seq<int>, b: seq<int>) {
    forall i :: 0 <= i < |a| ==> a[i] in b
  }

  lemma ContainedInSome(a: seq<int>, b: seq<int>)
    requires Contained(a, b)
    ensures a == [] || b != []
  {
    assert a == [] || a[0] in b;
  }

  /** Without their last elements, which are the largest. */
  lemma ContainedFront(a: seq<int>, b: seq<int>)
    requires Ascending(a) && Ascending(b) && Contained(a, b) && a != [] && b != []
    requires a[|a| - 1] == b[|b| - 1]
    ensures Contained(a[..|a| - 1], b[..|b| - 1])
  {
    var m, n := |a| - 1, |b| - 1;
    forall i | 0 <= i < m
      ensures a[i] in b[..n]
    {
      var j :| 0 <= j < |b| && b[j] == a[i];
      assert b[..n][j] == a[i];
    }
  }

  /** There is only one ascending order of a set. */
  lemma {:induction false} AscendingIsUnique(a: seq<int>, b: seq<int>)
    requires Ascending(a) && Ascending(b) && Contained(a, b) && Contained(b, a)
    ensures a == b
  {
    ContainedInSome(a, b);
    ContainedInSome(b, a);
    if a != [] {
      var m, n := |a| - 1, |b| - 1;
      assert a[m] in b && b[n] in a;
      ContainedFront(a, b);
      ContainedFront(b, a);
      AscendingIsUnique(a[..m], b[..n]);
      assert a == a[..m] + [a[m]] && b == b[..n] + [b[n]];
    }
  }
}
