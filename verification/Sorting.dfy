/** The sorted copies the charts work on: stable by a key, or ascending and without repeats. */
module Sorting {

  predicate SortedBy<T>(xs: seq<T>, key: T -> real) {
    forall i, j | 0 <= i < j < |xs| :: key(xs[i]) <= key(xs[j])
  }

  /** Insert after every element whose key is no larger. */
  function Insert<T>(xs: seq<T>, x: T, key: T -> real): seq<T> {
    if xs == [] || key(x) < key(xs[0]) then [x] + xs
    else [xs[0]] + Insert(xs[1..], x, key)
  }

  lemma {:induction false} InsertKeeps<T>(xs: seq<T>, x: T, key: T -> real)
    ensures multiset(Insert(xs, x, key)) == multiset(xs) + multiset{x}
    ensures |Insert(xs, x, key)| == |xs| + 1
  {
    if xs != [] && key(x) >= key(xs[0]) {
      InsertKeeps(xs[1..], x, key);
      assert xs == [xs[0]] + xs[1..];
    }
  }

  lemma {:induction false} InsertSorts<T>(xs: seq<T>, x: T, key: T -> real, floor: real)
    requires SortedBy(xs, key) && floor <= key(x)
    requires forall i | 0 <= i < |xs| :: floor <= key(xs[i])
    ensures SortedBy(Insert(xs, x, key), key)
    ensures forall i | 0 <= i < |Insert(xs, x, key)| :: floor <= key(Insert(xs, x, key)[i])
  {
    if xs != [] && key(x) >= key(xs[0]) {
      InsertSorts(xs[1..], x, key, key(xs[0]));
    }
  }

  /** A copy sorted by `key`; equal keys keep their order. */
  function SortBy<T>(xs: seq<T>, key: T -> real): seq<T> {
    if xs == [] then [] else Insert(SortBy(xs[..|xs| - 1], key), xs[|xs| - 1], key)
  }

  lemma {:induction false} SortByKeeps<T>(xs: seq<T>, key: T -> real)
    ensures multiset(SortBy(xs, key)) == multiset(xs)
    ensures |SortBy(xs, key)| == |xs|
  {
    if xs != [] {
      var init, last := xs[..|xs| - 1], xs[|xs| - 1];
      SortByKeeps(init, key);
      InsertKeeps(SortBy(init, key), last, key);
      assert xs == init + [last];
    }
  }

  lemma {:induction false} SortBySorts<T>(xs: seq<T>, key: T -> real)
    ensures SortedBy(SortBy(xs, key), key)
    ensures multiset(SortBy(xs, key)) == multiset(xs)
    ensures |SortBy(xs, key)| == |xs|
    ensures forall k | 0 <= k < |xs| :: SortBy(xs, key)[k] in xs
  {
    SortByKeeps(xs, key);
    SameElements(SortBy(xs, key), xs);
    if xs != [] {
      var init, last := xs[..|xs| - 1], xs[|xs| - 1];
      SortBySorts(init, key);
      var ys := SortBy(init, key);
      var floor := if ys != [] && key(ys[0]) < key(last) then key(ys[0]) else key(last);
      InsertSorts(ys, last, key, floor);
    }
  }

  lemma SameElements<T>(ys: seq<T>, xs: seq<T>)
    requires multiset(ys) == multiset(xs)
    ensures forall k | 0 <= k < |ys| :: ys[k] in xs
  {
    forall k | 0 <= k < |ys| ensures ys[k] in xs {
      assert ys[k] in multiset(ys);
    }
  }

  predicate Ascending(xs: seq<real>) {
    forall i, j | 0 <= i < j < |xs| :: xs[i] < xs[j]
  }

  function InsertDistinct(xs: seq<real>, x: real): (ys: seq<real>)
    requires Ascending(xs)
    ensures Ascending(ys)
    ensures forall y :: y in ys <==> y == x || y in xs
  {
    if xs == [] then [x]
    else if x < xs[0] then [x] + xs
    else if x == xs[0] then xs
    else
      var ys := InsertDistinct(xs[1..], x);
      assert xs == [xs[0]] + xs[1..];
      assert forall i | 0 <= i < |ys| :: ys[i] in ys && xs[0] < ys[i];
      [xs[0]] + ys
  }

  /** The distinct values, ascending. */
  function SortDistinct(xs: seq<real>): (ys: seq<real>)
    ensures Ascending(ys)
    ensures forall y :: y in ys <==> y in xs
  {
    if xs == [] then []
    else
      assert xs == [xs[0]] + xs[1..];
      InsertDistinct(SortDistinct(xs[1..]), xs[0])
  }
}
