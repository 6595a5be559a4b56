/**
  Python's `sorted(xs, key=...)` on a real-valued key, as an insertion sort
  on values: the result is ordered by the key and is a permutation of the
  input. Used for `percentile`'s `sorted(values)`, pandas' median and the
  newest-first ordering of QA reports.
*/
module Sorting {

  predicate SortedBy<T>(xs: seq<T>, key: T -> real) {
    forall i, j :: 0 <= i < j < |xs| ==> key(xs[i]) <= key(xs[j])
  }

  /** `x` placed after every element whose key is at most its own. */
  function Insert<T>(x: T, xs: seq<T>, key: T -> real): (r: seq<T>)
    requires SortedBy(xs, key)
    ensures SortedBy(r, key)
    ensures multiset(r) == multiset(xs) + multiset{x}
    ensures |r| == |xs| + 1
  {
    if xs == [] then [x]
    else if key(x) < key(xs[0]) then
      ConsSorted(x, xs, key);
      [x] + xs
    else
      var rest := Insert(x, xs[1..], key);
      assert xs == [xs[0]] + xs[1..];
      InsertedAbove(xs, x, rest, key);
      ConsSorted(xs[0], rest, key);
      [xs[0]] + rest
  }

  /** A sorted sequence stays sorted when an element no greater than all its keys goes in front. */
  lemma ConsSorted<T>(y: T, xs: seq<T>, key: T -> real)
    requires SortedBy(xs, key)
    requires |xs| > 0 ==> key(y) <= key(xs[0])
    ensures SortedBy([y] + xs, key)
  {
    var r := [y] + xs;
    forall i, j | 0 <= i < j < |r| ensures key(r[i]) <= key(r[j]) {
      assert r[j] == xs[j - 1];
      if i == 0 {
        assert key(xs[0]) <= key(xs[j - 1]);
      } else {
        assert r[i] == xs[i - 1];
      }
    }
  }

  /** What is inserted after the head of a sorted `xs` has keys at least the head's. */
  lemma InsertedAbove<T>(xs: seq<T>, x: T, rest: seq<T>, key: T -> real)
    requires |xs| > 0 && SortedBy(xs, key) && key(xs[0]) <= key(x)
    requires multiset(rest) == multiset(xs[1..]) + multiset{x}
    ensures |rest| > 0 && key(xs[0]) <= key(rest[0])
  {
    assert rest[0] in multiset(rest) by {
      assert x in multiset(rest);
    }
    if rest[0] != x {
      assert rest[0] in multiset(xs[1..]);
      var k :| 0 <= k < |xs[1..]| && xs[1..][k] == rest[0];
      assert xs[k + 1] == rest[0];
    }
  }

  /** The stable insertion sort by `key`. */
  function SortBy<T>(xs: seq<T>, key: T -> real): (r: seq<T>)
    ensures SortedBy(r, key)
    ensures multiset(r) == multiset(xs)
    ensures |r| == |xs|
  {
    if xs == [] then []
    else
      assert xs == xs[..|xs| - 1] + [xs[|xs| - 1]];
      Insert(xs[|xs| - 1], SortBy(xs[..|xs| - 1], key), key)
  }

  /** The sorted elements are exactly the input's: each sorted element is an input element and back. */
  lemma SortBySameElements<T>(xs: seq<T>, key: T -> real)
    ensures forall y :: y in SortBy(xs, key) <==> y in xs
  {
    var r := SortBy(xs, key);
    forall y ensures y in r <==> y in xs {
      assert y in r <==> y in multiset(r);
      assert y in xs <==> y in multiset(xs);
    }
  }

  /** The first sorted element has the least key and the last the greatest. */
  lemma SortByExtremes<T>(xs: seq<T>, key: T -> real)
    requires |xs| > 0
    ensures var r := SortBy(xs, key);
            forall i :: 0 <= i < |xs| ==> key(r[0]) <= key(xs[i]) <= key(r[|r| - 1])
  {
    var r := SortBy(xs, key);
    forall i | 0 <= i < |xs| ensures key(r[0]) <= key(xs[i]) <= key(r[|r| - 1]) {
      SortBySameElements(xs, key);
      assert xs[i] in r;
      var j :| 0 <= j < |r| && r[j] == xs[i];
    }
  }
}
