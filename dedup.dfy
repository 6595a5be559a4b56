/**
  Keep-the-first deduplication on a key: pandas `drop_duplicates(subset=...)`
  with its default `keep='first'`, used on `(rid, dest)` when the month's raw
  files are merged and on `rid` by both day ingesters.
*/
module Dedup {

  /** Some element of `xs` has key `k`. */
  predicate HasKey<T, K(==,!new)>(xs: seq<T>, key: T -> K, k: K) {
    exists i :: 0 <= i < |xs| && key(xs[i]) == k
  }

  /** No two elements of `xs` share a key. */
  predicate UniqueKeys<T, K(==,!new)>(xs: seq<T>, key: T -> K) {
    forall i, j :: 0 <= i < j < |xs| ==> key(xs[i]) != key(xs[j])
  }

  /** `xs[i]` is the first element of `xs` with its key. */
  predicate FirstOfKey<T, K(==,!new)>(xs: seq<T>, key: T -> K, i: int)
    requires 0 <= i < |xs|
  {
    forall j :: 0 <= j < i ==> key(xs[j]) != key(xs[i])
  }

  /** The elements of `xs` that are the first of their key, in order. */
  function DropDuplicates<T, K(==,!new)>(xs: seq<T>, key: T -> K): (r: seq<T>)
    ensures |r| <= |xs|
    ensures UniqueKeys(r, key)
    ensures forall k :: HasKey(r, key, k) <==> HasKey(xs, key, k)
    decreases |xs|
  {
    if xs == [] then []
    else
      var front := xs[..|xs| - 1];
      var x := xs[|xs| - 1];
      var prev := DropDuplicates(front, key);
      assert forall k :: HasKey(xs, key, k) <==> HasKey(front, key, k) || key(x) == k by {
        forall k | HasKey(xs, key, k) ensures HasKey(front, key, k) || key(x) == k {
          var i :| 0 <= i < |xs| && key(xs[i]) == k;
          if i < |xs| - 1 { assert front[i] == xs[i]; }
        }
        forall k | HasKey(front, key, k) ensures HasKey(xs, key, k) {
          var i :| 0 <= i < |front| && key(front[i]) == k;
          assert xs[i] == front[i];
        }
        assert xs[|xs| - 1] == x;
      }
      if HasKey(prev, key, key(x)) then prev
      else
        var r := prev + [x];
        assert forall k :: HasKey(r, key, k) <==> HasKey(prev, key, k) || key(x) == k by {
          forall k | HasKey(r, key, k) ensures HasKey(prev, key, k) || key(x) == k {
            var i :| 0 <= i < |r| && key(r[i]) == k;
            if i < |prev| { assert r[i] == prev[i]; }
          }
          forall k | HasKey(prev, key, k) ensures HasKey(r, key, k) {
            var i :| 0 <= i < |prev| && key(prev[i]) == k;
            assert r[i] == prev[i];
          }
          assert r[|prev|] == x;
        }
        r
  }

  /**
    `r` lists elements of `xs` at the strictly increasing positions `pos`,
    each the first element of `xs` with its key.
  */
  ghost predicate KeptAt<T, K(!new)>(xs: seq<T>, key: T -> K, r: seq<T>, pos: seq<nat>) {
    |pos| == |r| &&
    (forall i :: 0 <= i < |r| ==> pos[i] < |xs| && r[i] == xs[pos[i]] && FirstOfKey(xs, key, pos[i])) &&
    (forall i, j :: 0 <= i < j < |r| ==> pos[i] < pos[j])
  }

  /** Each kept element is the first element of the input with its key, and the kept elements keep input order. */
  lemma {:induction false} KeepsFirst<T, K(!new)>(xs: seq<T>, key: T -> K)
    ensures exists pos: seq<nat> :: KeptAt(xs, key, DropDuplicates(xs, key), pos)
    decreases |xs|
  {
    if xs == [] {
      var none: seq<nat> := [];
      assert DropDuplicates(xs, key) == [];
      assert KeptAt(xs, key, [], none);
    } else {
      var front := xs[..|xs| - 1];
      var x := xs[|xs| - 1];
      var prev := DropDuplicates(front, key);
      KeepsFirst(front, key);
      var pos: seq<nat> :| KeptAt(front, key, prev, pos);
      KeptAtExtend(front, x, key, prev, pos);
      assert xs == front + [x];
      if HasKey(prev, key, key(x)) {
        assert DropDuplicates(xs, key) == prev;
        assert KeptAt(xs, key, prev, pos);
      } else {
        assert !HasKey(front, key, key(x));
        KeptAtAppend(front, x, key, prev, pos);
        assert DropDuplicates(xs, key) == prev + [x];
        assert KeptAt(xs, key, prev + [x], pos + [|front|]);
      }
    }
  }

  /** Appending to the input keeps the positions valid. */
  lemma KeptAtExtend<T, K(!new)>(front: seq<T>, x: T, key: T -> K, r: seq<T>, pos: seq<nat>)
    requires KeptAt(front, key, r, pos)
    ensures KeptAt(front + [x], key, r, pos)
  {
    var xs := front + [x];
    forall i | 0 <= i < |r| ensures r[i] == xs[pos[i]] && FirstOfKey(xs, key, pos[i]) {
      assert FirstOfKey(front, key, pos[i]);
      forall j | 0 <= j < pos[i] ensures key(xs[j]) != key(xs[pos[i]]) {
        assert xs[j] == front[j];
      }
    }
  }

  /** An element whose key is new is the first of its key, at a position after all others. */
  lemma KeptAtAppend<T, K(!new)>(front: seq<T>, x: T, key: T -> K, r: seq<T>, pos: seq<nat>)
    requires KeptAt(front, key, r, pos) && !HasKey(front, key, key(x))
    ensures KeptAt(front + [x], key, r + [x], pos + [|front|])
  {
    var xs := front + [x];
    KeptAtExtend(front, x, key, r, pos);
    forall j | 0 <= j < |front| ensures key(xs[j]) != key(x) {
      assert xs[j] == front[j];
    }
    assert FirstOfKey(xs, key, |front|);
  }

  /** Input already free of duplicate keys is returned unchanged. */
  lemma {:induction false} UniqueUnchanged<T, K(!new)>(xs: seq<T>, key: T -> K)
    requires UniqueKeys(xs, key)
    ensures DropDuplicates(xs, key) == xs
    decreases |xs|
  {
    if xs != [] {
      var front := xs[..|xs| - 1];
      var x := xs[|xs| - 1];
      assert UniqueKeys(front, key) by {
        forall i, j | 0 <= i < j < |front| ensures key(front[i]) != key(front[j]) {
          assert front[i] == xs[i] && front[j] == xs[j];
        }
      }
      UniqueUnchanged(front, key);
      assert !HasKey(front, key, key(x)) by {
        forall i | 0 <= i < |front| ensures key(front[i]) != key(x) {
          assert front[i] == xs[i];
        }
      }
      assert xs == front + [x];
    }
  }

  /** Deduplicating twice is deduplicating once. */
  lemma Idempotent<T, K(!new)>(xs: seq<T>, key: T -> K)
    ensures DropDuplicates(DropDuplicates(xs, key), key) == DropDuplicates(xs, key)
  {
    UniqueUnchanged(DropDuplicates(xs, key), key);
  }
}
