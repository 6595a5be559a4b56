/**
  `percentile` (check_delay_summary.py): the `p`-th percentile of a list by
  linear interpolation between the two sorted values around the rank
  `k = p / 100 * (n - 1)`, the same rule as pandas' default `quantile`.
  Arithmetic is on exact reals; Python's float rounding is not modelled.
*/
module DelaySummary {
  import opened Common
  import opened Sorting

  function Id(x: real): real { x }

  /** `sorted(values)`. */
  function Sorted(values: seq<real>): (s: seq<real>)
    ensures |s| == |values| && multiset(s) == multiset(values)
    ensures forall i, j :: 0 <= i < j < |s| ==> s[i] <= s[j]
  {
    var s := SortBy(values, Id);
    assert SortedBy(s, Id);
    s
  }

  /** `math.ceil(k)`. */
  function Ceil(k: real): (c: int)
    ensures k <= c as real < k + 1.0
    ensures c == k.Floor <==> k.Floor as real == k
  {
    if k.Floor as real == k then k.Floor else k.Floor + 1
  }

  /** The rank `k` of the `p`-th percentile among `n` values. */
  function Rank(n: nat, p: real): real {
    p / 100.0 * (n as real - 1.0)
  }

  /** A rank for `0 <= p <= 100` lies between the first and the last index. */
  lemma RankBounds(n: nat, p: real)
    requires n > 0 && 0.0 <= p <= 100.0
    ensures 0.0 <= Rank(n, p) <= n as real - 1.0
  {
    var q := p / 100.0;
    var m := n as real - 1.0;
    MulNonneg(q, m);
    MulNonneg(1.0 - q, m);
    assert q * m == m - (1.0 - q) * m;
  }

  /** Interpolation at rank `k` in a sorted list: the value at `k` when integral, else the weighted pair around it. */
  function Interpolate(s: seq<real>, k: real): real
    requires 0.0 <= k <= |s| as real - 1.0
  {
    var f := k.Floor;
    var c := Ceil(k);
    if f == c then s[f]
    else s[f] * (c as real - k) + s[c] * (k - f as real)
  }

  /** `percentile(values, p)` for `p` in `[0, 100]`, as its docstring requires; `None` for an empty list. */
  function Percentile(values: seq<real>, p: real): (r: Option<real>)
    requires 0.0 <= p <= 100.0
    ensures r.None? <==> values == []
    ensures r.Some? ==> 0.0 <= Rank(|values|, p) <= |values| as real - 1.0 &&
                        r.value == Interpolate(Sorted(values), Rank(|values|, p))
  {
    if values == [] then None
    else
      var s := Sorted(values);
      RankBounds(|values|, p);
      Some(Interpolate(s, Rank(|values|, p)))
  }

  /** A product of two non-negative reals is non-negative. */
  lemma MulNonneg(u: real, v: real)
    requires 0.0 <= u && 0.0 <= v
    ensures 0.0 <= u * v
  {
  }

  /** A convex combination of `x <= y` lies between them. */
  lemma Convex(x: real, y: real, a: real, b: real)
    requires x <= y && 0.0 <= a && 0.0 <= b && a + b == 1.0
    ensures x <= x * a + y * b <= y
  {
    assert x * a + y * b == x + (y - x) * b;
    assert x * a + y * b == y - (y - x) * a;
    MulNonneg(y - x, b);
    MulNonneg(y - x, a);
  }

  /**
    An integral rank reads the sorted value at that index; any other rank
    gives a value between the two sorted values around it.
  */
  lemma InterpolateBetween(s: seq<real>, k: real)
    requires forall i, j :: 0 <= i < j < |s| ==> s[i] <= s[j]
    requires 0.0 <= k <= |s| as real - 1.0
    ensures k.Floor as real == k ==> Interpolate(s, k) == s[k.Floor]
    ensures k.Floor as real != k ==>
              k.Floor + 1 < |s| && s[k.Floor] <= Interpolate(s, k) <= s[k.Floor + 1]
  {
    var f := k.Floor;
    if f as real != k {
      var c := f + 1;
      var a, b := c as real - k, k - f as real;
      assert Interpolate(s, k) == s[f] * a + s[c] * b;
      Convex(s[f], s[c], a, b);
    }
  }

  /** The interpolation is linear on each unit interval: `s[f] + (k - f) * (s[f + 1] - s[f])`. */
  lemma InterpolateLinear(s: seq<real>, k: real)
    requires 0.0 <= k <= |s| as real - 1.0 && k.Floor as real != k
    ensures k.Floor + 1 < |s| &&
            Interpolate(s, k) == s[k.Floor] + (k - k.Floor as real) * (s[k.Floor + 1] - s[k.Floor])
  {
    var f := k.Floor;
    var a, b := (f + 1) as real - k, k - f as real;
    assert Interpolate(s, k) == s[f] * a + s[f + 1] * b;
    assert s[f] * a + s[f + 1] * b == s[f] + b * (s[f + 1] - s[f]);
  }

  /** In a sorted list the interpolation never decreases with the rank. */
  lemma InterpolateMonotone(s: seq<real>, k1: real, k2: real)
    requires forall i, j :: 0 <= i < j < |s| ==> s[i] <= s[j]
    requires 0.0 <= k1 <= k2 <= |s| as real - 1.0
    ensures Interpolate(s, k1) <= Interpolate(s, k2)
  {
    var f1, f2 := k1.Floor, k2.Floor;
    // The value at k1 is at most the sorted value at its ceiling, and that at k2 at least the one at its floor.
    var c1 := if f1 as real == k1 then f1 else f1 + 1;
    InterpolateBetween(s, k1);
    InterpolateBetween(s, k2);
    assert Interpolate(s, k1) <= s[c1];
    assert s[f2] <= Interpolate(s, k2);
    if c1 <= f2 {
      assert s[c1] <= s[f2];
    } else {
      // Same unit interval: both are on one line of non-negative slope.
      InterpolateLinear(s, k1);
      InterpolateLinear(s, k2);
      var d := s[f1 + 1] - s[f1];
      MulNonneg(k2 - k1, d);
      assert (k2 - f1 as real) * d == (k1 - f1 as real) * d + (k2 - k1) * d;
    }
  }

  /** The first sorted value is the least of the list and the last the greatest. */
  lemma SortedEnds(values: seq<real>)
    requires values != []
    ensures var s := Sorted(values);
            s[0] in values && s[|s| - 1] in values &&
            forall i :: 0 <= i < |values| ==> s[0] <= values[i] <= s[|s| - 1]
  {
    var s := Sorted(values);
    assert s[0] in multiset(values) && s[|s| - 1] in multiset(values);
    forall i | 0 <= i < |values| ensures s[0] <= values[i] <= s[|s| - 1] {
      assert values[i] in multiset(s);
      BetweenEnds(s, values[i]);
    }
  }

  /** A value of an ascending list lies between its first and its last. */
  lemma BetweenEnds(s: seq<real>, x: real)
    requires forall i, j :: 0 <= i < j < |s| ==> s[i] <= s[j]
    requires x in s
    ensures s[0] <= x <= s[|s| - 1]
  {
    var k :| 0 <= k < |s| && s[k] == x;
    if 0 < k {
      assert s[0] <= s[k];
    }
    if k < |s| - 1 {
      assert s[k] <= s[|s| - 1];
    }
  }

  /** The percentile is a value between the list's minimum and its maximum. */
  lemma PercentileBounds(values: seq<real>, p: real)
    requires values != [] && 0.0 <= p <= 100.0
    ensures exists i :: 0 <= i < |values| && values[i] <= Percentile(values, p).value
    ensures exists j :: 0 <= j < |values| && Percentile(values, p).value <= values[j]
  {
    var s := Sorted(values);
    var n := |s| as real - 1.0;
    var k := Rank(|values|, p);
    var r := Percentile(values, p).value;
    assert r == Interpolate(s, k);
    InterpolateMonotone(s, 0.0, k);
    InterpolateMonotone(s, k, n);
    assert Interpolate(s, 0.0) == s[0];
    assert n.Floor == |s| - 1;
    assert Interpolate(s, n) == s[|s| - 1];
    SortedEnds(values);
    var i :| 0 <= i < |values| && values[i] == s[0];
    var j :| 0 <= j < |values| && values[j] == s[|s| - 1];
  }

  /** The 0th percentile is the minimum and the 100th the maximum. */
  lemma PercentileEnds(values: seq<real>)
    requires values != []
    ensures forall i :: 0 <= i < |values| ==> Percentile(values, 0.0).value <= values[i] <= Percentile(values, 100.0).value
  {
    var s := Sorted(values);
    var n := |s| as real - 1.0;
    assert Rank(|values|, 0.0) == 0.0;
    assert Rank(|values|, 100.0) == n;
    assert n.Floor == |s| - 1;
    assert Percentile(values, 0.0).value == s[0];
    assert Percentile(values, 100.0).value == s[|s| - 1];
    SortedEnds(values);
  }

  /** A higher percentile is never smaller. */
  lemma PercentileMonotone(values: seq<real>, p1: real, p2: real)
    requires values != [] && 0.0 <= p1 <= p2 <= 100.0
    ensures Percentile(values, p1).value <= Percentile(values, p2).value
  {
    var n := |values| as real - 1.0;
    RankBounds(|values|, p1);
    RankBounds(|values|, p2);
    MulNonneg(p2 / 100.0 - p1 / 100.0, n);
    assert p2 / 100.0 * n == p1 / 100.0 * n + (p2 / 100.0 - p1 / 100.0) * n;
    InterpolateMonotone(Sorted(values), Rank(|values|, p1), Rank(|values|, p2));
  }
}
