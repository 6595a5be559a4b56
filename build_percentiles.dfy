/**
  `build_percentiles` (build_percentiles.py): the concatenated raw delay
  rows are filtered, grouped by route, planned hour and weekday, and each
  group gets its 80th, 90th and 95th percentile delay and its size, one row
  per group in key order.

  The input is the parsed file, `None` when it is missing or cannot be
  read. A row's `dow` is the weekday of its date, `None` for a missing
  date. Percentiles are exact reals; the rounding to two decimals is not
  part of this model.
*/
module BuildPercentiles {
  import opened Common
  import opened DelaySummary
  import opened QaReport

  /** A raw row: the fields the build reads, each `None` where pandas holds NaN. */
  datatype RawRow = RawRow(
    origin: Option<string>, dest: Option<string>, gbttPta: string,
    storedHour: Option<int>, dow: Option<int>, delayMin: Option<real>)

  /** The file's column names and rows. */
  datatype Table = Table(columns: set<string>, rows: seq<RawRow>)

  /** A group key: route, planned hour and weekday. */
  datatype Key = Key(origin: string, dest: string, hour: int, dow: int)

  /** A row that survives the filter: its key and its delay. */
  datatype Obs = Obs(key: Key, delay: real)

  /** An output row. */
  datatype GroupRow = GroupRow(key: Key, p80: real, p90: real, p95: real, obsCount: nat)

  const REQUIRED: seq<string> := ["origin", "dest", "date", "gbtt_pta", "delay_min"]

  /** The required columns the table lacks, in the order they are listed. */
  function MissingColumns(columns: set<string>, required: seq<string>): (missing: seq<string>)
    ensures forall c :: c in missing <==> c in required && c !in columns
  {
    if required == [] then []
    else
      var front := MissingColumns(columns, required[..|required| - 1]);
      var c := required[|required| - 1];
      assert required == required[..|required| - 1] + [c];
      front + (if c !in columns then [c] else [])
  }

  /** Python's `repr` of a list of column names, `['a', 'b']`; the required names hold no quote. */
  function ListRepr(names: seq<string>): string {
    "[" + QuotedNames(names) + "]"
  }

  /** The names, each in single quotes, separated by `, `. */
  function QuotedNames(names: seq<string>): string {
    if names == [] then ""
    else if |names| == 1 then "'" + names[0] + "'"
    else "'" + names[0] + "', " + QuotedNames(names[1..])
  }

  /**
    The `hour` of each row: the stored column when the table has one,
    otherwise `int()` of the first two characters of `gbtt_pta`, which
    raises (`None`) if any row's does not parse.
  */
  function Hours(table: Table): (hours: Option<seq<Option<int>>>)
    ensures "hour" in table.columns ==>
              hours.Some? && |hours.value| == |table.rows| &&
              forall i :: 0 <= i < |table.rows| ==> hours.value[i] == table.rows[i].storedHour
    ensures "hour" !in table.columns ==>
              (hours.Some? <==> forall i :: 0 <= i < |table.rows| ==> PyInt(Prefix(table.rows[i].gbttPta, 2)).Some?) &&
              (hours.Some? ==> |hours.value| == |table.rows| &&
                               forall i :: 0 <= i < |table.rows| ==> hours.value[i] == PyInt(Prefix(table.rows[i].gbttPta, 2)))
  {
    if "hour" in table.columns then Some(seq(|table.rows|, i requires 0 <= i < |table.rows| => table.rows[i].storedHour))
    else DerivedHours(table.rows)
  }

  function DerivedHours(rows: seq<RawRow>): (hours: Option<seq<Option<int>>>)
    ensures hours.Some? <==> forall i :: 0 <= i < |rows| ==> PyInt(Prefix(rows[i].gbttPta, 2)).Some?
    ensures hours.Some? ==> |hours.value| == |rows| &&
                            forall i :: 0 <= i < |rows| ==> hours.value[i] == PyInt(Prefix(rows[i].gbttPta, 2))
  {
    if rows == [] then Some([])
    else
      var front := DerivedHours(rows[..|rows| - 1]);
      var hour := PyInt(Prefix(rows[|rows| - 1].gbttPta, 2));
      if front.Some? && hour.Some? then Some(front.value + [hour]) else None
  }

  /** The filter: a row is kept when none of its key fields nor its delay is NaN and its delay is not negative. */
  predicate Valid(row: RawRow, hour: Option<int>) {
    row.origin.Some? && row.dest.Some? && hour.Some? && row.dow.Some? && row.delayMin.Some? && row.delayMin.value >= 0.0
  }

  function ObsOf(row: RawRow, hour: Option<int>): Obs
    requires Valid(row, hour)
  {
    Obs(Key(row.origin.value, row.dest.value, hour.value, row.dow.value), row.delayMin.value)
  }

  /** `dropna(...)` followed by `delay_min >= 0`, in row order. */
  function Filtered(rows: seq<RawRow>, hours: seq<Option<int>>): (obs: seq<Obs>)
    requires |hours| == |rows|
    ensures forall o :: o in obs <==> exists i :: 0 <= i < |rows| && Valid(rows[i], hours[i]) && o == ObsOf(rows[i], hours[i])
    ensures forall o :: o in obs ==> o.delay >= 0.0
  {
    if rows == [] then []
    else
      var n := |rows| - 1;
      var front := Filtered(rows[..n], hours[..n]);
      assert forall i :: 0 <= i < n ==> rows[..n][i] == rows[i] && hours[..n][i] == hours[i];
      front + (if Valid(rows[n], hours[n]) then [ObsOf(rows[n], hours[n])] else [])
  }

  // ---------------------------------------------------------------------
  // Key order
  // ---------------------------------------------------------------------

  /** Python's string order: by code point, a proper prefix first. */
  predicate StrLess(a: string, b: string) {
    if a == [] then b != []
    else if b == [] then false
    else if a[0] != b[0] then a[0] < b[0]
    else StrLess(a[1..], b[1..])
  }

  lemma {:induction false} StrLessIrreflexive(a: string)
    ensures !StrLess(a, a)
  {
    if a != [] {
      StrLessIrreflexive(a[1..]);
    }
  }

  lemma {:induction false} StrLessTransitive(a: string, b: string, c: string)
    requires StrLess(a, b) && StrLess(b, c)
    ensures StrLess(a, c)
  {
    if a != [] && b != [] && c != [] && a[0] == b[0] && b[0] == c[0] {
      StrLessTransitive(a[1..], b[1..], c[1..]);
    }
  }

  lemma {:induction false} StrLessTotal(a: string, b: string)
    ensures a == b || StrLess(a, b) || StrLess(b, a)
  {
    if a != [] && b != [] && a[0] == b[0] {
      StrLessTotal(a[1..], b[1..]);
      if a[1..] == b[1..] {
        assert a == [a[0]] + a[1..] && b == [b[0]] + b[1..];
      }
    }
  }

  /** `sort_values(["origin", "dest", "hour", "dow"])`: lexicographic on the four fields. */
  predicate KeyLess(a: Key, b: Key) {
    StrLess(a.origin, b.origin) ||
    (a.origin == b.origin && (StrLess(a.dest, b.dest) ||
    (a.dest == b.dest && (a.hour < b.hour || (a.hour == b.hour && a.dow < b.dow)))))
  }

  /** The key order is a strict total order. */
  lemma KeyOrder(a: Key, b: Key, c: Key)
    ensures !KeyLess(a, a)
    ensures a == b || KeyLess(a, b) || KeyLess(b, a)
    ensures KeyLess(a, b) && KeyLess(b, c) ==> KeyLess(a, c)
  {
    StrLessIrreflexive(a.origin);
    StrLessIrreflexive(a.dest);
    StrLessTotal(a.origin, b.origin);
    StrLessTotal(a.dest, b.dest);
    if StrLess(a.origin, b.origin) && StrLess(b.origin, c.origin) {
      StrLessTransitive(a.origin, b.origin, c.origin);
    }
    if StrLess(a.dest, b.dest) && StrLess(b.dest, c.dest) {
      StrLessTransitive(a.dest, b.dest, c.dest);
    }
  }

  predicate StrictlySorted(keys: seq<Key>) {
    forall i, j :: 0 <= i < j < |keys| ==> KeyLess(keys[i], keys[j])
  }

  /** `k` added to a strictly sorted list of keys, unless it is there already. */
  function InsertKey(k: Key, keys: seq<Key>): (r: seq<Key>)
    requires StrictlySorted(keys)
    ensures StrictlySorted(r)
    ensures forall x :: x in r <==> x in keys || x == k
  {
    if keys == [] then [k]
    else if k == keys[0] then keys
    else if KeyLess(k, keys[0]) then
      forall j | 0 <= j < |keys| ensures KeyLess(k, keys[j]) {
        KeyOrder(k, keys[0], keys[j]);
      }
      [k] + keys
    else
      var rest := InsertKey(k, keys[1..]);
      KeyOrder(k, keys[0], k);
      assert forall x :: x in keys[1..] ==> KeyLess(keys[0], x);
      assert keys == [keys[0]] + keys[1..];
      [keys[0]] + rest
  }

  /** The distinct keys of the observations in key order: the groups of `groupby` after `sort_values`. */
  function GroupKeys(obs: seq<Obs>): (keys: seq<Key>)
    ensures StrictlySorted(keys)
    ensures forall k :: k in keys <==> exists i :: 0 <= i < |obs| && obs[i].key == k
  {
    if obs == [] then []
    else
      var front := obs[..|obs| - 1];
      assert forall i :: 0 <= i < |front| ==> front[i] == obs[i];
      InsertKey(obs[|obs| - 1].key, GroupKeys(front))
  }

  /** The delays of one group, in row order. */
  function GroupDelays(obs: seq<Obs>, k: Key): (delays: seq<real>)
    ensures |delays| == multiset(Keys(obs))[k]
    ensures forall d :: d in delays <==> exists i :: 0 <= i < |obs| && obs[i].key == k && obs[i].delay == d
  {
    if obs == [] then []
    else
      var front := obs[..|obs| - 1];
      var last := obs[|obs| - 1];
      var prev := GroupDelays(front, k);
      DelaysCountSnoc(obs, k, prev);
      var delays := prev + (if last.key == k then [last.delay] else []);
      DelaysMembersSnoc(obs, k, prev, delays);
      delays
  }

  /** One more row adds one to its own group's count. */
  lemma DelaysCountSnoc(obs: seq<Obs>, k: Key, prev: seq<real>)
    requires obs != [] && |prev| == multiset(Keys(obs[..|obs| - 1]))[k]
    ensures var last := obs[|obs| - 1];
            |prev + (if last.key == k then [last.delay] else [])| == multiset(Keys(obs))[k]
  {
    assert Keys(obs) == Keys(obs[..|obs| - 1]) + [obs[|obs| - 1].key];
  }

  /** One more row adds its delay to its own group's delays. */
  lemma DelaysMembersSnoc(obs: seq<Obs>, k: Key, prev: seq<real>, delays: seq<real>)
    requires obs != []
    requires var front := obs[..|obs| - 1];
             forall d :: d in prev <==> exists i :: 0 <= i < |front| && front[i].key == k && front[i].delay == d
    requires var last := obs[|obs| - 1];
             delays == prev + (if last.key == k then [last.delay] else [])
    ensures forall d :: d in delays <==> exists i :: 0 <= i < |obs| && obs[i].key == k && obs[i].delay == d
  {
    var front, last := obs[..|obs| - 1], obs[|obs| - 1];
    forall d ensures d in delays <==> exists i :: 0 <= i < |obs| && obs[i].key == k && obs[i].delay == d {
      if d in prev {
        var i :| 0 <= i < |front| && front[i].key == k && front[i].delay == d;
        assert obs[i] == front[i];
      }
      if exists i :: 0 <= i < |obs| && obs[i].key == k && obs[i].delay == d {
        var i :| 0 <= i < |obs| && obs[i].key == k && obs[i].delay == d;
        if i < |front| {
          assert front[i] == obs[i];
        }
      }
    }
  }

  function Keys(obs: seq<Obs>): (keys: seq<Key>)
    ensures |keys| == |obs| && forall i :: 0 <= i < |obs| ==> keys[i] == obs[i].key
  {
    seq(|obs|, i requires 0 <= i < |obs| => obs[i].key)
  }

  /** The output row of a group with at least one observation. */
  function GroupRowOf(obs: seq<Obs>, k: Key): GroupRow
    requires GroupDelays(obs, k) != []
  {
    var delays := GroupDelays(obs, k);
    GroupRow(k, Percentile(delays, 80.0).value, Percentile(delays, 90.0).value, Percentile(delays, 95.0).value, |delays|)
  }

  /** One output row per key of `keys`, each of which has a group. */
  function GroupRows(obs: seq<Obs>, keys: seq<Key>): (rows: seq<GroupRow>)
    requires forall j :: 0 <= j < |keys| ==> GroupDelays(obs, keys[j]) != []
    ensures |rows| == |keys|
    ensures forall j :: 0 <= j < |keys| ==> rows[j].key == keys[j] && rows[j] == GroupRowOf(obs, keys[j])
  {
    seq(|keys|, j requires 0 <= j < |keys| => GroupRowOf(obs, keys[j]))
  }

  /** Every key of the observations has a non-empty group. */
  lemma GroupsNonEmpty(obs: seq<Obs>)
    ensures forall j :: 0 <= j < |GroupKeys(obs)| ==> GroupDelays(obs, GroupKeys(obs)[j]) != []
  {
    var keys := GroupKeys(obs);
    forall j | 0 <= j < |keys| ensures GroupDelays(obs, keys[j]) != [] {
      assert keys[j] in keys;
      var i :| 0 <= i < |obs| && obs[i].key == keys[j];
      assert obs[i].delay in GroupDelays(obs, keys[j]);
    }
  }

  /**
    `groupby(...).agg(...)` then `sort_values(...)`: one row per distinct
    key of the observations, in strictly increasing key order, each the
    row of its non-empty group; no observations give no rows.
  */
  function Grouped(obs: seq<Obs>): (out: seq<GroupRow>)
    ensures out == [] <==> obs == []
    ensures forall i, j :: 0 <= i < j < |out| ==> KeyLess(out[i].key, out[j].key)
    ensures forall k :: (exists j :: 0 <= j < |out| && out[j].key == k) <==> HasKey(obs, k)
    ensures forall j :: 0 <= j < |out| ==> GroupDelays(obs, out[j].key) != [] && out[j] == GroupRowOf(obs, out[j].key)
  {
    if obs == [] then []
    else
      GroupsNonEmpty(obs);
      var keys := GroupKeys(obs);
      var out := GroupRows(obs, keys);
      RowsCoverKeys(obs, keys, out);
      out
  }

  /** Rows that carry the distinct keys one for one have exactly the keys of the observations. */
  lemma RowsCoverKeys(obs: seq<Obs>, keys: seq<Key>, out: seq<GroupRow>)
    requires keys == GroupKeys(obs)
    requires |out| == |keys| && forall j :: 0 <= j < |keys| ==> out[j].key == keys[j]
    ensures obs != [] ==> out != []
    ensures forall k :: (exists j :: 0 <= j < |out| && out[j].key == k) <==> HasKey(obs, k)
  {
    if obs != [] {
      assert obs[0].key in keys;
    }
    forall k ensures (exists j :: 0 <= j < |out| && out[j].key == k) <==> HasKey(obs, k) {
      if HasKey(obs, k) {
        assert k in keys;
        var j :| 0 <= j < |keys| && keys[j] == k;
        assert out[j].key == k;
      }
      if exists j :: 0 <= j < |out| && out[j].key == k {
        var j :| 0 <= j < |out| && out[j].key == k;
        assert keys[j] in keys;
      }
    }
  }

  /**
    `build_percentiles`: no file, an unreadable file, an empty file or no
    row left after filtering all give an empty table; a missing required
    column or an hour that does not parse raises.
  */
  function Build(input: Option<Table>): Result<seq<GroupRow>> {
    if input.None? || input.value.rows == [] then Ok([])
    else
      var table := input.value;
      var missing := MissingColumns(table.columns, REQUIRED);
      if missing != [] then Err("ValueError: Missing required columns: " + ListRepr(missing))
      else
        match Hours(table)
        case None => Err("ValueError: invalid literal for int()")
        case Some(hours) =>
          var obs := Filtered(table.rows, hours);
          Ok(Grouped(obs))
  }

  /** The observations that survive the filter, for a table whose hours parse. */
  function Observations(table: Table): seq<Obs>
    requires Hours(table).Some?
  {
    Filtered(table.rows, Hours(table).value)
  }

  /** The build raises exactly when a required column is missing or a derived hour does not parse. */
  lemma BuildErrors(table: Table)
    requires table.rows != []
    ensures Build(Some(table)).Err? <==>
              (exists c :: c in REQUIRED && c !in table.columns) ||
              ("hour" !in table.columns && exists i :: 0 <= i < |table.rows| && PyInt(Prefix(table.rows[i].gbttPta, 2)).None?)
  {
    var missing := MissingColumns(table.columns, REQUIRED);
    if missing != [] {
      assert missing[0] in missing;
    }
  }

  /** A missing or unreadable file, or one without rows, gives the empty table. */
  lemma BuildEmpty(input: Option<Table>)
    requires input.None? || input.value.rows == []
    ensures Build(input) == Ok([])
  {
  }

  /**
    Each output row counts the surviving observations of its key, at least
    one, and carries the 80th, 90th and 95th percentiles of their delays.
  */
  lemma GroupedCounts(obs: seq<Obs>)
    ensures forall row :: row in Grouped(obs) ==>
              var delays := GroupDelays(obs, row.key);
              row.obsCount == multiset(Keys(obs))[row.key] && row.obsCount > 0 &&
              row.p80 == Percentile(delays, 80.0).value &&
              row.p90 == Percentile(delays, 90.0).value &&
              row.p95 == Percentile(delays, 95.0).value
  {
    var out := Grouped(obs);
    forall row | row in out
      ensures row.obsCount == multiset(Keys(obs))[row.key] && row.obsCount > 0
    {
      var j :| 0 <= j < |out| && out[j] == row;
    }
  }

  /** A successful build of a non-empty table is the grouping of the rows that survive the filter. */
  lemma BuildGroups(table: Table)
    requires table.rows != [] && Build(Some(table)).Ok?
    ensures Hours(table).Some? && Build(Some(table)) == Ok(Grouped(Observations(table)))
  {
  }

  /** Some observation has key `k`. */
  predicate HasKey(obs: seq<Obs>, k: Key) {
    exists i :: 0 <= i < |obs| && obs[i].key == k
  }

  /** Every row of a successful build has `0 <= p80 <= p90 <= p95`. */
  lemma BuildMonotone(input: Option<Table>)
    requires Build(input).Ok?
    ensures forall row :: row in Build(input).value ==> 0.0 <= row.p80 <= row.p90 <= row.p95
  {
    if input.Some? && input.value.rows != [] {
      BuildGroups(input.value);
      GroupedMonotone(Observations(input.value));
    }
  }

  lemma GroupedMonotone(obs: seq<Obs>)
    requires forall o :: o in obs ==> o.delay >= 0.0
    ensures forall row :: row in Grouped(obs) ==> 0.0 <= row.p80 <= row.p90 <= row.p95
  {
    var out := Grouped(obs);
    forall row | row in out ensures 0.0 <= row.p80 <= row.p90 <= row.p95 {
      var j :| 0 <= j < |out| && out[j] == row;
      GroupMonotone(obs, row.key);
    }
  }

  lemma GroupMonotone(obs: seq<Obs>, k: Key)
    requires GroupDelays(obs, k) != [] && forall o :: o in obs ==> o.delay >= 0.0
    ensures var row := GroupRowOf(obs, k); 0.0 <= row.p80 <= row.p90 <= row.p95
  {
    var delays := GroupDelays(obs, k);
    PercentileMonotone(delays, 80.0, 90.0);
    PercentileMonotone(delays, 90.0, 95.0);
    PercentileBounds(delays, 80.0);
    var i :| 0 <= i < |delays| && delays[i] <= Percentile(delays, 80.0).value;
    assert delays[i] in delays;
  }

  /** The output as the rows the QA report reads. */
  function AsPercentileRows(out: seq<GroupRow>): (rows: seq<PercentileRow>)
    ensures |rows| == |out|
  {
    seq(|out|, j requires 0 <= j < |out| =>
      var g := out[j];
      PercentileRow(g.key.origin, g.key.dest, g.key.hour, g.key.dow, g.p80, g.p90, g.p95))
  }

  /** The QA report's monotonicity check finds nothing in a table this build produced. */
  lemma BuildPassesMonotonicity(input: Option<Table>)
    requires Build(input).Ok?
    ensures Violations(AsPercentileRows(Build(input).value)) == []
  {
    var out := Build(input).value;
    var rows := AsPercentileRows(out);
    BuildMonotone(input);
    ViolationsExact(rows);
    forall j | 0 <= j < |rows| ensures !NonMonotone(rows[j]) {
      assert out[j] in out;
    }
  }
}
