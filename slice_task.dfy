/**
  One slice task (`_execute_slice_task`, orchestrate_month.py): a metrics
  query for one route, date and window, the set of string RIDs it returns,
  the per-slice RID cap, one detail query per RID and the delay row each
  answer yields, and the status the task reports.

  The network is an oracle: the metrics answer is a parameter and
  `details(rid, n)` is the answer to the `n`-th detail query for `rid`
  (1 for the first, 2 for the one after a 403 pause). Thread completion
  order is a nondeterministic choice of the next RID.
*/
module SliceTask {
  import opened Common
  import opened Hhmm
  import opened Planner

  /** The `status` a slice result reports. */
  datatype Outcome = Succeeded | NoRids | TimedOut | Forbidden | OtherError

  /** `result['status']`. */
  function OutcomeText(o: Outcome): (t: string)
    ensures o == Succeeded <==> t == "ok"
    ensures o == NoRids <==> t == "skipped"
    ensures o == TimedOut <==> t == "timeout"
    ensures o == Forbidden <==> t == "circuit_breaker"
    ensures o == OtherError <==> t == "failed"
  {
    match o
    case Succeeded => "ok"
    case NoRids => "skipped"
    case TimedOut => "timeout"
    case Forbidden => "circuit_breaker"
    case OtherError => "failed"
  }

  /** The status of a slice whose work raised an exception with text `msg`. */
  function ClassifyError(msg: string): (o: Outcome)
    ensures o == Forbidden <==> Contains(msg, "403")
    ensures o == TimedOut <==> !Contains(msg, "403") && (Contains(Lower(msg), "timeout") || Contains(Lower(msg), "timed out"))
    ensures o != Succeeded && o != NoRids
  {
    if Contains(msg, "403") then Forbidden
    else if Contains(Lower(msg), "timeout") || Contains(Lower(msg), "timed out") then TimedOut
    else OtherError
  }

  // ---- The metrics answer and its RIDs ----

  /** An entry of a service's `rids` list: a JSON string, or any other JSON value. */
  datatype RidValue = RidText(text: string) | RidOther

  /** A service of the metrics answer: its `serviceAttributesMetrics.rids` list ([] when absent). */
  datatype Service = Service(rids: seq<RidValue>)

  /** The metrics call: the `Services` list ([] when absent), or the text of the exception raised. */
  datatype MetricsAnswer = MetricsOk(services: seq<Service>) | MetricsFailed(msg: string)

  /** The string entries of one `rids` list. */
  function TextRids(values: seq<RidValue>): set<string> {
    set i | 0 <= i < |values| && values[i].RidText? :: values[i].text
  }

  /** The string RIDs of all services. */
  function AllRids(services: seq<Service>): set<string> {
    if services == [] then {}
    else AllRids(services[..|services| - 1]) + TextRids(services[|services| - 1].rids)
  }

  /** A RID is collected exactly when some service lists it as a string. */
  lemma {:induction false} AllRidsMembers(services: seq<Service>, rid: string)
    ensures rid in AllRids(services) <==>
            exists i, j :: 0 <= i < |services| && 0 <= j < |services[i].rids| && services[i].rids[j] == RidText(rid)
  {
    if services != [] {
      var n := |services| - 1;
      AllRidsMembers(services[..n], rid);
      if rid in AllRids(services[..n]) {
        var i, j :| 0 <= i < n && 0 <= j < |services[..n][i].rids| && services[..n][i].rids[j] == RidText(rid);
        assert services[i].rids[j] == RidText(rid);
      } else if rid in TextRids(services[n].rids) {
        var j :| 0 <= j < |services[n].rids| && services[n].rids[j].RidText? && services[n].rids[j].text == rid;
        assert services[n].rids[j] == RidText(rid);
      }
      if exists i, j :: 0 <= i < |services| && 0 <= j < |services[i].rids| && services[i].rids[j] == RidText(rid) {
        var i, j :| 0 <= i < |services| && 0 <= j < |services[i].rids| && services[i].rids[j] == RidText(rid);
        if i < n {
          assert services[..n][i].rids[j] == RidText(rid);
        } else {
          assert rid in TextRids(services[n].rids);
        }
      }
    }
  }

  /** The loop over services and their `rids` that fills `all_rids`. */
  method CollectRids(services: seq<Service>) returns (rids: set<string>)
    ensures rids == AllRids(services)
  {
    rids := {};
    for i := 0 to |services|
      invariant rids == AllRids(services[..i])
    {
      var values := services[i].rids;
      var before := rids;
      for j := 0 to |values|
        invariant rids == before + TextRids(values[..j])
      {
        assert TextRids(values[..j + 1]) == TextRids(values[..j]) + (if values[j].RidText? then {values[j].text} else {}) by {
          assert forall m :: 0 <= m < j ==> values[..j + 1][m] == values[..j][m];
        }
        if values[j].RidText? {
          rids := rids + {values[j].text};
        }
      }
      assert values[..|values|] == values;
      assert services[..i + 1][..i] == services[..i];
    }
    assert services[..|services|] == services;
  }

  // ---- The RID cap ----

  /** The text of the ValueError `random.sample` raises for a negative sample size. */
  const SAMPLE_ERROR := "Sample larger than population or is negative"

  /** A set has subsets of every size up to its own. */
  lemma {:induction false} SubsetOfSize<T>(s: set<T>, n: nat)
    requires n <= |s|
    ensures exists sub :: sub <= s && |sub| == n
  {
    if n > 0 {
      var x :| x in s;
      SubsetOfSize(s - {x}, n - 1);
      var sub :| sub <= s - {x} && |sub| == n - 1;
      assert sub + {x} <= s && |sub + {x}| == n;
    } else {
      assert {} <= s;
    }
  }

  /**
    `rid_cap_per_slice`: at most `cap` RIDs are kept, an arbitrary subset of
    exactly `cap` when there are more; a negative cap makes `random.sample`
    raise.
  */
  method ApplyCap(rids: set<string>, cap: int) returns (r: Result<set<string>>)
    ensures r.Ok? <==> cap >= 0
    ensures r.Err? ==> r.msg == SAMPLE_ERROR
    ensures r.Ok? ==> r.value <= rids && |r.value| == if |rids| > cap then cap else |rids|
  {
    if |rids| > cap {
      if cap < 0 {
        return Err(SAMPLE_ERROR);
      }
      SubsetOfSize(rids, cap);
      var sample :| sample <= rids && |sample| == cap;
      return Ok(sample);
    }
    return Ok(rids);
  }

  // ---- Detail answers and delay rows ----

  /** A calling point of a detail answer; absent JSON keys are `None`. */
  datatype Location = Location(location: Option<string>, crs: Option<string>,
                               gbttPta: Option<string>, gbttPtd: Option<string>,
                               actualTa: Option<string>, actualTd: Option<string>)

  /** A detail call: the `locations` list ([] when absent), or the text of the exception raised. */
  datatype DetailsAnswer = DetailsOk(locations: seq<Location>) | DetailsFailed(msg: string)

  /** A row of the slice's delay file. */
  datatype DelayRow = DelayRow(origin: string, dest: string, rid: string, date: string,
                               gbttPta: string, actualTa: string, delayMin: int, hour: Option<int>)

  /** Python `a or b` for a string-or-None `a`: `a` unless it is None or empty. */
  function OrElse(a: Option<string>, b: string): (r: string)
    ensures a.Some? && a.value != "" ==> r == a.value
    ensures (a.None? || a.value == "") ==> r == b
  {
    if a.Some? && a.value != "" then a.value else b
  }

  /** `(location.get("location") or location.get("crs") or "").upper()`. */
  function LocationCode(l: Location): string {
    Upper(OrElse(l.location, OrElse(l.crs, "")))
  }

  /** The index of the first location from `start` on whose code is `code`. */
  function FindDest(locations: seq<Location>, code: string, start: nat): (r: Option<nat>)
    ensures r.Some? ==> start <= r.value < |locations| && LocationCode(locations[r.value]) == code &&
                        forall j :: start <= j < r.value ==> LocationCode(locations[j]) != code
    ensures r.None? <==> forall j :: start <= j < |locations| ==> LocationCode(locations[j]) != code
  {
    FirstFrom(Codes(locations), code, start)
  }

  /** The code of each location, in order. */
  function Codes(locations: seq<Location>): (codes: seq<string>)
    ensures |codes| == |locations| && forall i :: 0 <= i < |locations| ==> codes[i] == LocationCode(locations[i])
  {
    if locations == [] then [] else [LocationCode(locations[0])] + Codes(locations[1..])
  }

  /** The first index from `start` on holding `x`. */
  function FirstFrom(xs: seq<string>, x: string, start: nat): (r: Option<nat>)
    ensures r.Some? ==> start <= r.value < |xs| && xs[r.value] == x && forall j :: start <= j < r.value ==> xs[j] != x
    ensures r.None? <==> forall j :: start <= j < |xs| ==> xs[j] != x
    decreases |xs| - start
  {
    if start >= |xs| then None
    else if xs[start] == x then Some(start)
    else FirstFrom(xs, x, start + 1)
  }

  /** Python `max(0, d)`. */
  function ClampDelay(d: int): (r: int)
    ensures r >= 0 && r >= d && (r == d || r == 0)
  {
    if d > 0 then d else 0
  }

  /**
    The row `fetch_single_details` builds from a detail answer, or `None` for
    `(None, False)`: no destination stop, a missing planned or actual time, or
    a time `int()` cannot read (the ValueError is caught).
  */
  function RowFor(task: Task, rid: string, locations: seq<Location>): Option<DelayRow> {
    match FindDest(locations, Upper(task.dest), 0)
    case None => None
    case Some(i) =>
      var l := locations[i];
      var planned := OrElse(l.gbttPta, OrElse(l.gbttPtd, ""));
      var actual := OrElse(l.actualTa, OrElse(l.actualTd, ""));
      if actual == "" || planned == "" then None
      else
        var p, a := ParseHhmm(planned), ParseHhmm(actual);
        var hour := if |planned| >= 2 then PyInt(planned[..2]) else None;
        if p.None? || a.None? || (|planned| >= 2 && hour.None?) then None
        else Some(DelayRow(task.origin, task.dest, rid, task.date, planned, actual, ClampDelay(a.value - p.value), hour))
  }

  /** A produced row is for this RID and task, with a non-negative delay of actual minus planned when later. */
  lemma RowForFacts(task: Task, rid: string, locations: seq<Location>)
    ensures RowFor(task, rid, locations).Some? ==>
              var row := RowFor(task, rid, locations).value;
              row.rid == rid && row.origin == task.origin && row.dest == task.dest && row.date == task.date &&
              row.delayMin >= 0 && row.actualTa != "" && row.gbttPta != "" &&
              ParseHhmm(row.gbttPta).Some? && ParseHhmm(row.actualTa).Some? &&
              row.delayMin >= ParseHhmm(row.actualTa).value - ParseHhmm(row.gbttPta).value
    ensures FindDest(locations, Upper(task.dest), 0).None? ==> RowFor(task, rid, locations).None?
  {
  }

  /** What one RID's detail work contributes: a row, no row, or a 403 that aborts the slice. */
  datatype RidResult = Row(row: DelayRow) | NoRow | Abort(msg: string)

  /**
    `fetch_single_details` for one RID. A failure whose text contains "403"
    triggers one more call after the pause; if that call also raises, the
    original exception propagates, otherwise the RID yields no row.
  */
  function FetchRid(task: Task, rid: string, details: (string, nat) -> DetailsAnswer): (r: RidResult)
    ensures r.Abort? ==> Contains(r.msg, "403")
  {
    match details(rid, 1)
    case DetailsOk(locations) =>
      (match RowFor(task, rid, locations) case Some(row) => Row(row) case None => NoRow)
    case DetailsFailed(msg) =>
      if Contains(msg, "403") && details(rid, 2).DetailsFailed? then Abort(msg) else NoRow
  }

  /** The rows of the RIDs whose detail work yields one. */
  function RowsOf(task: Task, rids: set<string>, details: (string, nat) -> DetailsAnswer): set<DelayRow> {
    set rid | rid in rids && FetchRid(task, rid, details).Row? :: FetchRid(task, rid, details).row
  }

  /** Some RID's detail work aborts the slice. */
  predicate SomeAbort(task: Task, rids: set<string>, details: (string, nat) -> DetailsAnswer) {
    exists rid :: rid in rids && FetchRid(task, rid, details).Abort?
  }

  /**
    The detail phase: every RID's work completes in some order and its row,
    if any, is collected; the first abort to complete ends the phase.
  */
  method FetchAllDetails(task: Task, rids: set<string>, details: (string, nat) -> DetailsAnswer)
    returns (rows: set<DelayRow>, aborted: Option<string>)
    ensures aborted.Some? <==> SomeAbort(task, rids, details)
    ensures aborted.Some? ==> Contains(aborted.value, "403")
    ensures aborted.None? ==> rows == RowsOf(task, rids, details)
  {
    rows, aborted := {}, None;
    var remaining := rids;
    while remaining != {}
      invariant remaining <= rids
      invariant rows == RowsOf(task, rids - remaining, details)
      invariant !SomeAbort(task, rids - remaining, details)
      decreases |remaining|
    {
      var rid :| rid in remaining;
      var r := FetchRid(task, rid, details);
      if r.Abort? {
        AbortWithin(task, {rid}, rids, details);
        return {}, Some(r.msg);
      }
      CompleteRid(task, rids, remaining, rid, rows, details);
      if r.Row? {
        rows := rows + {r.row};
      }
      remaining := remaining - {rid};
    }
    assert rids - remaining == rids;
  }

  /** One more RID completes without an abort: its row, if any, joins the rows and still nothing has aborted. */
  lemma CompleteRid(task: Task, rids: set<string>, remaining: set<string>, rid: string, rows: set<DelayRow>,
                    details: (string, nat) -> DetailsAnswer)
    requires remaining <= rids && rid in remaining && !FetchRid(task, rid, details).Abort?
    requires rows == RowsOf(task, rids - remaining, details) && !SomeAbort(task, rids - remaining, details)
    ensures var r := FetchRid(task, rid, details);
            var done := rids - (remaining - {rid});
            (if r.Row? then rows + {r.row} else rows) == RowsOf(task, done, details) && !SomeAbort(task, done, details)
  {
    var done := rids - remaining;
    AddRid(task, done, rid, details);
    assert rids - (remaining - {rid}) == done + {rid};
  }

  /** Completing one more RID adds its row, if any, and its abort, if any. */
  lemma AddRid(task: Task, done: set<string>, rid: string, details: (string, nat) -> DetailsAnswer)
    requires rid !in done
    ensures var r := FetchRid(task, rid, details);
            RowsOf(task, done + {rid}, details) == RowsOf(task, done, details) + (if r.Row? then {r.row} else {})
    ensures SomeAbort(task, done + {rid}, details) <==> SomeAbort(task, done, details) || FetchRid(task, rid, details).Abort?
  {
    var r := FetchRid(task, rid, details);
    if r.Abort? {
      assert rid in done + {rid};
    }
  }

  lemma AbortWithin(task: Task, some: set<string>, rids: set<string>, details: (string, nat) -> DetailsAnswer)
    requires some <= rids && SomeAbort(task, some, details)
    ensures SomeAbort(task, rids, details)
  {
    var rid :| rid in some && FetchRid(task, rid, details).Abort?;
    assert rid in rids;
  }

  // ---- The slice ----

  /** What `_execute_slice_task` hands back: the status, the RIDs fetched and the rows written. */
  datatype SliceResult = SliceResult(outcome: Outcome, rids: set<string>, rows: set<DelayRow>)

  /**
    `_execute_slice_task`: metrics, RID collection and cap, details, and the
    status. Any exception becomes a status with no rows written.
  */
  method ExecuteSlice(task: Task, metrics: MetricsAnswer, cap: int, details: (string, nat) -> DetailsAnswer)
    returns (result: SliceResult)
    ensures metrics.MetricsFailed? ==> result == SliceResult(ClassifyError(metrics.msg), {}, {})
    ensures metrics.MetricsOk? && cap < 0 ==> result == SliceResult(ClassifyError(SAMPLE_ERROR), {}, {})
    ensures metrics.MetricsOk? && cap >= 0 ==>
              var all := AllRids(metrics.services);
              result.rids <= all && |result.rids| == (if |all| > cap then cap else |all|) &&
              (result.rids == {} ==> result.outcome == NoRids && result.rows == {}) &&
              (result.rids != {} && SomeAbort(task, result.rids, details) ==> result.outcome == Forbidden && result.rows == {}) &&
              (result.rids != {} && !SomeAbort(task, result.rids, details) ==>
                 result.outcome == Succeeded && result.rows == RowsOf(task, result.rids, details))
  {
    if metrics.MetricsFailed? {
      return SliceResult(ClassifyError(metrics.msg), {}, {});
    }
    var all := CollectRids(metrics.services);
    var capped := ApplyCap(all, cap);
    if capped.Err? {
      return SliceResult(ClassifyError(capped.msg), {}, {});
    }
    var rids := capped.value;
    if rids == {} {
      return SliceResult(NoRids, {}, {});
    }
    var rows, aborted := FetchAllDetails(task, rids, details);
    if aborted.Some? {
      return SliceResult(ClassifyError(aborted.value), rids, {});
    }
    return SliceResult(Succeeded, rids, rows);
  }
}
