/**
  The whole-day ingester (ingest_day.py): one metrics call per route over
  the query window, RID records tagged with the service's own route, dedup
  on RID, the optional per-group cap, one detail call per RID, and the
  day's delay file written afresh.

  The metrics call of a route is the oracle `metrics(route)` (a `Raise` is
  the exception the route loop catches); the detail call of a RID is the
  oracle `details(rid)`. The file is returned as a value.
*/
module IngestDay {
  import opened Common
  import opened Hhmm
  import opened Routes
  import opened Dedup
  import opened SliceTask
  import opened RidRecords
  import opened Adaptive

  /** The metrics call of each route, over the day and the query window. */
  type MetricsCall = Route -> CallResult<seq<ServiceAttrs>>

  /** The records of the routes whose metrics call answered, in route order; a raising route adds nothing. */
  function DayRecords(metrics: MetricsCall, routes: seq<Route>): seq<RidRecord> {
    if routes == [] then []
    else
      var route := routes[|routes| - 1];
      DayRecords(metrics, routes[..|routes| - 1]) +
      (match metrics(route)
       case Raise(_) => []
       case Answer(services) => Records(ServiceRoute, services, route.origin, route.dest))
  }

  /** The route loop. */
  method CollectDayRecords(metrics: MetricsCall, routes: seq<Route>) returns (records: seq<RidRecord>)
    ensures records == DayRecords(metrics, routes)
  {
    records := [];
    for i := 0 to |routes|
      invariant records == DayRecords(metrics, routes[..i])
    {
      assert routes[..i + 1][..i] == routes[..i];
      var reply := metrics(routes[i]);
      if reply.Answer? {
        records := CollectRecords(records, ServiceRoute, reply.response, routes[i].origin, routes[i].dest);
      }
    }
    assert routes[..|routes|] == routes;
  }

  /** A route whose call raised contributes no record; one that answered contributes its string RIDs. */
  lemma {:induction false} DayRecordsMembers(metrics: MetricsCall, routes: seq<Route>, r: RidRecord)
    ensures r in DayRecords(metrics, routes) <==>
              exists i :: 0 <= i < |routes| && metrics(routes[i]).Answer? &&
                          r in Records(ServiceRoute, metrics(routes[i]).response, routes[i].origin, routes[i].dest)
    decreases |routes|
  {
    if routes != [] {
      var front, route := routes[..|routes| - 1], routes[|routes| - 1];
      DayRecordsMembers(metrics, front, r);
      if r in DayRecords(metrics, front) {
        var i :| 0 <= i < |front| && metrics(front[i]).Answer? &&
                 r in Records(ServiceRoute, metrics(front[i]).response, front[i].origin, front[i].dest);
        assert routes[i] == front[i];
      }
      forall i | 0 <= i < |front| ensures routes[i] == front[i] {
      }
    }
  }

  /** The index of the first stop from `start` on whose `location` is exactly `dest`. */
  function FindStop(locations: seq<Location>, dest: string, start: nat): (r: Option<nat>)
    ensures r.Some? ==> start <= r.value < |locations| && locations[r.value].location == Some(dest) &&
                        forall j :: start <= j < r.value ==> locations[j].location != Some(dest)
    ensures r.None? <==> forall j :: start <= j < |locations| ==> locations[j].location != Some(dest)
    decreases |locations| - start
  {
    if start >= |locations| then None
    else if locations[start].location == Some(dest) then Some(start)
    else FindStop(locations, dest, start + 1)
  }

  /**
    `fetch_details`: the first stop whose `location` equals the record's
    destination, its planned and actual arrival, and the arrival delay
    clamped at zero, or 0 without a planned arrival. No such stop, no actual
    arrival, a failed call or an unparsable time gives `None`.
  */
  function DetailRow(date: string, rec: RidRecord, answer: DetailsAnswer): (row: Option<DelayRow>)
    ensures row.Some? ==> answer.DetailsOk? && FindStop(answer.locations, rec.dest, 0).Some?
    ensures row.Some? ==>
              row.value.rid == rec.rid && row.value.origin == rec.origin && row.value.dest == rec.dest &&
              row.value.hour == rec.hour && row.value.date == date && row.value.actualTa != "" && row.value.delayMin >= 0
    ensures row.Some? && row.value.gbttPta == "" ==> row.value.delayMin == 0
    ensures row.Some? && row.value.gbttPta != "" ==>
              ParseHhmm(row.value.gbttPta).Some? && ParseHhmm(row.value.actualTa).Some? &&
              row.value.delayMin == ClampDelay(ParseHhmm(row.value.actualTa).value - ParseHhmm(row.value.gbttPta).value)
  {
    match answer
    case DetailsFailed(_) => None
    case DetailsOk(locations) =>
      match FindStop(locations, rec.dest, 0)
      case None => None
      case Some(i) =>
        var planned := OrElse(locations[i].gbttPta, "");
        var actual := OrElse(locations[i].actualTa, "");
        if actual == "" then None
        else if planned == "" then Some(DelayRow(rec.origin, rec.dest, rec.rid, date, planned, actual, 0, rec.hour))
        else
          var p, a := ParseHhmm(planned), ParseHhmm(actual);
          if p.None? || a.None? then None
          else Some(DelayRow(rec.origin, rec.dest, rec.rid, date, planned, actual, ClampDelay(a.value - p.value), rec.hour))
  }

  /** The truthy results of the detail calls, in record order. */
  function DetailRows(date: string, kept: seq<RidRecord>, details: string -> DetailsAnswer): seq<DelayRow> {
    if kept == [] then []
    else
      var last := kept[|kept| - 1];
      var row := DetailRow(date, last, details(last.rid));
      DetailRows(date, kept[..|kept| - 1], details) + (if row.Some? then [row.value] else [])
  }

  /** The results loop: one row at most per record. */
  method CollectRows(date: string, kept: seq<RidRecord>, details: string -> DetailsAnswer) returns (rows: seq<DelayRow>)
    ensures rows == DetailRows(date, kept, details)
    ensures |rows| <= |kept|
  {
    rows := [];
    for i := 0 to |kept|
      invariant rows == DetailRows(date, kept[..i], details)
      invariant |rows| <= i
    {
      assert kept[..i + 1][..i] == kept[..i];
      var row := DetailRow(date, kept[i], details(kept[i].rid));
      if row.Some? {
        rows := rows + [row.value];
      }
    }
    assert kept[..|kept|] == kept;
  }

  /** Every row belongs to one of the records, with its RID, route and hour, and a delay of at least zero. */
  lemma {:induction false} DetailRowsFrom(date: string, kept: seq<RidRecord>, details: string -> DetailsAnswer, row: DelayRow)
    requires row in DetailRows(date, kept, details)
    ensures exists i :: 0 <= i < |kept| && row.rid == kept[i].rid && row.origin == kept[i].origin &&
                        row.dest == kept[i].dest && row.hour == kept[i].hour
    ensures row.delayMin >= 0 && row.date == date
    decreases |kept|
  {
    var front := kept[..|kept| - 1];
    if row in DetailRows(date, front, details) {
      DetailRowsFrom(date, front, details, row);
      var i :| 0 <= i < |front| && row.rid == front[i].rid && row.origin == front[i].origin &&
               row.dest == front[i].dest && row.hour == front[i].hour;
      assert kept[i] == front[i];
    }
  }

  /** What the day may end with: the summary together with the file written, or the cap's exception. */
  ghost predicate DayAdmissible(date: string, routesFilter: Option<Route>, ridCap: Option<int>, metrics: MetricsCall,
                                details: string -> DetailsAnswer, r: Result<DaySummary>, file: seq<DelayRow>) {
    var records := DayRecords(metrics, RoutesFor(routesFilter));
    if records == [] then r == Ok(DaySummary(date, 0, 0)) && file == []
    else
      var deduped := DedupByRid(records);
      if CapRaises(deduped, ridCap) then r == Err(NEGATIVE_SAMPLE_ERROR)
      else
        exists kept :: KeptAdmissible(deduped, ridCap, kept) &&
                       file == DetailRows(date, kept, details) &&
                       r == Ok(DaySummary(date, |kept|, |file|))
  }

  /**
    `ingest_one_day`. The window of the metrics calls is `QueryWindow(time_window)`,
    fixed inside `metrics`.
  */
  method IngestOneDay(date: string, routesFilter: Option<Route>, ridCap: Option<int>, metrics: MetricsCall,
                      details: string -> DetailsAnswer)
    returns (r: Result<DaySummary>, file: seq<DelayRow>)
    ensures DayAdmissible(date, routesFilter, ridCap, metrics, details, r, file)
    ensures r.Ok? ==> r.value.date == date && r.value.rows == |file| && r.value.rows <= r.value.rids
  {
    var records := CollectDayRecords(metrics, RoutesFor(routesFilter));
    if records == [] {
      return Ok(DaySummary(date, 0, 0)), [];
    }
    var deduped := DedupByRid(records);
    var capped := CapRecords(deduped, ridCap);
    if capped.Err? {
      return Err(capped.msg), [];
    }
    var kept := capped.value;
    file := CollectRows(date, kept, details);
    r := Ok(DaySummary(date, |kept|, |file|));
  }

  /** A day on which every metrics call raises writes the empty file and reports zero RIDs and rows. */
  lemma {:induction false} AllRoutesFailed(metrics: MetricsCall, routes: seq<Route>)
    requires forall i :: 0 <= i < |routes| ==> metrics(routes[i]).Raise?
    ensures DayRecords(metrics, routes) == []
    decreases |routes|
  {
    if routes != [] {
      AllRoutesFailed(metrics, routes[..|routes| - 1]);
    }
  }

  /** Without a cap every deduplicated record gets its detail call, and each RID yields at most one row. */
  lemma NoCapKeepsAll(date: string, routesFilter: Option<Route>, metrics: MetricsCall, details: string -> DetailsAnswer,
                      r: Result<DaySummary>, file: seq<DelayRow>)
    requires DayAdmissible(date, routesFilter, None, metrics, details, r, file)
    ensures var records := DayRecords(metrics, RoutesFor(routesFilter));
            r.Ok? && (records != [] ==> r.value.rids == |DedupByRid(records)| && file == DetailRows(date, DedupByRid(records), details))
  {
  }
}
