/**
  The hour-sliced day ingester (routely-buffer-spike/ingest_day.py): per
  route, one adaptive metrics fetch per TOC filter, RID records pinned to
  the queried route, dedup and cap, one detail call per RID with success
  and failure counts, and the rows appended to the day's file.

  The metrics calls are the oracle `metrics(route, toc)(n)`, the detail
  calls the oracle `details(rid)`; the day's file is a value passed in and
  returned. Detail calls are taken in record order (the source runs them on
  a thread pool).
*/
module SpikeIngest {
  import opened Common
  import opened Hhmm
  import opened Routes
  import opened Dedup
  import opened SliceTask
  import opened RidRecords
  import opened Adaptive

  /** `min_window_minutes=30` of the adaptive fetch. */
  const MIN_WINDOW_MINUTES := 30

  /** A `toc_filter`: the list of TOC codes sent with a metrics call. */
  type TocFilter = seq<string>

  /** The metrics calls of one route and TOC filter, by call number. */
  type MetricsCalls = (Route, Option<TocFilter>) -> nat -> CallResult<seq<ServiceAttrs>>

  /** `toc_filters or [None]`: the given filters, or one pass with no filter. */
  function TocList(tocFilters: seq<TocFilter>): (tocs: seq<Option<TocFilter>>)
    ensures |tocs| >= 1
    ensures tocFilters == [] ==> tocs == [None]
    ensures tocFilters != [] ==> |tocs| == |tocFilters| && forall i :: 0 <= i < |tocs| ==> tocs[i] == Some(tocFilters[i])
  {
    if tocFilters == [] then [None] else seq(|tocFilters|, i requires 0 <= i < |tocFilters| => Some(tocFilters[i]))
  }

  // ---- Metrics phase ----

  /** The records of the responses a fetch yielded, in order, pinned to the queried route. */
  function YieldedRecords(ys: seq<seq<ServiceAttrs>>, route: Route): seq<RidRecord> {
    if ys == [] then []
    else YieldedRecords(ys[..|ys| - 1], route) + Records(QueryRoute, ys[|ys| - 1], route.origin, route.dest)
  }

  /** The fetch for one TOC filter. */
  function TocFetch(metrics: MetricsCalls, route: Route, w: Window, toc: Option<TocFilter>, maxDepth: int): Fetch<seq<ServiceAttrs>> {
    FetchAdaptive(metrics(route, toc), w.fromTime, w.toTime, maxDepth, MIN_WINDOW_MINUTES, 0)
  }

  /** The route's records over the TOC filters, or `None` once a fetch raises (the whole route is then skipped). */
  function MetricsPhase(metrics: MetricsCalls, route: Route, w: Window, tocs: seq<Option<TocFilter>>, maxDepth: int): Option<seq<RidRecord>> {
    if tocs == [] then Some([])
    else
      match MetricsPhase(metrics, route, w, tocs[..|tocs| - 1], maxDepth)
      case None => None
      case Some(before) =>
        var f := TocFetch(metrics, route, w, tocs[|tocs| - 1], maxDepth);
        if f.error.Some? then None else Some(before + YieldedRecords(f.yielded, route))
  }

  /** The `try` block over the TOC filters and the responses each fetch yields. */
  method FetchRouteRecords(metrics: MetricsCalls, route: Route, w: Window, tocs: seq<Option<TocFilter>>, maxDepth: int)
    returns (records: Option<seq<RidRecord>>)
    ensures records == MetricsPhase(metrics, route, w, tocs, maxDepth)
  {
    var all: seq<RidRecord> := [];
    for t := 0 to |tocs|
      invariant MetricsPhase(metrics, route, w, tocs[..t], maxDepth) == Some(all)
    {
      var yielded, error, calls := FetchMetricsAdaptive(metrics(route, tocs[t]), w.fromTime, w.toTime, maxDepth, MIN_WINDOW_MINUTES, 0);
      assert Fetch(yielded, error, calls) == TocFetch(metrics, route, w, tocs[t], maxDepth);
      if error.Some? {
        FailedFetchSkipsRoute(metrics, route, w, tocs, maxDepth, t);
        return None;
      }
      MetricsPhaseNext(metrics, route, w, tocs, maxDepth, t, all);
      all := CollectYielded(all, yielded, route);
    }
    assert tocs[..|tocs|] == tocs;
    return Some(all);
  }

  /** The inner loop: the records of every response yielded for one TOC filter, appended in order. */
  method CollectYielded(all0: seq<RidRecord>, yielded: seq<seq<ServiceAttrs>>, route: Route) returns (all: seq<RidRecord>)
    ensures all == all0 + YieldedRecords(yielded, route)
  {
    all := all0;
    for k := 0 to |yielded|
      invariant all == all0 + YieldedRecords(yielded[..k], route)
    {
      assert yielded[..k + 1][..k] == yielded[..k];
      all := CollectRecords(all, QueryRoute, yielded[k], route.origin, route.dest);
    }
    assert yielded[..|yielded|] == yielded;
  }

  /** A TOC filter whose fetch does not raise adds its records after those of the filters before it. */
  lemma MetricsPhaseNext(metrics: MetricsCalls, route: Route, w: Window, tocs: seq<Option<TocFilter>>, maxDepth: int,
                         t: nat, before: seq<RidRecord>)
    requires t < |tocs| && MetricsPhase(metrics, route, w, tocs[..t], maxDepth) == Some(before)
    requires TocFetch(metrics, route, w, tocs[t], maxDepth).error.None?
    ensures MetricsPhase(metrics, route, w, tocs[..t + 1], maxDepth) ==
            Some(before + YieldedRecords(TocFetch(metrics, route, w, tocs[t], maxDepth).yielded, route))
  {
    assert tocs[..t + 1][..t] == tocs[..t];
  }

  /** Every record of the metrics phase is a string RID of a yielded service, filed under the queried route. */
  lemma {:induction false} PhasePinned(metrics: MetricsCalls, route: Route, w: Window, tocs: seq<Option<TocFilter>>, maxDepth: int, r: RidRecord)
    requires MetricsPhase(metrics, route, w, tocs, maxDepth).Some?
    requires r in MetricsPhase(metrics, route, w, tocs, maxDepth).value
    ensures r.origin == route.origin && r.dest == route.dest
    decreases |tocs|
  {
    var front := tocs[..|tocs| - 1];
    var before := MetricsPhase(metrics, route, w, front, maxDepth).value;
    if r in before {
      PhasePinned(metrics, route, w, front, maxDepth, r);
    } else {
      YieldedPinned(TocFetch(metrics, route, w, tocs[|tocs| - 1], maxDepth).yielded, route, r);
    }
  }

  lemma {:induction false} YieldedPinned(ys: seq<seq<ServiceAttrs>>, route: Route, r: RidRecord)
    requires r in YieldedRecords(ys, route)
    ensures r.origin == route.origin && r.dest == route.dest
    decreases |ys|
  {
    if r in YieldedRecords(ys[..|ys| - 1], route) {
      YieldedPinned(ys[..|ys| - 1], route, r);
    } else {
      QueryTagged(ys[|ys| - 1], route.origin, route.dest, r);
    }
  }

  /** A TOC filter whose fetch raises loses the whole route, whatever the other filters return. */
  lemma {:induction false} FailedFetchSkipsRoute(metrics: MetricsCalls, route: Route, w: Window, tocs: seq<Option<TocFilter>>,
                                                 maxDepth: int, i: nat)
    requires i < |tocs| && TocFetch(metrics, route, w, tocs[i], maxDepth).error.Some?
    ensures MetricsPhase(metrics, route, w, tocs, maxDepth).None?
    decreases |tocs|
  {
    if i < |tocs| - 1 {
      assert tocs[..|tocs| - 1][i] == tocs[i];
      FailedFetchSkipsRoute(metrics, route, w, tocs[..|tocs| - 1], maxDepth, i);
    }
  }

  // ---- Details phase ----

  /**
    `fetch_details`: the first stop whose upper-cased location-or-crs equals
    the upper-cased destination, its planned (or departure) and actual (or
    actual departure) time, and the delay clamped at zero, or 0 without a
    planned time. No stop, no actual time, a failed call or an unparsable
    time gives `(None, False)`.
  */
  function DetailRow(date: string, rec: RidRecord, answer: DetailsAnswer): (row: Option<DelayRow>)
    ensures row.Some? ==> answer.DetailsOk? && FindDest(answer.locations, Upper(rec.dest), 0).Some?
    ensures row.Some? ==>
              row.value.rid == rec.rid && row.value.origin == rec.origin && row.value.dest == rec.dest &&
              row.value.hour == rec.hour && row.value.date == date && row.value.actualTa != "" && row.value.delayMin >= 0
    ensures row.Some? && row.value.gbttPta == "" ==> row.value.delayMin == 0
    ensures row.Some? && row.value.gbttPta != "" ==>
              ParseHhmm(row.value.gbttPta).Some? && ParseHhmm(row.value.actualTa).Some? &&
              row.value.delayMin == ClampDelay(ParseHhmm(row.value.actualTa).value - ParseHhmm(row.value.gbttPta).value)
  {
    match answer
    case DetailsFailed(_) => None
    case DetailsOk(locations) =>
      match FindDest(locations, Upper(rec.dest), 0)
      case None => None
      case Some(i) =>
        var l := locations[i];
        var planned := OrElse(l.gbttPta, OrElse(l.gbttPtd, ""));
        var actual := OrElse(l.actualTa, OrElse(l.actualTd, ""));
        if actual == "" then None
        else if planned == "" then Some(DelayRow(rec.origin, rec.dest, rec.rid, date, planned, actual, 0, rec.hour))
        else
          var p, a := ParseHhmm(planned), ParseHhmm(actual);
          if p.None? || a.None? then None
          else Some(DelayRow(rec.origin, rec.dest, rec.rid, date, planned, actual, ClampDelay(a.value - p.value), rec.hour))
  }

  /** The rows of the records whose detail call succeeds, in order. */
  function DetailRows(date: string, kept: seq<RidRecord>, details: string -> DetailsAnswer): seq<DelayRow> {
    if kept == [] then []
    else
      var last := kept[|kept| - 1];
      var row := DetailRow(date, last, details(last.rid));
      DetailRows(date, kept[..|kept| - 1], details) + (if row.Some? then [row.value] else [])
  }

  /** The detail loop: `details_ok` counts the rows, `details_fail` the rest. */
  method DetailsPhase(date: string, kept: seq<RidRecord>, details: string -> DetailsAnswer)
    returns (rows: seq<DelayRow>, ok: nat, fail: nat)
    ensures rows == DetailRows(date, kept, details)
    ensures ok == |rows| && ok + fail == |kept|
  {
    rows, ok, fail := [], 0, 0;
    for i := 0 to |kept|
      invariant rows == DetailRows(date, kept[..i], details)
      invariant ok == |rows| && ok + fail == i
    {
      assert kept[..i + 1][..i] == kept[..i];
      var row := DetailRow(date, kept[i], details(kept[i].rid));
      if row.Some? {
        ok := ok + 1;
        rows := rows + [row.value];
      } else {
        fail := fail + 1;
      }
    }
    assert kept[..|kept|] == kept;
  }

  /** Every row comes from one of the records, with its RID and route and a delay of at least zero. */
  lemma {:induction false} DetailRowsFrom(date: string, kept: seq<RidRecord>, details: string -> DetailsAnswer, row: DelayRow)
    requires row in DetailRows(date, kept, details)
    ensures exists i :: 0 <= i < |kept| && row.rid == kept[i].rid && row.origin == kept[i].origin &&
                        row.dest == kept[i].dest && row.hour == kept[i].hour
    ensures row.delayMin >= 0 && row.date == date
    decreases |kept|
  {
    var front, last := kept[..|kept| - 1], kept[|kept| - 1];
    if row in DetailRows(date, front, details) {
      DetailRowsFrom(date, front, details, row);
      var i :| 0 <= i < |front| && row.rid == front[i].rid && row.origin == front[i].origin &&
               row.dest == front[i].dest && row.hour == front[i].hour;
      assert kept[i] == front[i];
    }
  }

  // ---- One route ----

  /** How a route ends: its metrics raised, it had no RIDs to process, or its details ran. */
  datatype RouteResult =
    | MetricsError
    | EmptyRoute
    | Processed(ridsPre: nat, kept: seq<RidRecord>, detailsOk: nat, detailsFail: nat, rows: seq<DelayRow>)

  /**
    What a route may end with. The cap is outside the `try`, so its
    `ValueError` propagates out of the ingester; which records the cap
    samples is left open.
  */
  ghost predicate RouteAdmissible(date: string, route: Route, w: Window, tocs: seq<Option<TocFilter>>, maxDepth: int,
                                  ridCap: Option<int>, metrics: MetricsCalls, details: string -> DetailsAnswer,
                                  r: Result<RouteResult>) {
    match MetricsPhase(metrics, route, w, tocs, maxDepth)
    case None => r == Ok(MetricsError)
    case Some(records) =>
      if records == [] then r == Ok(EmptyRoute)
      else
        var deduped := DedupByRid(records);
        if CapRaises(deduped, ridCap) then r == Err(NEGATIVE_SAMPLE_ERROR)
        else
          r.Ok? && (r.value.EmptyRoute? || r.value.Processed?) &&
          (r.value.EmptyRoute? ==> KeptAdmissible(deduped, ridCap, [])) &&
          (r.value.Processed? ==> ProcessedFrom(date, records, deduped, ridCap, details, r.value))
  }

  /** The counts and rows of a processed route. */
  ghost predicate ProcessedFrom(date: string, records: seq<RidRecord>, deduped: seq<RidRecord>, ridCap: Option<int>,
                                details: string -> DetailsAnswer, p: RouteResult)
    requires p.Processed?
  {
    p.ridsPre == |records| && p.kept != [] && KeptAdmissible(deduped, ridCap, p.kept) &&
    p.rows == DetailRows(date, p.kept, details) &&
    p.detailsOk == |p.rows| && p.detailsOk + p.detailsFail == |p.kept|
  }

  /** One iteration of the route loop. */
  method IngestRoute(date: string, route: Route, w: Window, tocs: seq<Option<TocFilter>>, maxDepth: int,
                     ridCap: Option<int>, metrics: MetricsCalls, details: string -> DetailsAnswer)
    returns (r: Result<RouteResult>)
    ensures RouteAdmissible(date, route, w, tocs, maxDepth, ridCap, metrics, details, r)
  {
    var records := FetchRouteRecords(metrics, route, w, tocs, maxDepth);
    if records.None? {
      return Ok(MetricsError);
    }
    if records.value == [] {
      return Ok(EmptyRoute);
    }
    var deduped := DedupByRid(records.value);
    var capped := CapRecords(deduped, ridCap);
    if capped.Err? {
      return Err(capped.msg);
    }
    var kept := capped.value;
    if kept == [] {
      return Ok(EmptyRoute);
    }
    var rows, ok, fail := DetailsPhase(date, kept, details);
    return Ok(Processed(|records.value|, kept, ok, fail, rows));
  }

  /** After dedup and cap no more records are processed than were collected, and no RID twice. */
  lemma ProcessedBounds(date: string, records: seq<RidRecord>, ridCap: Option<int>, details: string -> DetailsAnswer,
                        p: RouteResult)
    requires p.Processed? && ProcessedFrom(date, records, DedupByRid(records), ridCap, details, p)
    ensures |p.kept| <= p.ridsPre
    ensures |p.rows| <= |p.kept|
  {
    var deduped := DedupByRid(records);
    if ridCap.Some? {
      CapBounds(deduped, p.kept, if ridCap.value < 0 then 0 else ridCap.value, GroupKey("", "", 0));
    }
  }

  // ---- The day ----

  /** The day's delay file after the routes, or the exception that ends the day early. */
  function AppendRows(file: Option<seq<DelayRow>>, results: seq<RouteResult>): (after: Option<seq<DelayRow>>)
  {
    if results == [] then file
    else
      var before := AppendRows(file, results[..|results| - 1]);
      var last := results[|results| - 1];
      if last.Processed? && last.rows != [] then Some((if before.Some? then before.value else []) + last.rows)
      else before
  }

  /** The set of RIDs in a file. */
  function RidSet(rows: seq<DelayRow>): set<string> {
    set i | 0 <= i < |rows| :: rows[i].rid
  }

  /** `pd.read_csv` of the day's file, then its row count and number of distinct RIDs. */
  function Summarise(date: string, file: Option<seq<DelayRow>>): (r: Result<DaySummary>)
    ensures r.Err? <==> file.None?
    ensures r.Ok? ==> r.value == DaySummary(date, |RidSet(file.value)|, |file.value|)
  {
    if file.None? then Err("FileNotFoundError") else Ok(DaySummary(date, |RidSet(file.value)|, |file.value|))
  }

  /**
    `ingest_one_day`: the routes in order; a cap error ends the day at that
    route. The ghost `results` are the routes' outcomes; the file and the
    summary follow from them.
  */
  method IngestOneDay(date: string, routesFilter: Option<Route>, timeWindow: Option<Window>, ridCap: Option<int>,
                      tocFilters: seq<TocFilter>, maxChunkDepth: int, metrics: MetricsCalls,
                      details: string -> DetailsAnswer, existing: Option<seq<DelayRow>>)
    returns (summary: Result<DaySummary>, file: Option<seq<DelayRow>>, ghost results: seq<RouteResult>)
    ensures var routes := RoutesFor(routesFilter);
            |results| <= |routes| &&
            (forall i :: 0 <= i < |results| ==>
               RouteAdmissible(date, routes[i], QueryWindow(timeWindow), TocList(tocFilters), maxChunkDepth, ridCap,
                               metrics, details, Ok(results[i])))
    ensures file == AppendRows(existing, results)
    ensures summary.Ok? ==> |results| == |RoutesFor(routesFilter)| && summary == Summarise(date, file)
    ensures summary.Err? && |results| < |RoutesFor(routesFilter)| ==>
              summary == Err(NEGATIVE_SAMPLE_ERROR) &&
              RouteAdmissible(date, RoutesFor(routesFilter)[|results|], QueryWindow(timeWindow), TocList(tocFilters),
                              maxChunkDepth, ridCap, metrics, details, Err(NEGATIVE_SAMPLE_ERROR))
    ensures summary.Err? && |results| == |RoutesFor(routesFilter)| ==> file.None?
  {
    var routes := RoutesFor(routesFilter);
    var w := QueryWindow(timeWindow);
    var tocs := TocList(tocFilters);
    file, results := existing, [];
    for i := 0 to |routes|
      invariant |results| == i
      invariant forall k :: 0 <= k < i ==>
                  RouteAdmissible(date, routes[k], w, tocs, maxChunkDepth, ridCap, metrics, details, Ok(results[k]))
      invariant file == AppendRows(existing, results)
    {
      var r := IngestRoute(date, routes[i], w, tocs, maxChunkDepth, ridCap, metrics, details);
      if r.Err? {
        return Err(r.msg), file, results;
      }
      assert (results + [r.value])[..i] == results;
      if r.value.Processed? && r.value.rows != [] {
        file := Some((if file.Some? then file.value else []) + r.value.rows);
      }
      ghost var prev := results;
      results := results + [r.value];
      forall k | 0 <= k < i + 1
        ensures RouteAdmissible(date, routes[k], w, tocs, maxChunkDepth, ridCap, metrics, details, Ok(results[k]))
      {
        if k < i {
          assert results[k] == prev[k];
        }
      }
    }
    summary := Summarise(date, file);
  }

  /** A day on which no route writes a row and no file existed before raises instead of returning a summary. */
  lemma {:induction false} NoRowsNoFile(existing: Option<seq<DelayRow>>, results: seq<RouteResult>)
    requires existing.None?
    requires forall i :: 0 <= i < |results| ==> !results[i].Processed? || results[i].rows == []
    ensures AppendRows(existing, results).None?
    decreases |results|
  {
    if results != [] {
      NoRowsNoFile(existing, results[..|results| - 1]);
    }
  }

  /** The file grows by exactly the rows of the processed routes, after what it held before. */
  lemma {:induction false} AppendRowsExtends(existing: seq<DelayRow>, results: seq<RouteResult>)
    ensures AppendRows(Some(existing), results).Some?
    ensures existing <= AppendRows(Some(existing), results).value
    decreases |results|
  {
    if results != [] {
      AppendRowsExtends(existing, results[..|results| - 1]);
    }
  }
}
