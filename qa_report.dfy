/**
  The QA report (qa_report.py): the coverage matrix of observations per
  route, planned hour and weekday, the monotonicity check of the
  percentile table, the categorisation of API errors in the slice logs,
  the median-coverage gate per route, and the pass verdict.

  The three inputs are values: the raw rows (`None` when the file is
  missing or unreadable), the percentile rows (`None` likewise) and the
  parsed slice logs. The HTML report, its file name and the sparklines are
  not part of this model.
*/
module QaReport {
  import opened Common
  import opened MonthFinal
  import opened DelaySummary

  /** A configured route. */
  datatype Route = Route(origin: string, dest: string)

  function RouteOf(c: Cell): Route {
    Route(c.origin, c.dest)
  }

  // ---------------------------------------------------------------------
  // Coverage matrix
  // ---------------------------------------------------------------------

  /** The cells of one route and hour for the weekdays below `n`. */
  function DowCells(r: Route, hour: int, n: nat): seq<Cell> {
    seq(n, d => Cell(r.origin, r.dest, hour, d))
  }

  /** The cells of one route for the hours below `h`, hour by hour and weekday by weekday. */
  function HourCells(r: Route, h: nat): seq<Cell> {
    if h == 0 then [] else HourCells(r, h - 1) + DowCells(r, h - 1, 7)
  }

  /** `complete_index`: every route of the configuration, in order, times 24 hours times 7 weekdays. */
  function CompleteIndex(routes: seq<Route>): seq<Cell> {
    if routes == [] then []
    else CompleteIndex(routes[..|routes| - 1]) + HourCells(routes[|routes| - 1], 24)
  }

  /** The three nested loops that build `complete_index`. */
  method BuildCompleteIndex(routes: seq<Route>) returns (index: seq<Cell>)
    ensures index == CompleteIndex(routes)
  {
    index := [];
    for i := 0 to |routes|
      invariant index == CompleteIndex(routes[..i])
    {
      var r := routes[i];
      for hour := 0 to 24
        invariant index == CompleteIndex(routes[..i]) + HourCells(r, hour)
      {
        for dow := 0 to 7
          invariant index == CompleteIndex(routes[..i]) + HourCells(r, hour) + DowCells(r, hour, dow)
        {
          assert DowCells(r, hour, dow + 1) == DowCells(r, hour, dow) + [Cell(r.origin, r.dest, hour, dow)];
          index := index + [Cell(r.origin, r.dest, hour, dow)];
        }
      }
      assert routes[..i + 1][..i] == routes[..i];
    }
    assert routes[..|routes|] == routes;
  }

  lemma DowCellsShape(r: Route, hour: int, n: nat)
    ensures |DowCells(r, hour, n)| == n
    ensures forall c :: c in DowCells(r, hour, n) <==> RouteOf(c) == r && c.hour == hour && 0 <= c.dow < n
  {
    var cells := DowCells(r, hour, n);
    forall c | RouteOf(c) == r && c.hour == hour && 0 <= c.dow < n
      ensures c in cells
    {
      assert cells[c.dow] == c;
    }
  }

  lemma {:induction false} HourCellsShape(r: Route, h: nat)
    ensures |HourCells(r, h)| == 7 * h
    ensures forall c :: c in HourCells(r, h) <==> RouteOf(c) == r && 0 <= c.hour < h && 0 <= c.dow < 7
  {
    if h > 0 {
      HourCellsShape(r, h - 1);
      DowCellsShape(r, h - 1, 7);
    }
  }

  /** The index has 168 cells per configured route, and holds exactly the configured routes' hours and weekdays. */
  lemma {:induction false} CompleteIndexShape(routes: seq<Route>)
    ensures |CompleteIndex(routes)| == 168 * |routes|
    ensures forall c :: c in CompleteIndex(routes) <==> RouteOf(c) in routes && 0 <= c.hour < 24 && 0 <= c.dow < 7
  {
    if routes != [] {
      var front := routes[..|routes| - 1];
      CompleteIndexShape(front);
      HourCellsShape(routes[|routes| - 1], 24);
      assert routes == front + [routes[|routes| - 1]];
    }
  }

  /** A row of the coverage matrix. */
  datatype MatrixRow = MatrixRow(cell: Cell, obsCount: nat)

  /** `groupby([...]).size()` for one cell: the number of raw rows in it. */
  function GroupSize(cells: seq<Cell>, c: Cell): (n: nat)
    ensures n == multiset(cells)[c]
    ensures n > 0 <==> c in cells
  {
    if cells == [] then 0
    else
      var front := cells[..|cells| - 1];
      assert cells == front + [cells[|cells| - 1]];
      GroupSize(front, c) + (if cells[|cells| - 1] == c then 1 else 0)
  }

  /** The left merge of the index with the group sizes, missing cells filled with 0. */
  function Merge(index: seq<Cell>, cells: seq<Cell>): (matrix: seq<MatrixRow>)
    ensures |matrix| == |index|
    ensures forall i :: 0 <= i < |index| ==> matrix[i].cell == index[i] && matrix[i].obsCount == multiset(cells)[index[i]]
  {
    seq(|index|, i requires 0 <= i < |index| => MatrixRow(index[i], GroupSize(cells, index[i])))
  }

  /** `_generate_coverage_matrix`. */
  function CoverageMatrix(routes: seq<Route>, cells: seq<Cell>): seq<MatrixRow> {
    Merge(CompleteIndex(routes), cells)
  }

  /**
    The matrix has one row per configured route, hour and weekday, each
    configured cell has a row, a row's count is the number of raw rows in
    its cell, and a cell absent from the data counts 0.
  */
  lemma CoverageMatrixComplete(routes: seq<Route>, cells: seq<Cell>)
    ensures |CoverageMatrix(routes, cells)| == 168 * |routes|
    ensures forall c :: RouteOf(c) in routes && 0 <= c.hour < 24 && 0 <= c.dow < 7 ==>
              exists i :: 0 <= i < |CoverageMatrix(routes, cells)| && CoverageMatrix(routes, cells)[i].cell == c
    ensures forall row :: row in CoverageMatrix(routes, cells) ==>
              row.obsCount == multiset(cells)[row.cell] && (row.cell !in cells ==> row.obsCount == 0)
  {
    var index := CompleteIndex(routes);
    var matrix := CoverageMatrix(routes, cells);
    CompleteIndexShape(routes);
    forall c | RouteOf(c) in routes && 0 <= c.hour < 24 && 0 <= c.dow < 7
      ensures exists i :: 0 <= i < |matrix| && matrix[i].cell == c
    {
      var i :| 0 <= i < |index| && index[i] == c;
      assert matrix[i].cell == c;
    }
  }

  // ---------------------------------------------------------------------
  // Median coverage per route
  // ---------------------------------------------------------------------

  function Reals(xs: seq<nat>): (rs: seq<real>)
    ensures |rs| == |xs| && forall i :: 0 <= i < |xs| ==> rs[i] == xs[i] as real
  {
    seq(|xs|, i requires 0 <= i < |xs| => xs[i] as real)
  }

  /** pandas' `median`: the middle sorted value, or the mean of the two middle ones for an even count. */
  function Median(xs: seq<real>): real
    requires xs != []
  {
    Middle(Sorted(xs))
  }

  /** The middle of a list of `n` values: the value at `n / 2`, or the mean of the two around it for an even `n`. */
  function Middle(s: seq<real>): real
    requires s != []
  {
    var n := |s|;
    if n % 2 == 1 then s[n / 2] else (s[n / 2 - 1] + s[n / 2]) / 2.0
  }

  /** The median is the 50th percentile by linear interpolation. */
  lemma MedianIsPercentile(xs: seq<real>)
    requires xs != []
    ensures Median(xs) == Percentile(xs, 50.0).value
  {
    var s := Sorted(xs);
    assert Median(xs) == Middle(s);
    assert Percentile(xs, 50.0).value == Interpolate(s, Rank(|s|, 50.0));
    MiddleInterpolates(s);
  }

  lemma MiddleInterpolates(s: seq<real>)
    requires s != []
    ensures 0.0 <= Rank(|s|, 50.0) <= |s| as real - 1.0
    ensures Interpolate(s, Rank(|s|, 50.0)) == Middle(s)
  {
    var n := |s|;
    var k := Rank(n, 50.0);
    assert k == (n as real - 1.0) / 2.0;
    var m := n / 2;
    if n % 2 == 1 {
      assert n == 2 * m + 1;
      assert k == m as real;
      assert k.Floor == m;
    } else {
      assert n == 2 * m;
      assert k == m as real - 0.5;
      assert (m - 1) as real <= k < m as real;
      assert k.Floor == m - 1;
      assert Ceil(k) == m;
      assert Interpolate(s, k) == s[m - 1] * 0.5 + s[m] * 0.5;
    }
  }

  /** A list of one repeated value has that value as its median. */
  lemma MedianConstant(xs: seq<real>, v: real)
    requires xs != [] && forall i :: 0 <= i < |xs| ==> xs[i] == v
    ensures Median(xs) == v
  {
    MedianIsPercentile(xs);
    PercentileBounds(xs, 50.0);
  }

  /** For an even count the gate `median < min` compares the sum of the two middle values with `2 * min`. */
  lemma MedianBelowEven(xs: seq<real>, minObs: int)
    requires xs != [] && |xs| % 2 == 0
    ensures var s := Sorted(xs);
            Median(xs) < minObs as real <==> s[|xs| / 2 - 1] + s[|xs| / 2] < 2.0 * minObs as real
  {
  }

  /** The routes of the matrix's rows, each once, in order of first appearance. */
  function MatrixRoutes(matrix: seq<MatrixRow>): (rs: seq<Route>)
    ensures forall r :: r in rs <==> exists i :: 0 <= i < |matrix| && RouteOf(matrix[i].cell) == r
    ensures forall i, j :: 0 <= i < j < |rs| ==> rs[i] != rs[j]
  {
    if matrix == [] then []
    else
      var front := MatrixRoutes(matrix[..|matrix| - 1]);
      var r := RouteOf(matrix[|matrix| - 1].cell);
      assert forall i :: 0 <= i < |matrix| - 1 ==> matrix[..|matrix| - 1][i] == matrix[i];
      if r in front then front else front + [r]
  }

  /** The counts of one route's rows, its group for `groupby(['origin', 'dest'])`. */
  function RouteObs(matrix: seq<MatrixRow>, r: Route): seq<nat> {
    if matrix == [] then []
    else
      var row := matrix[|matrix| - 1];
      RouteObs(matrix[..|matrix| - 1], r) + (if RouteOf(row.cell) == r then [row.obsCount] else [])
  }

  /** A route's group holds the count of each of its rows and nothing else. */
  lemma {:induction false} RouteObsMembers(matrix: seq<MatrixRow>, r: Route)
    ensures forall k :: k in RouteObs(matrix, r) <==>
              exists i :: 0 <= i < |matrix| && RouteOf(matrix[i].cell) == r && matrix[i].obsCount == k
  {
    if matrix != [] {
      var front := matrix[..|matrix| - 1];
      RouteObsMembers(front, r);
      assert forall i :: 0 <= i < |front| ==> front[i] == matrix[i];
    }
  }

  /** A QA failure message: the load failure, a route whose median coverage is too low, or the violation count. */
  datatype Failure =
    | LoadFailed
    | LowCoverage(route: Route, median: real, minObs: int)
    | MonotonicityViolations(count: nat)

  /** The median count per cell of a route's rows; 0 for a route without rows, which never has a group. */
  function RouteMedian(matrix: seq<MatrixRow>, r: Route): real {
    var obs := RouteObs(matrix, r);
    if obs != [] then Median(Reals(obs)) else 0.0
  }

  /** The gate `median_obs < min_obs` for a route group. */
  predicate LowRoute(matrix: seq<MatrixRow>, r: Route, minObs: int) {
    RouteObs(matrix, r) != [] && RouteMedian(matrix, r) < minObs as real
  }

  /** The failure for one route, if its median count per cell is below `minObs`. */
  function RouteFailure(matrix: seq<MatrixRow>, r: Route, minObs: int): seq<Failure> {
    if LowRoute(matrix, r, minObs) then [LowCoverage(r, RouteMedian(matrix, r), minObs)] else []
  }

  /** The failures for the routes `rs`, in their order. */
  function RouteFailures(matrix: seq<MatrixRow>, rs: seq<Route>, minObs: int): seq<Failure> {
    if rs == [] then []
    else RouteFailures(matrix, rs[..|rs| - 1], minObs) + RouteFailure(matrix, rs[|rs| - 1], minObs)
  }

  lemma RouteFailuresStep(matrix: seq<MatrixRow>, rs: seq<Route>, i: nat, minObs: int)
    requires i < |rs|
    ensures RouteFailures(matrix, rs[..i + 1], minObs) == RouteFailures(matrix, rs[..i], minObs) + RouteFailure(matrix, rs[i], minObs)
  {
    assert rs[..i + 1][..i] == rs[..i];
  }

  /** The failures `_check_coverage_quality` appends, one route group after another. */
  function CoverageFailures(matrix: seq<MatrixRow>, minObs: int): seq<Failure> {
    RouteFailures(matrix, MatrixRoutes(matrix), minObs)
  }

  lemma {:induction false} RouteFailuresExact(matrix: seq<MatrixRow>, rs: seq<Route>, minObs: int)
    ensures forall f :: f in RouteFailures(matrix, rs, minObs) <==>
              exists r :: r in rs && LowRoute(matrix, r, minObs) && f == LowCoverage(r, RouteMedian(matrix, r), minObs)
  {
    if rs != [] {
      var front := rs[..|rs| - 1];
      RouteFailuresExact(matrix, front, minObs);
      assert rs == front + [rs[|rs| - 1]];
    }
  }

  /**
    A route of the matrix gets a failure exactly when the median of its
    counts is below `minObs`, that failure carries the median, and no
    other failure is produced.
  */
  lemma CoverageFailuresExact(matrix: seq<MatrixRow>, minObs: int)
    ensures forall f :: f in CoverageFailures(matrix, minObs) ==> f.LowCoverage? && f.minObs == minObs
    ensures forall r :: r in MatrixRoutes(matrix) ==>
              RouteObs(matrix, r) != [] && RouteMedian(matrix, r) == Median(Reals(RouteObs(matrix, r))) &&
              (LowCoverage(r, RouteMedian(matrix, r), minObs) in CoverageFailures(matrix, minObs) <==>
               RouteMedian(matrix, r) < minObs as real)
    ensures forall r, m :: LowCoverage(r, m, minObs) in CoverageFailures(matrix, minObs) ==>
              r in MatrixRoutes(matrix) && m == RouteMedian(matrix, r) && m < minObs as real
  {
    var rs := MatrixRoutes(matrix);
    RouteFailuresExact(matrix, rs, minObs);
    forall f | f in CoverageFailures(matrix, minObs) ensures f.LowCoverage? && f.minObs == minObs {
      var r :| r in rs && LowRoute(matrix, r, minObs) && f == LowCoverage(r, RouteMedian(matrix, r), minObs);
    }
    forall r | r in MatrixRoutes(matrix) ensures RouteObs(matrix, r) != [] {
      RouteObsMembers(matrix, r);
      var i :| 0 <= i < |matrix| && RouteOf(matrix[i].cell) == r;
      assert matrix[i].obsCount in RouteObs(matrix, r);
    }
  }

  /** The counts of a configured route with no raw row are all 0, so its median is 0. */
  lemma UncoveredRouteMedian(routes: seq<Route>, cells: seq<Cell>, r: Route)
    requires r in routes && forall c :: c in cells ==> RouteOf(c) != r
    ensures r in MatrixRoutes(CoverageMatrix(routes, cells))
    ensures RouteObs(CoverageMatrix(routes, cells), r) != []
    ensures RouteMedian(CoverageMatrix(routes, cells), r) == 0.0
  {
    var matrix := CoverageMatrix(routes, cells);
    CoverageMatrixComplete(routes, cells);
    var c := Cell(r.origin, r.dest, 0, 0);
    var i :| 0 <= i < |matrix| && matrix[i].cell == c;
    assert RouteOf(matrix[i].cell) == r;
    var obs := RouteObs(matrix, r);
    RouteObsMembers(matrix, r);
    assert matrix[i].obsCount in obs;
    forall j | 0 <= j < |obs| ensures obs[j] == 0 {
      assert obs[j] in obs;
      var k :| 0 <= k < |matrix| && RouteOf(matrix[k].cell) == r && matrix[k].obsCount == obs[j];
      assert matrix[k] in matrix;
    }
    MedianConstant(Reals(obs), 0.0);
  }

  // ---------------------------------------------------------------------
  // Monotonicity
  // ---------------------------------------------------------------------

  /** A row of the percentile table. */
  datatype PercentileRow = PercentileRow(origin: string, dest: string, hour: int, dow: int, p80: real, p90: real, p95: real)

  predicate NonMonotone(row: PercentileRow) {
    row.p80 > row.p90 || row.p90 > row.p95
  }

  /** The rows breaking `p80 <= p90 <= p95`, in table order. */
  function Violations(rows: seq<PercentileRow>): seq<PercentileRow> {
    if rows == [] then []
    else
      var row := rows[|rows| - 1];
      Violations(rows[..|rows| - 1]) + (if NonMonotone(row) then [row] else [])
  }

  /** `_check_monotonicity`. */
  method CheckMonotonicity(rows: seq<PercentileRow>) returns (violations: seq<PercentileRow>)
    ensures violations == Violations(rows)
  {
    violations := [];
    for i := 0 to |rows|
      invariant violations == Violations(rows[..i])
    {
      assert rows[..i + 1][..i] == rows[..i];
      var row := rows[i];
      if row.p80 > row.p90 || row.p90 > row.p95 {
        violations := violations + [row];
      }
    }
    assert rows[..|rows|] == rows;
  }

  /** The violations are exactly the non-monotone rows, so there are none exactly when every row is monotone. */
  lemma {:induction false} ViolationsExact(rows: seq<PercentileRow>)
    ensures forall v :: v in Violations(rows) <==> v in rows && NonMonotone(v)
    ensures |Violations(rows)| <= |rows|
    ensures Violations(rows) == [] <==> forall i :: 0 <= i < |rows| ==> !NonMonotone(rows[i])
  {
    if rows != [] {
      var front := rows[..|rows| - 1];
      ViolationsExact(front);
      assert rows == front + [rows[|rows| - 1]];
      if Violations(rows) == [] {
        forall i | 0 <= i < |rows| ensures !NonMonotone(rows[i]) {
          assert rows[i] in rows;
        }
      } else {
        var v := Violations(rows)[0];
        assert v in Violations(rows);
        var i :| 0 <= i < |rows| && rows[i] == v;
      }
    }
  }

  // ---------------------------------------------------------------------
  // API errors in the slice logs
  // ---------------------------------------------------------------------

  /** The `error` entry of a log's result: absent (read as `''`), a string, or some other JSON value. */
  datatype ErrorField = NoErrorKey | ErrorText(text: string) | ErrorNotText

  /** A slice log: its result's `status` and `error`, and its task's `key`, each possibly absent. */
  datatype SliceLog = SliceLog(status: Option<string>, error: ErrorField, taskKey: Option<string>)

  datatype ErrorCategory = Timeout | Forbidden | ClientError | ServerError | OtherError

  datatype ErrorDetail = ErrorDetail(taskKey: string, error: string, status: string)

  /** The `error_stats` dictionary. */
  datatype ErrorStats = ErrorStats(
    total: nat, successful: nat, failed: nat,
    timeoutErrors: nat, forbiddenErrors: nat, clientErrors: nat, serverErrors: nat, otherErrors: nat,
    details: seq<ErrorDetail>)

  function StatusOf(log: SliceLog): string {
    if log.status.Some? then log.status.value else "unknown"
  }

  function TaskKeyOf(log: SliceLog): string {
    if log.taskKey.Some? then log.taskKey.value else "unknown"
  }

  /** The error as a string, `None` when it is not one (then `error.lower()` raises). */
  function ErrorTextOf(log: SliceLog): Option<string> {
    match log.error
    case NoErrorKey => Some("")
    case ErrorText(t) => Some(t)
    case ErrorNotText => None
  }

  predicate Succeeded(log: SliceLog) {
    StatusOf(log) == "ok"
  }

  predicate ContainsAny(s: string, codes: seq<string>) {
    exists i :: 0 <= i < |codes| && Contains(s, codes[i])
  }

  /** The category of a failed slice's error, tested in order: timeout, 403, other 4xx, 5xx, anything else. */
  function Category(error: string): ErrorCategory {
    if Contains(Lower(error), "timeout") || Contains(Lower(error), "timed out") then Timeout
    else if Contains(error, "403") then Forbidden
    else if ContainsAny(error, ["400", "401", "402", "404", "429"]) then ClientError
    else if ContainsAny(error, ["500", "501", "502", "503", "504"]) then ServerError
    else OtherError
  }

  function CategoryCount(st: ErrorStats, cat: ErrorCategory): nat {
    match cat
    case Timeout => st.timeoutErrors
    case Forbidden => st.forbiddenErrors
    case ClientError => st.clientErrors
    case ServerError => st.serverErrors
    case OtherError => st.otherErrors
  }

  /** One more error of category `cat`. */
  function Bump(st: ErrorStats, cat: ErrorCategory): (r: ErrorStats)
    ensures CategoryCount(r, cat) == CategoryCount(st, cat) + 1
    ensures forall other :: other != cat ==> CategoryCount(r, other) == CategoryCount(st, other)
    ensures r.total == st.total && r.successful == st.successful && r.failed == st.failed && r.details == st.details
  {
    match cat
    case Timeout => st.(timeoutErrors := st.timeoutErrors + 1)
    case Forbidden => st.(forbiddenErrors := st.forbiddenErrors + 1)
    case ClientError => st.(clientErrors := st.clientErrors + 1)
    case ServerError => st.(serverErrors := st.serverErrors + 1)
    case OtherError => st.(otherErrors := st.otherErrors + 1)
  }

  /** One turn of the loop of `_analyze_api_errors`. */
  function CountLog(st: ErrorStats, log: SliceLog): Result<ErrorStats> {
    if Succeeded(log) then Ok(st.(successful := st.successful + 1))
    else
      match ErrorTextOf(log)
      case None => Err("AttributeError: the error is not a string")
      case Some(e) =>
        var bumped := Bump(st.(failed := st.failed + 1), Category(e));
        Ok(bumped.(details := bumped.details + [ErrorDetail(TaskKeyOf(log), e, StatusOf(log))]))
  }

  /** The loop from `init` over `logs`; the first error that is not a string stops it. */
  function CountLogs(init: ErrorStats, logs: seq<SliceLog>): Result<ErrorStats> {
    if logs == [] then Ok(init)
    else
      match CountLogs(init, logs[..|logs| - 1])
      case Err(e) => Err(e)
      case Ok(st) => CountLog(st, logs[|logs| - 1])
  }

  function InitialStats(total: nat): ErrorStats {
    ErrorStats(total, 0, 0, 0, 0, 0, 0, 0, [])
  }

  /** `_analyze_api_errors`, as a function of the logs. */
  function ErrorStatsOf(logs: seq<SliceLog>): Result<ErrorStats> {
    CountLogs(InitialStats(|logs|), logs)
  }

  /** `_analyze_api_errors`. */
  method AnalyzeApiErrors(logs: seq<SliceLog>) returns (r: Result<ErrorStats>)
    ensures r == ErrorStatsOf(logs)
  {
    var st := InitialStats(|logs|);
    for i := 0 to |logs|
      invariant CountLogs(InitialStats(|logs|), logs[..i]) == Ok(st)
    {
      CountLogsNext(InitialStats(|logs|), logs, i, st);
      ghost var st0 := st;
      var log := logs[i];
      var status := if log.status.Some? then log.status.value else "unknown";
      if status == "ok" {
        st := st.(successful := st.successful + 1);
        assert CountLog(st0, log) == Ok(st);
      } else {
        var error := ErrorTextOf(log);
        if error.None? {
          CountLogsErrSticks(InitialStats(|logs|), logs, i + 1);
          return Err("AttributeError: the error is not a string");
        }
        var e := error.value;
        st := st.(failed := st.failed + 1);
        st := CountCategoryOf(st, e);
        var taskKey := if log.taskKey.Some? then log.taskKey.value else "unknown";
        st := st.(details := st.details + [ErrorDetail(taskKey, e, status)]);
        assert CountLog(st0, log) == Ok(st);
      }
    }
    assert logs[..|logs|] == logs;
    return Ok(st);
  }

  /** The category branches of the loop: one more error in the category of `e`. */
  method CountCategoryOf(st0: ErrorStats, e: string) returns (st: ErrorStats)
    ensures st == Bump(st0, Category(e))
  {
    st := st0;
    var lower := Lower(e);
    if Contains(lower, "timeout") || Contains(lower, "timed out") {
      st := st.(timeoutErrors := st.timeoutErrors + 1);
    } else if Contains(e, "403") {
      st := st.(forbiddenErrors := st.forbiddenErrors + 1);
    } else if ContainsAny(e, ["400", "401", "402", "404", "429"]) {
      st := st.(clientErrors := st.clientErrors + 1);
    } else if ContainsAny(e, ["500", "501", "502", "503", "504"]) {
      st := st.(serverErrors := st.serverErrors + 1);
    } else {
      st := st.(otherErrors := st.otherErrors + 1);
    }
  }

  /** The loop over one more log is one more step from the prefix's counters. */
  lemma CountLogsNext(init: ErrorStats, logs: seq<SliceLog>, i: nat, st: ErrorStats)
    requires i < |logs| && CountLogs(init, logs[..i]) == Ok(st)
    ensures CountLogs(init, logs[..i + 1]) == CountLog(st, logs[i])
  {
    assert logs[..i + 1][..i] == logs[..i];
  }

  /** The number of logs whose status is `'ok'`. */
  function CountOk(logs: seq<SliceLog>): nat {
    if logs == [] then 0
    else CountOk(logs[..|logs| - 1]) + (if Succeeded(logs[|logs| - 1]) then 1 else 0)
  }

  /** The number of failed logs whose error falls in `cat`. */
  function CountCategory(logs: seq<SliceLog>, cat: ErrorCategory): nat {
    if logs == [] then 0
    else
      var log := logs[|logs| - 1];
      CountCategory(logs[..|logs| - 1], cat) +
      (if !Succeeded(log) && ErrorTextOf(log).Some? && Category(ErrorTextOf(log).value) == cat then 1 else 0)
  }

  /** One detail per failed log, in log order. */
  function DetailsOf(logs: seq<SliceLog>): seq<ErrorDetail> {
    if logs == [] then []
    else
      var log := logs[|logs| - 1];
      DetailsOf(logs[..|logs| - 1]) +
      (if !Succeeded(log) && ErrorTextOf(log).Some? then [ErrorDetail(TaskKeyOf(log), ErrorTextOf(log).value, StatusOf(log))] else [])
  }

  predicate CategoriesSum(st: ErrorStats) {
    st.timeoutErrors + st.forbiddenErrors + st.clientErrors + st.serverErrors + st.otherErrors == st.failed
  }

  /** What the loop has counted in `st` after `logs`, starting from `init`. */
  predicate Accounts(init: ErrorStats, logs: seq<SliceLog>, st: ErrorStats) {
    st.total == init.total &&
    st.successful == init.successful + CountOk(logs) &&
    st.failed + CountOk(logs) == init.failed + |logs| &&
    CategoriesSum(st) && |st.details| == st.failed &&
    st.details == init.details + DetailsOf(logs) &&
    forall cat :: CategoryCount(st, cat) == CategoryCount(init, cat) + CountCategory(logs, cat)
  }

  lemma AccountsStep(init: ErrorStats, logs: seq<SliceLog>, st: ErrorStats)
    requires logs != [] && Accounts(init, logs[..|logs| - 1], st)
    requires CountLog(st, logs[|logs| - 1]).Ok?
    ensures Accounts(init, logs, CountLog(st, logs[|logs| - 1]).value)
  {
    var front, log := logs[..|logs| - 1], logs[|logs| - 1];
    if Succeeded(log) {
      AccountsSuccess(init, front, log, st);
    } else {
      AccountsFailure(init, front, log, st);
    }
    assert logs == front + [log];
  }

  lemma AccountsSuccess(init: ErrorStats, front: seq<SliceLog>, log: SliceLog, st: ErrorStats)
    requires Accounts(init, front, st) && Succeeded(log)
    ensures Accounts(init, front + [log], CountLog(st, log).value)
  {
    var logs := front + [log];
    assert logs[..|logs| - 1] == front;
    assert CountOk(logs) == CountOk(front) + 1;
    assert DetailsOf(logs) == DetailsOf(front);
    assert forall cat :: CountCategory(logs, cat) == CountCategory(front, cat);
  }

  lemma AccountsFailure(init: ErrorStats, front: seq<SliceLog>, log: SliceLog, st: ErrorStats)
    requires Accounts(init, front, st) && !Succeeded(log) && ErrorTextOf(log).Some?
    ensures Accounts(init, front + [log], CountLog(st, log).value)
  {
    var logs := front + [log];
    var e := ErrorTextOf(log).value;
    var next := CountLog(st, log).value;
    FailureLogged(front, log);
    FailureCounted(st, log);
    assert next.details == init.details + DetailsOf(logs);
    forall cat ensures CategoryCount(next, cat) == CategoryCount(init, cat) + CountCategory(logs, cat) {
      assert CountCategory(logs, cat) == CountCategory(front, cat) + (if Category(e) == cat then 1 else 0);
      assert CategoryCount(next, cat) == CategoryCount(st, cat) + (if Category(e) == cat then 1 else 0);
    }
  }

  /** The reference counts after one more failed log with a string error. */
  lemma FailureLogged(front: seq<SliceLog>, log: SliceLog)
    requires !Succeeded(log) && ErrorTextOf(log).Some?
    ensures var logs, e := front + [log], ErrorTextOf(log).value;
            CountOk(logs) == CountOk(front) &&
            DetailsOf(logs) == DetailsOf(front) + [ErrorDetail(TaskKeyOf(log), e, StatusOf(log))] &&
            forall cat :: CountCategory(logs, cat) == CountCategory(front, cat) + (if Category(e) == cat then 1 else 0)
  {
    var logs := front + [log];
    assert logs[..|logs| - 1] == front;
  }

  /** The loop's counters after one more failed log with a string error. */
  lemma FailureCounted(st: ErrorStats, log: SliceLog)
    requires !Succeeded(log) && ErrorTextOf(log).Some?
    requires CategoriesSum(st) && |st.details| == st.failed
    ensures var next, e := CountLog(st, log).value, ErrorTextOf(log).value;
            next.total == st.total && next.successful == st.successful && next.failed == st.failed + 1 &&
            next.details == st.details + [ErrorDetail(TaskKeyOf(log), e, StatusOf(log))] &&
            CategoriesSum(next) && |next.details| == next.failed &&
            forall cat :: CategoryCount(next, cat) == CategoryCount(st, cat) + (if Category(e) == cat then 1 else 0)
  {
    var e := ErrorTextOf(log).value;
    var counted := st.(failed := st.failed + 1);
    var bumped := Bump(counted, Category(e));
    assert CountLog(st, log).value == bumped.(details := bumped.details + [ErrorDetail(TaskKeyOf(log), e, StatusOf(log))]);
    BumpSum(counted, Category(e));
  }

  /** A bump adds one to the sum of the category counters. */
  lemma BumpSum(st: ErrorStats, cat: ErrorCategory)
    ensures var r := Bump(st, cat);
            r.timeoutErrors + r.forbiddenErrors + r.clientErrors + r.serverErrors + r.otherErrors ==
            st.timeoutErrors + st.forbiddenErrors + st.clientErrors + st.serverErrors + st.otherErrors + 1
  {
  }

  /** The loop's counters from `init` are the per-log counts added to `init`'s. */
  lemma {:induction false} CountLogsExact(init: ErrorStats, logs: seq<SliceLog>)
    requires CategoriesSum(init) && |init.details| == init.failed
    ensures CountLogs(init, logs).Ok? ==> Accounts(init, logs, CountLogs(init, logs).value)
  {
    if logs == [] {
      assert init.details + DetailsOf(logs) == init.details;
    } else {
      CountLogsExact(init, logs[..|logs| - 1]);
      if CountLogs(init, logs).Ok? {
        AccountsStep(init, logs, CountLogs(init, logs[..|logs| - 1]).value);
      }
    }
  }

  /** The loop stops exactly at a failed slice whose error is not a string. */
  lemma {:induction false} CountLogsErr(init: ErrorStats, logs: seq<SliceLog>)
    ensures CountLogs(init, logs).Err? <==>
              exists i :: 0 <= i < |logs| && !Succeeded(logs[i]) && logs[i].error.ErrorNotText?
  {
    if logs != [] {
      CountLogsErr(init, logs[..|logs| - 1]);
      CountLogsErrStep(init, logs);
      StoppingLogSnoc(logs);
    }
  }

  /** The loop over `logs` stops exactly when it stopped before the last log or stops on it. */
  lemma CountLogsErrStep(init: ErrorStats, logs: seq<SliceLog>)
    requires logs != []
    ensures var last := logs[|logs| - 1];
            CountLogs(init, logs).Err? <==>
              CountLogs(init, logs[..|logs| - 1]).Err? || (!Succeeded(last) && last.error.ErrorNotText?)
  {
    var prev := CountLogs(init, logs[..|logs| - 1]);
    if prev.Ok? {
      CountLogErr(prev.value, logs[|logs| - 1]);
    }
  }

  /** A stopping log is in `logs` exactly when it is in the front or is the last. */
  lemma StoppingLogSnoc(logs: seq<SliceLog>)
    requires logs != []
    ensures var front, last := logs[..|logs| - 1], logs[|logs| - 1];
            (exists i :: 0 <= i < |logs| && !Succeeded(logs[i]) && logs[i].error.ErrorNotText?) <==>
              (exists i :: 0 <= i < |front| && !Succeeded(front[i]) && front[i].error.ErrorNotText?) ||
              (!Succeeded(last) && last.error.ErrorNotText?)
  {
    var front := logs[..|logs| - 1];
    if exists i :: 0 <= i < |front| && !Succeeded(front[i]) && front[i].error.ErrorNotText? {
      var i :| 0 <= i < |front| && !Succeeded(front[i]) && front[i].error.ErrorNotText?;
      assert logs[i] == front[i];
    }
    if exists i :: 0 <= i < |logs| && !Succeeded(logs[i]) && logs[i].error.ErrorNotText? {
      var i :| 0 <= i < |logs| && !Succeeded(logs[i]) && logs[i].error.ErrorNotText?;
      if i < |front| {
        assert front[i] == logs[i];
      }
    }
  }

  /** One log stops the loop exactly when it is a failure whose error is not a string. */
  lemma CountLogErr(st: ErrorStats, log: SliceLog)
    ensures CountLog(st, log).Err? <==> !Succeeded(log) && log.error.ErrorNotText?
  {
  }

  /** Once the loop has stopped on a prefix it stays stopped with the same error. */
  lemma {:induction false} CountLogsErrSticks(init: ErrorStats, logs: seq<SliceLog>, i: nat)
    requires i <= |logs| && CountLogs(init, logs[..i]).Err?
    ensures CountLogs(init, logs) == CountLogs(init, logs[..i])
    decreases |logs|
  {
    if i < |logs| {
      var front := logs[..|logs| - 1];
      assert front[..i] == logs[..i];
      CountLogsErrSticks(init, front, i);
    } else {
      assert logs[..i] == logs;
    }
  }

  /**
    `_analyze_api_errors` fails exactly when a failed slice's error is not
    a string. Otherwise successes and failures add up to the total, only
    status `'ok'` is a success (so a skipped slice is a failure), each
    failure is counted in exactly one category, and there is one detail per
    failure, in log order.
  */
  lemma ErrorStatsExact(logs: seq<SliceLog>)
    ensures ErrorStatsOf(logs).Err? <==>
              exists i :: 0 <= i < |logs| && !Succeeded(logs[i]) && logs[i].error.ErrorNotText?
    ensures ErrorStatsOf(logs).Ok? ==>
              var st := ErrorStatsOf(logs).value;
              st.total == |logs| && st.successful + st.failed == st.total &&
              st.successful == CountOk(logs) && CategoriesSum(st) &&
              |st.details| == st.failed && st.details == DetailsOf(logs) &&
              forall cat :: CategoryCount(st, cat) == CountCategory(logs, cat)
  {
    var init := InitialStats(|logs|);
    CountLogsExact(init, logs);
    CountLogsErr(init, logs);
    if ErrorStatsOf(logs).Ok? {
      var st := ErrorStatsOf(logs).value;
      assert Accounts(init, logs, st);
      CountOkBound(logs);
      assert init.details + DetailsOf(logs) == DetailsOf(logs);
      forall cat ensures CategoryCount(st, cat) == CountCategory(logs, cat) {
        assert CategoryCount(init, cat) == 0;
      }
    }
  }

  lemma {:induction false} CountOkBound(logs: seq<SliceLog>)
    ensures CountOk(logs) <= |logs|
  {
    if logs != [] {
      CountOkBound(logs[..|logs| - 1]);
    }
  }

  // ---------------------------------------------------------------------
  // The report and its verdict
  // ---------------------------------------------------------------------

  /** `pd.read_csv` of the raw file with its derived `hour` column: `None` when missing, empty or when an hour does not parse. */
  function LoadRaw(raw: Option<seq<QaRow>>): (cells: Option<seq<Cell>>)
    ensures cells.Some? ==> cells.value != []
  {
    if raw.None? || raw.value == [] then None else CellsOf(raw.value)
  }

  /** The `try` block of `generate_report` succeeds: the raw rows load and the percentile file exists. */
  predicate LoadsOk(raw: Option<seq<QaRow>>, percentiles: Option<seq<PercentileRow>>) {
    LoadRaw(raw).Some? && percentiles.Some?
  }

  /** What one report computes: the failures it appends, its matrix, violations and error statistics, and whether it passed. */
  datatype QaOutcome = QaOutcome(
    failures: seq<Failure>, matrix: seq<MatrixRow>, violations: seq<PercentileRow>, errorStats: ErrorStats, passed: bool)

  const KEY_ERROR := "KeyError: the complete index has no columns"

  /**
    `generate_report` on a fresh reporter. A load failure replaces all three
    inputs by empty ones; an empty configuration of routes with data, or a
    failed slice with an error that is not a string, raises.
  */
  function Report(routes: seq<Route>, minObs: int, raw: Option<seq<QaRow>>,
                  percentiles: Option<seq<PercentileRow>>, logs: seq<SliceLog>): Result<QaOutcome>
  {
    Analyse(routes, minObs, Loaded(raw, percentiles, logs))
  }

  /** The inputs after the `try` block: all three empty when loading failed. */
  datatype Inputs = Inputs(loadOk: bool, cells: seq<Cell>, rows: seq<PercentileRow>, slices: seq<SliceLog>)

  function Loaded(raw: Option<seq<QaRow>>, percentiles: Option<seq<PercentileRow>>, logs: seq<SliceLog>): (inputs: Inputs)
    ensures inputs.loadOk == LoadsOk(raw, percentiles)
    ensures inputs.loadOk ==> inputs == Inputs(true, LoadRaw(raw).value, percentiles.value, logs)
    ensures !inputs.loadOk ==> inputs == Inputs(false, [], [], [])
    ensures inputs.cells != [] <==> inputs.loadOk
  {
    if LoadsOk(raw, percentiles) then Inputs(true, LoadRaw(raw).value, percentiles.value, logs)
    else Inputs(false, [], [], [])
  }

  /** The checks of `generate_report` on the loaded inputs. */
  function Analyse(routes: seq<Route>, minObs: int, inputs: Inputs): Result<QaOutcome> {
    if inputs.cells != [] && routes == [] then Err(KEY_ERROR)
    else
      var matrix := if inputs.cells != [] then CoverageMatrix(routes, inputs.cells) else [];
      var violations := if inputs.rows != [] then Violations(inputs.rows) else [];
      match ErrorStatsOf(inputs.slices)
      case Err(e) => Err(e)
      case Ok(stats) =>
        var failures := ReportFailures(inputs.loadOk, matrix, violations, minObs);
        Ok(QaOutcome(failures, matrix, violations, stats, failures == [] && violations == []))
  }

  /** The failures of one report: the load failure, then the coverage failures, then the violation count. */
  function ReportFailures(loadOk: bool, matrix: seq<MatrixRow>, violations: seq<PercentileRow>, minObs: int): seq<Failure> {
    (if loadOk then [] else [LoadFailed]) +
    (if matrix != [] then CoverageFailures(matrix, minObs) else []) +
    (if violations != [] then [MonotonicityViolations(|violations|)] else [])
  }

  /** The route groups of the coverage matrix are exactly the configured routes. */
  lemma MatrixRoutesConfigured(routes: seq<Route>, cells: seq<Cell>)
    ensures forall r :: r in MatrixRoutes(CoverageMatrix(routes, cells)) <==> r in routes
  {
    var matrix := CoverageMatrix(routes, cells);
    CoverageMatrixComplete(routes, cells);
    CompleteIndexShape(routes);
    forall r | r in routes ensures r in MatrixRoutes(matrix) {
      var i :| 0 <= i < |matrix| && matrix[i].cell == Cell(r.origin, r.dest, 0, 0);
      assert RouteOf(matrix[i].cell) == r;
    }
    forall r | r in MatrixRoutes(matrix) ensures r in routes {
      var i :| 0 <= i < |matrix| && RouteOf(matrix[i].cell) == r;
      assert matrix[i].cell == CompleteIndex(routes)[i];
      assert CompleteIndex(routes)[i] in CompleteIndex(routes);
    }
  }

  /** No coverage failure exactly when every route group's median reaches `minObs`. */
  lemma NoCoverageFailures(matrix: seq<MatrixRow>, minObs: int)
    ensures CoverageFailures(matrix, minObs) == [] <==>
            forall r :: r in MatrixRoutes(matrix) ==> RouteMedian(matrix, r) >= minObs as real
  {
    CoverageFailuresExact(matrix, minObs);
    var failures := CoverageFailures(matrix, minObs);
    if failures != [] {
      var f := failures[0];
      assert f in failures;
      assert f == LowCoverage(f.route, f.median, minObs);
      assert f.route in MatrixRoutes(matrix) && RouteMedian(matrix, f.route) < minObs as real;
    } else {
      forall r | r in MatrixRoutes(matrix) ensures RouteMedian(matrix, r) >= minObs as real {
        assert LowCoverage(r, RouteMedian(matrix, r), minObs) !in failures;
      }
    }
  }

  /**
    The verdict: a fresh report passes exactly when loading succeeded,
    every configured route has a median count per cell of at least
    `minObs`, and every percentile row is monotone; a non-monotone row
    also records the violation count as a failure.
  */
  lemma VerdictExact(routes: seq<Route>, minObs: int, raw: Option<seq<QaRow>>,
                     percentiles: Option<seq<PercentileRow>>, logs: seq<SliceLog>)
    requires Report(routes, minObs, raw, percentiles, logs).Ok?
    ensures var outcome := Report(routes, minObs, raw, percentiles, logs).value;
            (outcome.passed <==>
               LoadsOk(raw, percentiles) &&
               (forall r :: r in routes ==> RouteMedian(CoverageMatrix(routes, LoadRaw(raw).value), r) >= minObs as real) &&
               (forall i :: 0 <= i < |percentiles.value| ==> !NonMonotone(percentiles.value[i]))) &&
            (outcome.violations != [] ==> MonotonicityViolations(|outcome.violations|) in outcome.failures)
  {
    var inputs := Loaded(raw, percentiles, logs);
    if inputs.loadOk {
      VerdictLoaded(routes, minObs, inputs.cells, inputs.rows, inputs.slices);
    } else {
      assert Report(routes, minObs, raw, percentiles, logs).value.failures[0] == LoadFailed;
    }
  }

  lemma VerdictLoaded(routes: seq<Route>, minObs: int, cells: seq<Cell>, rows: seq<PercentileRow>, slices: seq<SliceLog>)
    requires cells != [] && Analyse(routes, minObs, Inputs(true, cells, rows, slices)).Ok?
    ensures var outcome := Analyse(routes, minObs, Inputs(true, cells, rows, slices)).value;
            (outcome.passed <==>
               (forall r :: r in routes ==> RouteMedian(CoverageMatrix(routes, cells), r) >= minObs as real) &&
               (forall i :: 0 <= i < |rows| ==> !NonMonotone(rows[i]))) &&
            (outcome.violations != [] ==> MonotonicityViolations(|outcome.violations|) in outcome.failures)
  {
    var outcome := Analyse(routes, minObs, Inputs(true, cells, rows, slices)).value;
    var matrix := CoverageMatrix(routes, cells);
    assert outcome.matrix == matrix;
    LoadedFailures(matrix, outcome.violations, minObs);
    CoverageGate(routes, cells, minObs);
    ViolationsExact(rows);
  }

  /** A loaded report has no failure exactly when there is no coverage failure and no violation; a violation is recorded with its count. */
  lemma LoadedFailures(matrix: seq<MatrixRow>, violations: seq<PercentileRow>, minObs: int)
    ensures var failures := ReportFailures(true, matrix, violations, minObs);
            (failures == [] <==> CoverageFailures(matrix, minObs) == [] && violations == []) &&
            (violations != [] ==> MonotonicityViolations(|violations|) in failures)
  {
    var coverage := CoverageFailures(matrix, minObs);
    var monoPart := if violations != [] then [MonotonicityViolations(|violations|)] else [];
    if matrix == [] {
      assert coverage == [];
    }
    assert ReportFailures(true, matrix, violations, minObs) == coverage + monoPart;
  }

  /** The coverage gate holds exactly when every configured route's median count per cell reaches `minObs`. */
  lemma CoverageGate(routes: seq<Route>, cells: seq<Cell>, minObs: int)
    ensures var matrix := CoverageMatrix(routes, cells);
            CoverageFailures(matrix, minObs) == [] <==> forall r :: r in routes ==> RouteMedian(matrix, r) >= minObs as real
  {
    MatrixRoutesConfigured(routes, cells);
    NoCoverageFailures(CoverageMatrix(routes, cells), minObs);
  }

  /** A report whose inputs fail to load records exactly the load failure and does not pass. */
  lemma LoadFailureFails(routes: seq<Route>, minObs: int, raw: Option<seq<QaRow>>,
                         percentiles: Option<seq<PercentileRow>>, logs: seq<SliceLog>)
    requires !LoadsOk(raw, percentiles)
    ensures var report := Report(routes, minObs, raw, percentiles, logs);
            report.Ok? && report.value.failures == [LoadFailed] && report.value.matrix == [] && !report.value.passed
  {
    assert ErrorStatsOf([]) == Ok(InitialStats(0));
  }

  /** With a positive threshold, a configured route without any raw row fails the report with median 0. */
  lemma UncoveredRouteFailsReport(routes: seq<Route>, minObs: int, raw: Option<seq<QaRow>>,
                                  percentiles: Option<seq<PercentileRow>>, logs: seq<SliceLog>, r: Route)
    requires Report(routes, minObs, raw, percentiles, logs).Ok? && LoadsOk(raw, percentiles)
    requires r in routes && minObs > 0 && forall c :: c in LoadRaw(raw).value ==> RouteOf(c) != r
    ensures var outcome := Report(routes, minObs, raw, percentiles, logs).value;
            LowCoverage(r, 0.0, minObs) in outcome.failures && !outcome.passed
  {
    var cells := LoadRaw(raw).value;
    var matrix := CoverageMatrix(routes, cells);
    UncoveredRouteMedian(routes, cells, r);
    CoverageFailuresExact(matrix, minObs);
    var outcome := Report(routes, minObs, raw, percentiles, logs).value;
    assert outcome.matrix == matrix;
    assert LowCoverage(r, 0.0, minObs) in CoverageFailures(matrix, minObs);
  }

  lemma Append3<T>(o: seq<T>, a: seq<T>, b: seq<T>, c: seq<T>)
    ensures o + a + b + c == o + (a + b + c)
  {
  }

  /** The loop of `_check_coverage_quality` over the route groups: the failures it appends and whether none was. */
  method LowCoverageRoutes(matrix: seq<MatrixRow>, minObs: int) returns (failures: seq<Failure>, qualityPass: bool)
    ensures failures == CoverageFailures(matrix, minObs)
    ensures qualityPass <==> failures == []
  {
    var rs := MatrixRoutes(matrix);
    failures, qualityPass := [], true;
    for i := 0 to |rs|
      invariant failures == RouteFailures(matrix, rs[..i], minObs)
      invariant qualityPass <==> failures == []
    {
      var r := rs[i];
      RouteFailuresStep(matrix, rs, i, minObs);
      if LowRoute(matrix, r, minObs) {
        failures := failures + [LowCoverage(r, RouteMedian(matrix, r), minObs)];
        qualityPass := false;
      }
    }
    assert rs[..|rs|] == rs;
  }

  class QaReporter {
    /** The configured `routes`. */
    const routes: seq<Route>
    /** `qa_min_obs_per_cell`. */
    const minObs: int
    var qaFailures: seq<Failure>

    /** A reporter for a loaded configuration; `qa_min_obs_per_cell` defaults to 8. */
    constructor (routes: seq<Route>, qaMinObsPerCell: Option<int>)
      ensures this.routes == routes
      ensures minObs == if qaMinObsPerCell.Some? then qaMinObsPerCell.value else 8
      ensures qaFailures == []
    {
      this.routes := routes;
      this.minObs := if qaMinObsPerCell.Some? then qaMinObsPerCell.value else 8;
      qaFailures := [];
    }

    /** `_check_coverage_quality`: one failure per route group whose median is below `minObs`. */
    method CheckCoverageQuality(matrix: seq<MatrixRow>) returns (qualityPass: bool)
      modifies this
      ensures qaFailures == old(qaFailures) + CoverageFailures(matrix, minObs)
      ensures qualityPass <==> CoverageFailures(matrix, minObs) == []
    {
      var failures;
      failures, qualityPass := LowCoverageRoutes(matrix, minObs);
      qaFailures := qaFailures + failures;
    }

    /**
      `generate_report`: the failures of this run are appended to
      `qaFailures`, and the report passes when no failure has been recorded
      and no row is non-monotone.
    */
    method GenerateReport(raw: Option<seq<QaRow>>, percentiles: Option<seq<PercentileRow>>, logs: seq<SliceLog>)
      returns (r: Result<QaOutcome>)
      modifies this
      ensures var spec := Report(routes, minObs, raw, percentiles, logs);
              (r.Ok? <==> spec.Ok?) &&
              (r.Ok? ==> qaFailures == old(qaFailures) + spec.value.failures &&
                         r.value == spec.value.(failures := qaFailures, passed := qaFailures == [] && spec.value.violations == [])) &&
              (r.Err? ==> r == spec && qaFailures == old(qaFailures) + (if LoadsOk(raw, percentiles) then [] else [LoadFailed]))
    {
      ghost var inputs := Loaded(raw, percentiles, logs);
      var loadOk := LoadsOk(raw, percentiles);
      var cells, rows, slices := [], [], [];
      if loadOk {
        cells, rows, slices := LoadRaw(raw).value, percentiles.value, logs;
      } else {
        qaFailures := qaFailures + [LoadFailed];
      }
      assert inputs == Inputs(loadOk, cells, rows, slices);
      var matrix := [];
      if cells != [] {
        if routes == [] {
          return Err(KEY_ERROR);
        }
        var index := BuildCompleteIndex(routes);
        matrix := Merge(index, cells);
      }
      var violations := [];
      if rows != [] {
        violations := CheckMonotonicity(rows);
      }
      var stats := AnalyzeApiErrors(slices);
      if stats.Err? {
        return Err(stats.msg);
      }
      ghost var loadPart := if loadOk then [] else [LoadFailed];
      assert qaFailures == old(qaFailures) + loadPart;
      if matrix != [] {
        var _ := CheckCoverageQuality(matrix);
      }
      ghost var coveragePart := if matrix != [] then CoverageFailures(matrix, minObs) else [];
      assert qaFailures == old(qaFailures) + loadPart + coveragePart;
      if violations != [] {
        qaFailures := qaFailures + [MonotonicityViolations(|violations|)];
      }
      ghost var monoPart := if violations != [] then [MonotonicityViolations(|violations|)] else [];
      assert qaFailures == old(qaFailures) + loadPart + coveragePart + monoPart;
      assert ReportFailures(loadOk, matrix, violations, minObs) == loadPart + coveragePart + monoPart;
      Append3(old(qaFailures), loadPart, coveragePart, monoPart);
      var passed := |qaFailures| == 0 && |violations| == 0;
      assert matrix == if cells != [] then CoverageMatrix(routes, cells) else [];
      assert violations == if rows != [] then Violations(rows) else [];
      ghost var failures := ReportFailures(loadOk, matrix, violations, minObs);
      assert Analyse(routes, minObs, inputs) == Ok(QaOutcome(failures, matrix, violations, stats.value, failures == [] && violations == []));
      return Ok(QaOutcome(qaFailures, matrix, violations, stats.value, passed));
    }
  }
}
