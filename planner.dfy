/**
  Task planning (`_generate_date_range`, `_generate_task_dag`,
  orchestrate_month.py): one task per date, route and time window, in that
  nesting order, each keyed `date_origin_dest_from_to`.

  Dates are day ordinals (`date.toordinal()`); their `%Y-%m-%d` text is the
  parameter `isoDate`, so calendar formatting is outside the model.
*/
module Planner {
  import opened Common
  import opened Routes

  /** A slice task: the fields of the task dictionary. */
  datatype Task = Task(date: string, origin: string, dest: string, fromTime: string, toTime: string, key: string)

  /** The time window a task covers. */
  function WindowOf(t: Task): Window {
    Window(t.fromTime, t.toTime)
  }

  /** `f"{date}_{origin}_{dest}_{from_time}_{to_time}"`. */
  function TaskKey(date: string, origin: string, dest: string, fromTime: string, toTime: string): string {
    date + "_" + origin + "_" + dest + "_" + fromTime + "_" + toTime
  }

  /** `"_".join(parts)`. */
  function Join(parts: seq<string>): string
    requires |parts| > 0
  {
    if |parts| == 1 then parts[0] else parts[0] + "_" + Join(parts[1..])
  }

  /** The task for one date, route and window. */
  function MakeTask(date: string, route: Route, w: Window): Task {
    Task(date, route.origin, route.dest, w.fromTime, w.toTime,
         TaskKey(date, route.origin, route.dest, w.fromTime, w.toTime))
  }

  /** The innermost loop: one task per window, in window order. */
  function RouteTasks(date: string, route: Route, windows: seq<Window>): seq<Task> {
    if windows == [] then []
    else RouteTasks(date, route, windows[..|windows| - 1]) + [MakeTask(date, route, windows[|windows| - 1])]
  }

  /** The middle loop: the windows of each route, in route order. */
  function DayTasks(date: string, routes: seq<Route>, windows: seq<Window>): seq<Task> {
    if routes == [] then []
    else DayTasks(date, routes[..|routes| - 1], windows) + RouteTasks(date, routes[|routes| - 1], windows)
  }

  /** The task plan: the routes and windows of each date, in date order. */
  function Plan(dates: seq<string>, routes: seq<Route>, windows: seq<Window>): seq<Task> {
    if dates == [] then []
    else Plan(dates[..|dates| - 1], routes, windows) + DayTasks(dates[|dates| - 1], routes, windows)
  }

  /** `_generate_date_range`: every day from `start` to `end`, both included. */
  method DateRange(start: int, end: int) returns (days: seq<int>)
    ensures |days| == if start <= end then end - start + 1 else 0
    ensures forall i :: 0 <= i < |days| ==> days[i] == start + i
    ensures start <= end ==> days[0] == start && days[|days| - 1] == end
  {
    days := [];
    var current := start;
    while current <= end
      invariant start <= current <= if start <= end then end + 1 else start
      invariant |days| == current - start
      invariant forall i :: 0 <= i < |days| ==> days[i] == start + i
      decreases end - current
    {
      days := days + [current];
      current := current + 1;
    }
  }

  /** `_generate_task_dag` over the date strings of `DateRange`: the loop over dates. */
  method GenerateTasks(dates: seq<string>, routes: seq<Route>, windows: seq<Window>) returns (tasks: seq<Task>)
    ensures tasks == Plan(dates, routes, windows)
  {
    tasks := [];
    for i := 0 to |dates|
      invariant tasks == Plan(dates[..i], routes, windows)
    {
      tasks := AppendDayTasks(tasks, dates[i], routes, windows);
      PlanSnoc(dates, routes, windows, i);
    }
    assert dates[..|dates|] == dates;
  }

  /** The loop over routes for one date, appending to `tasks`. */
  method AppendDayTasks(tasks: seq<Task>, date: string, routes: seq<Route>, windows: seq<Window>) returns (out: seq<Task>)
    ensures out == tasks + DayTasks(date, routes, windows)
  {
    out := tasks;
    for j := 0 to |routes|
      invariant out == tasks + DayTasks(date, routes[..j], windows)
    {
      out := AppendRouteTasks(out, date, routes[j], windows);
      DayTasksSnoc(date, routes, windows, j);
    }
    assert routes[..|routes|] == routes;
  }

  /** The loop over windows for one date and route, appending to `tasks`. */
  method AppendRouteTasks(tasks: seq<Task>, date: string, route: Route, windows: seq<Window>) returns (out: seq<Task>)
    ensures out == tasks + RouteTasks(date, route, windows)
  {
    out := tasks;
    for k := 0 to |windows|
      invariant out == tasks + RouteTasks(date, route, windows[..k])
    {
      RouteTasksSnoc(date, route, windows, k);
      out := out + [MakeTask(date, route, windows[k])];
    }
    assert windows[..|windows|] == windows;
  }

  lemma RouteTasksSnoc(date: string, route: Route, windows: seq<Window>, k: int)
    requires 0 <= k < |windows|
    ensures RouteTasks(date, route, windows[..k + 1]) == RouteTasks(date, route, windows[..k]) + [MakeTask(date, route, windows[k])]
  {
    assert windows[..k + 1][..k] == windows[..k];
  }

  lemma DayTasksSnoc(date: string, routes: seq<Route>, windows: seq<Window>, j: int)
    requires 0 <= j < |routes|
    ensures DayTasks(date, routes[..j + 1], windows) == DayTasks(date, routes[..j], windows) + RouteTasks(date, routes[j], windows)
  {
    assert routes[..j + 1][..j] == routes[..j];
    assert windows[..|windows|] == windows;
  }

  lemma PlanSnoc(dates: seq<string>, routes: seq<Route>, windows: seq<Window>, i: int)
    requires 0 <= i < |dates|
    ensures Plan(dates[..i + 1], routes, windows) == Plan(dates[..i], routes, windows) + DayTasks(dates[i], routes, windows)
  {
    assert dates[..i + 1][..i] == dates[..i];
    assert routes[..|routes|] == routes;
  }

  /** One day-range string list: the `isoDate` text of each day. */
  function DateTexts(days: seq<int>, isoDate: int -> string): (texts: seq<string>)
    ensures |texts| == |days| && forall i :: 0 <= i < |days| ==> texts[i] == isoDate(days[i])
  {
    if days == [] then [] else DateTexts(days[..|days| - 1], isoDate) + [isoDate(days[|days| - 1])]
  }

  /** `_generate_task_dag`: the planned tasks from `date_start` to `date_end`. */
  method GenerateTaskDag(start: int, end: int, isoDate: int -> string, routes: seq<Route>, windows: seq<Window>)
    returns (tasks: seq<Task>)
    ensures exists days :: IsDayRange(days, start, end) && tasks == Plan(DateTexts(days, isoDate), routes, windows)
  {
    var days := DateRange(start, end);
    tasks := GenerateTasks(DateTexts(days, isoDate), routes, windows);
  }

  /** The days from `start` to `end`, both included, in order. */
  predicate IsDayRange(days: seq<int>, start: int, end: int) {
    |days| == (if start <= end then end - start + 1 else 0) &&
    forall i :: 0 <= i < |days| ==> days[i] == start + i
  }

  // ---- Shape of the plan ----

  lemma RouteTasksShape(date: string, route: Route, windows: seq<Window>)
    ensures |RouteTasks(date, route, windows)| == |windows|
    ensures forall k :: 0 <= k < |windows| ==> RouteTasks(date, route, windows)[k] == MakeTask(date, route, windows[k])
  {
    if windows != [] {
      RouteTasksShape(date, route, windows[..|windows| - 1]);
    }
  }

  lemma {:induction false} DayTasksLength(date: string, routes: seq<Route>, windows: seq<Window>)
    ensures |DayTasks(date, routes, windows)| == |routes| * |windows|
  {
    if routes != [] {
      var n := |routes| - 1;
      DayTasksLength(date, routes[..n], windows);
      RouteTasksShape(date, routes[n], windows);
      MulSucc(n, |windows|);
    }
  }

  /** Task `off + k` of a day, where `off == j * |windows|`, is the task for route `j` and window `k`. */
  lemma {:induction false} DayTasksAt(date: string, routes: seq<Route>, windows: seq<Window>, j: int, k: int, off: int)
    requires 0 <= j < |routes| && 0 <= k < |windows| && off == j * |windows|
    ensures off + k < |DayTasks(date, routes, windows)|
    ensures DayTasks(date, routes, windows)[off + k] == MakeTask(date, routes[j], windows[k])
  {
    var n := |routes| - 1;
    var front := DayTasks(date, routes[..n], windows);
    assert DayTasks(date, routes, windows) == front + RouteTasks(date, routes[n], windows);
    DayTasksLength(date, routes[..n], windows);
    RouteTasksShape(date, routes[n], windows);
    if j < n {
      DayTasksAt(date, routes[..n], windows, j, k, off);
      assert routes[..n][j] == routes[j];
    } else {
      assert off == |front|;
    }
  }

  /** Row `j` of a grid with rows of `w` cells starts inside the grid. */
  lemma RowBound(j: int, k: int, h: int, w: int)
    requires 0 <= j < h && 0 <= k < w
    ensures j * w + k < h * w
  {
    assert (j + 1) * w <= h * w by {
      MulMono(j + 1, h, w);
    }
  }

  lemma MulSucc(n: int, c: int)
    ensures (n + 1) * c == n * c + c
  {
  }

  lemma MulMono(a: int, b: int, c: nat)
    requires a <= b
    ensures a * c <= b * c
  {
  }

  lemma {:induction false} PlanLength(dates: seq<string>, routes: seq<Route>, windows: seq<Window>)
    ensures |Plan(dates, routes, windows)| == |dates| * (|routes| * |windows|)
  {
    if dates != [] {
      var n := |dates| - 1;
      PlanLength(dates[..n], routes, windows);
      DayTasksLength(dates[n], routes, windows);
      MulSucc(n, |routes| * |windows|);
    }
  }

  /** Task `off + m` of the plan, where `off == i * cells`, is task `m` of date `i`. */
  lemma {:induction false} PlanAt(dates: seq<string>, routes: seq<Route>, windows: seq<Window>, i: int, m: int, off: int, cells: int)
    requires cells == |routes| * |windows| && 0 <= i < |dates| && 0 <= m < cells && off == i * cells
    ensures |DayTasks(dates[i], routes, windows)| == cells
    ensures off + m < |Plan(dates, routes, windows)|
    ensures Plan(dates, routes, windows)[off + m] == DayTasks(dates[i], routes, windows)[m]
  {
    var n := |dates| - 1;
    var front := Plan(dates[..n], routes, windows);
    assert Plan(dates, routes, windows) == front + DayTasks(dates[n], routes, windows);
    PlanLength(dates[..n], routes, windows);
    DayTasksLength(dates[i], routes, windows);
    if i < n {
      PlanAt(dates[..n], routes, windows, i, m, off, cells);
      assert dates[..n][i] == dates[i];
    } else {
      assert off == |front|;
    }
  }

  /**
    The plan is ordered date-major, then by route, then by window: task
    `(i * |routes| + j) * |windows| + k` is the task for date `i`, route `j`
    and window `k`.
  */
  lemma PlanTaskAt(dates: seq<string>, routes: seq<Route>, windows: seq<Window>, i: int, j: int, k: int)
    requires 0 <= i < |dates| && 0 <= j < |routes| && 0 <= k < |windows|
    ensures (i * |routes| + j) * |windows| + k < |Plan(dates, routes, windows)|
    ensures Plan(dates, routes, windows)[(i * |routes| + j) * |windows| + k] == MakeTask(dates[i], routes[j], windows[k])
  {
    GridPosition(i, j, k, |routes|, |windows|);
    PlanTaskAtOffset(dates, routes, windows, i, j, k, (i * |routes| + j) * |windows| + k);
  }

  /** `PlanTaskAt` with the position written as `off + m`, the day's offset plus the task within the day. */
  lemma PlanTaskAtOffset(dates: seq<string>, routes: seq<Route>, windows: seq<Window>, i: int, j: int, k: int, idx: int)
    requires 0 <= i < |dates| && 0 <= j < |routes| && 0 <= k < |windows|
    requires 0 <= j * |windows| + k < |routes| * |windows|
    requires idx == i * (|routes| * |windows|) + (j * |windows| + k)
    ensures idx < |Plan(dates, routes, windows)|
    ensures Plan(dates, routes, windows)[idx] == MakeTask(dates[i], routes[j], windows[k])
  {
    var cells := |routes| * |windows|;
    PlanAt(dates, routes, windows, i, j * |windows| + k, i * cells, cells);
    DayTasksAt(dates[i], routes, windows, j, k, j * |windows|);
  }

  /** Cell `(j, k)` of row `i` in a grid of `h` rows of `w` cells, counted row by row. */
  lemma GridPosition(i: int, j: int, k: int, h: int, w: int)
    requires 0 <= j < h && 0 <= k < w
    ensures 0 <= j * w + k < h * w
    ensures (i * h + j) * w + k == i * (h * w) + (j * w + k)
  {
    RowBound(j, k, h, w);
  }

  // ---- Task keys ----

  /** The task key is its five fields joined by underscores. */
  lemma KeyIsJoin(date: string, origin: string, dest: string, fromTime: string, toTime: string)
    ensures TaskKey(date, origin, dest, fromTime, toTime) == Join([date, origin, dest, fromTime, toTime])
  {
    var parts := [date, origin, dest, fromTime, toTime];
    assert Join(parts[4..]) == toTime;
    assert Join(parts[3..]) == fromTime + "_" + toTime;
    assert Join(parts[2..]) == dest + "_" + (fromTime + "_" + toTime);
    assert Join(parts[1..]) == origin + "_" + (dest + "_" + (fromTime + "_" + toTime));
  }

  lemma {:induction false} SplitJoin(parts: seq<string>)
    requires |parts| > 0
    requires forall i :: 0 <= i < |parts| ==> '_' !in parts[i]
    ensures Split(Join(parts), '_') == parts
  {
    if |parts| > 1 {
      SplitJoin(parts[1..]);
      SplitAfterSeparator(parts[0], Join(parts[1..]));
    }
  }

  /** Splitting `a + "_" + rest` where `a` has no underscore peels off `a`. */
  lemma SplitAfterSeparator(a: string, rest: string)
    requires '_' !in a
    ensures Split(a + "_" + rest, '_') == [a] + Split(rest, '_')
  {
    var s := a + "_" + rest;
    assert s[|a|] == '_';
    var i := FirstIndex(s, '_');
    assert s[..|a|] == a && s[|a| + 1..] == rest;
  }

  /** A key whose fields contain no underscore splits back into its five fields. */
  lemma KeyFields(date: string, origin: string, dest: string, fromTime: string, toTime: string)
    requires '_' !in date && '_' !in origin && '_' !in dest && '_' !in fromTime && '_' !in toTime
    ensures Split(TaskKey(date, origin, dest, fromTime, toTime), '_') == [date, origin, dest, fromTime, toTime]
  {
    KeyIsJoin(date, origin, dest, fromTime, toTime);
    SplitJoin([date, origin, dest, fromTime, toTime]);
  }

  /**
    Tasks whose fields contain no underscore have distinct keys unless they
    have the same date, origin, destination and window.
  */
  lemma KeyInjective(d1: string, o1: string, e1: string, f1: string, t1: string,
                     d2: string, o2: string, e2: string, f2: string, t2: string)
    requires '_' !in d1 && '_' !in o1 && '_' !in e1 && '_' !in f1 && '_' !in t1
    requires '_' !in d2 && '_' !in o2 && '_' !in e2 && '_' !in f2 && '_' !in t2
    requires TaskKey(d1, o1, e1, f1, t1) == TaskKey(d2, o2, e2, f2, t2)
    ensures d1 == d2 && o1 == o2 && e1 == e2 && f1 == f2 && t1 == t2
  {
    KeyFields(d1, o1, e1, f1, t1);
    KeyFields(d2, o2, e2, f2, t2);
    var p1, p2 := [d1, o1, e1, f1, t1], [d2, o2, e2, f2, t2];
    assert p1 == p2;
    assert p1[0] == p2[0] && p1[1] == p2[1] && p1[2] == p2[2] && p1[3] == p2[3] && p1[4] == p2[4];
  }
}
