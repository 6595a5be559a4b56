/**
  The fixed route table, the eight three-hour time buckets and the day-type
  tag sent with every metrics query (routes.py). The same weekday rule is
  `MonthOrchestrator._get_days_tag`.
*/
module Routes {
  import opened Common
  import opened Hhmm

  /** An (origin, destination) pair of station codes. */
  datatype Route = Route(origin: string, dest: string)

  const ROUTES: seq<Route> := [
    Route("VIC", "GTW"), Route("PAD", "HXX"), Route("PAD", "HWX"), Route("PAD", "HWY"),
    Route("EXD", "PAD"), Route("PLY", "PAD"), Route("PAD", "BRI")
  ]

  /** A time window as a pair of HHMM strings. */
  datatype Window = Window(fromTime: string, toTime: string)

  /** Both ends of the window are well-formed times. */
  predicate ValidWindow(w: Window) {
    ValidHhmm(w.fromTime) && ValidHhmm(w.toTime)
  }

  const TIME_BUCKETS: seq<Window> := [
    Window("0000", "0259"), Window("0300", "0559"), Window("0600", "0859"), Window("0900", "1159"),
    Window("1200", "1459"), Window("1500", "1759"), Window("1800", "2059"), Window("2100", "2359")
  ]

  /** Python `date.weekday()`: 0 is Monday, 6 is Sunday. */
  type Weekday = d: int | 0 <= d <= 6

  /** The `days` field of a metrics query for a date falling on `weekday`. */
  function DaysTag(weekday: Weekday): (tag: string)
    ensures tag in {"WEEKDAY", "SATURDAY", "SUNDAY"}
    ensures tag == "WEEKDAY" <==> weekday <= 4
    ensures tag == "SATURDAY" <==> weekday == 5
    ensures tag == "SUNDAY" <==> weekday == 6
  {
    if weekday <= 4 then "WEEKDAY" else if weekday == 5 then "SATURDAY" else "SUNDAY"
  }

  /** Seven distinct routes, none of which starts where it ends. */
  lemma RoutesWellFormed()
    ensures |ROUTES| == 7
    ensures forall i, j :: 0 <= i < j < |ROUTES| ==> ROUTES[i] != ROUTES[j]
    ensures forall i :: 0 <= i < |ROUTES| ==> ROUTES[i].origin != ROUTES[i].dest
  {
  }

  /** Bucket `i` is well-formed and runs from minute 180*i to minute 180*i + 179. */
  predicate BucketSpans(i: int)
    requires 0 <= i < |TIME_BUCKETS|
  {
    var w := TIME_BUCKETS[i];
    ValidWindow(w) && Minutes(w.fromTime) == 180 * i && Minutes(w.toTime) == 180 * i + 179
  }

  lemma EarlyBuckets()
    ensures forall i :: 0 <= i < 4 ==> BucketSpans(i)
  {
  }

  lemma LateBuckets()
    ensures forall i :: 4 <= i < 8 ==> BucketSpans(i)
  {
  }

  /**
    The buckets tile the day: bucket `i` runs from minute 180*i to minute
    180*i + 179, so the first starts at 0000, the last ends at 2359, each
    starts one minute after its predecessor ends, and each spans 179 minutes.
  */
  lemma TimeBucketsTileTheDay()
    ensures |TIME_BUCKETS| == 8
    ensures forall i :: 0 <= i < 8 ==> BucketSpans(i)
  {
    EarlyBuckets();
    LateBuckets();
  }
}
