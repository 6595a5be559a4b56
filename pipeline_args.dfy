/**
  The argument handling and the day loop of the two pipelines
  (pipeline.py and routely-buffer-spike/pipeline.py, whose date list,
  route and time checks and exit decision are the same code): recent dates,
  `--days`, `--route`, `--from_time`/`--to_time`, `--toc`, the totals of the
  day loop and the exit status.

  Dates are day numbers; `today` stands for `datetime.now().date()`.
*/
module PipelineArgs {
  import opened Common
  import opened Hhmm
  import opened Routes
  import opened RidRecords

  // ---- Dates ----

  /** `get_recent_dates(num_days)`: yesterday first, one day earlier each step. */
  method RecentDates(today: int, numDays: int) returns (dates: seq<int>)
    ensures |dates| == if numDays < 0 then 0 else numDays
    ensures forall i :: 0 <= i < |dates| ==> dates[i] == today - 1 - i
  {
    dates := [];
    var current := today - 1;
    for i := 0 to if numDays < 0 then 0 else numDays
      invariant |dates| == i && current == today - 1 - i
      invariant forall k :: 0 <= k < i ==> dates[k] == today - 1 - k
    {
      dates := dates + [current];
      current := current - 1;
    }
  }

  /** The dates of a run: the one `--date`, else `--days` recent dates; `--days` below 1 exits with status 1. */
  method DatesArg(date: Option<int>, days: int, today: int) returns (r: Result<seq<int>>)
    ensures date.Some? ==> r == Ok([date.value])
    ensures date.None? ==> (r.Err? <==> days < 1)
    ensures date.None? && r.Ok? ==> |r.value| == days && forall i :: 0 <= i < days ==> r.value[i] == today - 1 - i
    ensures r.Ok? ==> |r.value| >= 1
  {
    if date.Some? {
      return Ok([date.value]);
    }
    if days < 1 {
      return Err("Error: --days must be at least 1");
    }
    var dates := RecentDates(today, days);
    return Ok(dates);
  }

  /** Consecutive recent dates are one day apart and all before today. */
  lemma RecentDatesDescend(today: int, dates: seq<int>)
    requires forall i :: 0 <= i < |dates| ==> dates[i] == today - 1 - i
    ensures forall i :: 0 <= i < |dates| - 1 ==> dates[i + 1] == dates[i] - 1
    ensures forall i, j :: 0 <= i < j < |dates| ==> dates[j] < dates[i] < today
  {
  }

  // ---- --route ----

  const ROUTE_COMMA_ERROR := "Route must contain a comma (format: 'ORIGIN,DEST')"
  const ROUTE_PARTS_ERROR := "Route must have exactly 2 parts (format: 'ORIGIN,DEST')"

  /** `--route`: absent or empty means all routes; else two comma-separated codes, stripped and upper-cased. */
  function RouteArg(route: Option<string>): (r: Result<Option<Route>>)
    ensures (route.None? || route.value == "") ==> r == Ok(None)
    ensures route.Some? && route.value != "" && ',' !in route.value ==> r == Err(ROUTE_COMMA_ERROR)
    ensures route.Some? && ',' in route.value ==>
              (r.Ok? <==> |Split(route.value, ',')| == 2) &&
              (r.Err? ==> r == Err(ROUTE_PARTS_ERROR))
    ensures r.Ok? && r.value.Some? ==>
              var parts := Split(route.value, ',');
              |parts| == 2 && r.value.value == Route(Upper(Strip(parts[0])), Upper(Strip(parts[1])))
  {
    if route.None? || route.value == "" then Ok(None)
    else if ',' !in route.value then Err(ROUTE_COMMA_ERROR)
    else
      var parts := Split(route.value, ',');
      if |parts| != 2 then Err(ROUTE_PARTS_ERROR)
      else Ok(Some(Route(Upper(Strip(parts[0])), Upper(Strip(parts[1])))))
  }

  /** Splitting `o + "," + d` where neither part has a comma gives back the two parts. */
  lemma SplitPair(o: string, d: string)
    requires ',' !in o && ',' !in d
    ensures Split(o + "," + d, ',') == [o, d]
  {
    var s := o + "," + d;
    assert s[|o|] == ',';
    var i := FirstIndex(s, ',');
    assert s[..|o|] == o;
    assert s[..i] == o && s[i + 1..] == d;
  }

  /** A route written `ORIG,DEST` with codes free of commas and surrounding blanks reads back as that route, upper-cased. */
  lemma RouteArgReads(o: string, d: string)
    requires ',' !in o && ',' !in d && Strip(o) == o && Strip(d) == d
    ensures RouteArg(Some(o + "," + d)) == Ok(Some(Route(Upper(o), Upper(d))))
  {
    SplitPair(o, d);
    assert (o + "," + d)[|o|] == ',';
  }

  // ---- --from_time / --to_time ----

  const BOTH_TIMES_ERROR := "Both --from_time and --to_time must be provided together"

  /** The value of four digits is the hour field times 100 plus the minute field. */
  lemma FourDigitValue(s: string)
    requires FourDigits(s)
    ensures DigitsValue(s) == HourField(s) * 100 + MinuteField(s)
  {
    var a, b, c := s[..1], s[..2], s[..3];
    assert a[..0] == [];
    assert DigitsValue(a) == Digit(s[0]);
    assert b[..1] == a;
    assert DigitsValue(b) == Digit(s[0]) * 10 + Digit(s[1]);
    assert c[..2] == b;
    assert DigitsValue(c) == (Digit(s[0]) * 10 + Digit(s[1])) * 10 + Digit(s[2]);
    assert s[..3] == c;
  }

  /** The check of a time argument that fails first. */
  datatype TimeFault = NotFourDigits | OutOfRange | BadField

  /** The message raised for a failed check of the argument `name`. */
  function FaultMessage(f: TimeFault, name: string): string {
    match f
    case NotFourDigits => name + " must be 4 digits (HHMM format)"
    case OutOfRange => name + " must be between 0000 and 2359"
    case BadField => name + " contains invalid hour or minute"
  }

  /** The first check a time argument fails, or `None` when it passes them all. */
  function TimeArgFault(t: string): (e: Option<TimeFault>)
    ensures e.None? <==> ValidHhmm(t)
    ensures e == Some(NotFourDigits) <==> !FourDigits(t)
    ensures e == Some(OutOfRange) <==> FourDigits(t) && HourField(t) * 100 + MinuteField(t) > 2359
    ensures e == Some(BadField) <==> FourDigits(t) && HourField(t) * 100 + MinuteField(t) <= 2359 && MinuteField(t) >= 60
  {
    if !IsDigitString(t) || |t| != 4 then Some(NotFourDigits)
    else
      var hhmm := DigitsValue(t);
      FourDigitValue(t);
      if !(0 <= hhmm <= 2359) then Some(OutOfRange)
      else
        assert hhmm / 100 == HourField(t) && hhmm % 100 == MinuteField(t);
        if hhmm / 100 >= 24 || hhmm % 100 >= 60 then Some(BadField)
        else None
  }

  /** The time window of a run: both times, checked `from_time` first, or neither. */
  function WindowArg(fromTime: Option<string>, toTime: Option<string>): (r: Result<Option<Window>>)
    ensures fromTime.None? && toTime.None? ==> r == Ok(None)
    ensures fromTime.None? != toTime.None? ==> r == Err(BOTH_TIMES_ERROR)
    ensures fromTime.Some? && toTime.Some? ==>
              (r.Ok? <==> ValidHhmm(fromTime.value) && ValidHhmm(toTime.value)) &&
              (r.Ok? ==> r.value == Some(Window(fromTime.value, toTime.value))) &&
              (!ValidHhmm(fromTime.value) ==> r == Err(FaultMessage(TimeArgFault(fromTime.value).value, "from_time"))) &&
              (ValidHhmm(fromTime.value) && !ValidHhmm(toTime.value) ==>
                 r == Err(FaultMessage(TimeArgFault(toTime.value).value, "to_time")))
  {
    if fromTime.Some? && toTime.Some? then
      match TimeArgFault(fromTime.value)
      case Some(f) => Err(FaultMessage(f, "from_time"))
      case None =>
        match TimeArgFault(toTime.value)
        case Some(f) => Err(FaultMessage(f, "to_time"))
        case None => Ok(Some(Window(fromTime.value, toTime.value)))
    else if fromTime.Some? || toTime.Some? then Err(BOTH_TIMES_ERROR)
    else Ok(None)
  }

  /** Every time of the day written as HHMM passes the checks. */
  lemma FormattedTimesPass(m: int)
    requires 0 <= m < 1440
    ensures TimeArgFault(MinutesToHhmm(m)).None?
  {
    FormatThenParse(m);
  }

  /** "2400" is out of range, while "0960" is in range with a bad minute field. */
  lemma TimeArgBoundaries()
    ensures TimeArgFault("2400") == Some(OutOfRange)
    ensures TimeArgFault("0960") == Some(BadField)
  {
    assert FourDigits("2400") && HourField("2400") == 24 && MinuteField("2400") == 0;
    assert FourDigits("0960") && HourField("0960") == 9 && MinuteField("0960") == 60;
  }

  // ---- --toc ----

  const TOC_ERROR := "toc must be gw|xr|both|auto"

  /** `resolve_tocs`: GW, XR, or both in that order; any other mode raises. */
  function ResolveTocs(mode: string): (r: Result<seq<string>>)
    ensures r.Err? <==> mode !in {"gw", "xr", "both", "auto"}
    ensures r.Err? ==> r.msg == TOC_ERROR
    ensures r.Ok? ==> |r.value| >= 1 && (forall i :: 0 <= i < |r.value| ==> r.value[i] in {"GW", "XR"})
    ensures r.Ok? ==> forall i, j :: 0 <= i < j < |r.value| ==> r.value[i] != r.value[j]
    ensures mode == "gw" ==> r == Ok(["GW"])
    ensures mode == "xr" ==> r == Ok(["XR"])
    ensures mode in {"both", "auto"} ==> r == Ok(["GW", "XR"])
  {
    if mode == "gw" then Ok(["GW"])
    else if mode == "xr" then Ok(["XR"])
    else if mode == "both" then Ok(["GW", "XR"])
    else if mode == "auto" then Ok(["GW", "XR"])
    else Err(TOC_ERROR)
  }

  // ---- The day loop and the exit status ----

  /** The number of days that returned a summary. */
  function OkDays(results: seq<Result<DaySummary>>): (n: nat)
    ensures n <= |results|
  {
    if results == [] then 0
    else OkDays(results[..|results| - 1]) + (if results[|results| - 1].Ok? then 1 else 0)
  }

  /** The sum of `rids` over the days that returned a summary. */
  function TotalRids(results: seq<Result<DaySummary>>): nat {
    if results == [] then 0
    else TotalRids(results[..|results| - 1]) + (if results[|results| - 1].Ok? then results[|results| - 1].value.rids else 0)
  }

  /** The sum of `rows` over the days that returned a summary. */
  function TotalRows(results: seq<Result<DaySummary>>): nat {
    if results == [] then 0
    else TotalRows(results[..|results| - 1]) + (if results[|results| - 1].Ok? then results[|results| - 1].value.rows else 0)
  }

  /** The process status at the end: 1 when no day or not every day succeeded, else 0. */
  function ExitStatus(successfulDays: nat, numDates: nat): (code: int)
    ensures code == 0 || code == 1
    ensures code == 0 <==> successfulDays != 0 && successfulDays >= numDates
  {
    if successfulDays == 0 then 1
    else if successfulDays < numDates then 1
    else 0
  }

  /** All days succeed exactly when every day returned a summary. */
  lemma {:induction false} AllOkDays(results: seq<Result<DaySummary>>)
    ensures OkDays(results) == |results| <==> forall i :: 0 <= i < |results| ==> results[i].Ok?
    decreases |results|
  {
    if results != [] {
      var front := results[..|results| - 1];
      AllOkDays(front);
      assert forall i :: 0 <= i < |front| ==> front[i] == results[i];
    }
  }

  /** The run exits 0 exactly when there was a date and every date's ingest returned a summary. */
  lemma ExitZeroIffAllOk(results: seq<Result<DaySummary>>)
    ensures ExitStatus(OkDays(results), |results|) == 0 <==>
              |results| > 0 && forall i :: 0 <= i < |results| ==> results[i].Ok?
  {
    AllOkDays(results);
  }

  /** The day loop of pipeline.py: a day whose ingest raises is reported and skipped. */
  method RunDays(dates: seq<int>, ingest: int -> Result<DaySummary>)
    returns (successfulDays: nat, totalRids: nat, totalRows: nat, exitCode: int)
    ensures var results := seq(|dates|, i requires 0 <= i < |dates| => ingest(dates[i]));
            successfulDays == OkDays(results) && totalRids == TotalRids(results) && totalRows == TotalRows(results) &&
            exitCode == ExitStatus(successfulDays, |dates|)
  {
    ghost var results := seq(|dates|, i requires 0 <= i < |dates| => ingest(dates[i]));
    successfulDays, totalRids, totalRows := 0, 0, 0;
    for d := 0 to |dates|
      invariant successfulDays == OkDays(results[..d])
      invariant totalRids == TotalRids(results[..d]) && totalRows == TotalRows(results[..d])
    {
      assert results[..d + 1][..d] == results[..d];
      var result := ingest(dates[d]);
      if result.Ok? {
        totalRids := totalRids + result.value.rids;
        totalRows := totalRows + result.value.rows;
        successfulDays := successfulDays + 1;
      }
    }
    assert results[..|dates|] == results;
    exitCode := ExitStatus(successfulDays, |dates|);
  }
}
