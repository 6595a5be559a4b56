/**
  The one-off batch script (run_batch.py): the HHMM reader with its signed
  delay, the RID list of a metrics answer, and the CSV row of each detail
  answer. The POSTs are parameters: the metrics answer, and the oracle
  `details(rid)`; the fixed route, dates, sleeps and CSV writing are not
  part of this model.

  `hhmm_to_minutes` reads the LAST four characters once the colons are
  removed, so an `HH:MM:SS` time is read as `MM * 60 + SS`. The delay and the
  CSV rows use that reading, `HhmmToMinutesAsWritten`, as the script does;
  `HhmmToMinutes` is the first-four-characters reading its docstring
  describes, with what it reads proved about it.
*/
module RunBatch {
  import opened Common
  import opened Hhmm
  import opened SliceTask

  /** The text of the `ValueError` that `int()` raises on a non-numeric field. */
  const INT_ERROR := "invalid literal for int() with base 10"

  /** `s.replace(":", "")`. */
  function RemoveColons(s: string): (r: string)
    ensures ':' !in r && |r| <= |s|
  {
    if s == [] then []
    else (if s[0] == ':' then [] else [s[0]]) + RemoveColons(s[1..])
  }

  /** The digits of a time once stripped and its colons removed. */
  function Compact(s: string): string {
    RemoveColons(Strip(s))
  }

  /**
    `hhmm_to_minutes` as written: `None` for a missing or empty value or
    fewer than four compact characters, else `int(s[-4:-2]) * 60 + int(s[-2:])`;
    `Err` where `int()` raises.
  */
  function HhmmToMinutesAsWritten(s: Option<string>): (r: Result<Option<int>>)
    ensures s.None? || s.value == "" || |Compact(s.value)| < 4 ==> r == Ok(None)
  {
    if s.None? || s.value == "" then Ok(None)
    else
      var t := Compact(s.value);
      if |t| < 4 then Ok(None)
      else
        match Combine(PyInt(t[|t| - 4..|t| - 2]), PyInt(t[|t| - 2..]))
        case Some(m) => Ok(Some(m))
        case None => Err(INT_ERROR)
  }

  /** The corrected reader: the hours and minutes are the first four compact characters. */
  function HhmmToMinutes(s: Option<string>): (r: Result<Option<int>>)
    ensures s.None? || s.value == "" || |Compact(s.value)| < 4 ==> r == Ok(None)
  {
    if s.None? || s.value == "" then Ok(None)
    else
      var t := Compact(s.value);
      if |t| < 4 then Ok(None)
      else
        match Combine(PyInt(t[..2]), PyInt(t[2..4]))
        case Some(m) => Ok(Some(m))
        case None => Err(INT_ERROR)
  }

  /** Two ASCII digits. */
  predicate TwoDigits(s: string) {
    |s| == 2 && IsDigit(s[0]) && IsDigit(s[1])
  }

  function TwoDigitValue(s: string): int
    requires TwoDigits(s)
  {
    Digit(s[0]) * 10 + Digit(s[1])
  }

  /** Colons are dropped and nothing else changes. */
  lemma RemoveColonsAppend(a: string, b: string)
    ensures RemoveColons(a + b) == RemoveColons(a) + RemoveColons(b)
  {
    if a != [] {
      var head := if a[0] == ':' then [] else [a[0]];
      assert (a + b)[0] == a[0] && (a + b)[1..] == a[1..] + b;
      calc {
        RemoveColons(a + b);
        head + RemoveColons(a[1..] + b);
        { RemoveColonsAppend(a[1..], b); }
        head + (RemoveColons(a[1..]) + RemoveColons(b));
        (head + RemoveColons(a[1..])) + RemoveColons(b);
      }
    } else {
      assert a + b == b;
    }
  }

  lemma RemoveColonsOfDigits(s: string)
    requires AllDigits(s)
    ensures RemoveColons(s) == s
  {
    if s != [] {
      RemoveColonsOfDigits(s[1..]);
    }
  }

  /** A time written with digits and colons has nothing to strip. */
  lemma StripOfTime(s: string)
    requires |s| > 0 && IsDigit(s[0]) && IsDigit(s[|s| - 1])
    ensures Strip(s) == s
  {
  }

  /** Removing the colons around a colon joins the two sides. */
  lemma RemoveColonsJoin(x: string, y: string)
    ensures RemoveColons(x + ":" + y) == RemoveColons(x) + RemoveColons(y)
  {
    RemoveColonsAppend(x + ":", y);
    RemoveColonsAppend(x, ":");
  }

  /** The compact form of `HH:MM` is `HHMM`. */
  lemma CompactHm(h: string, m: string)
    requires TwoDigits(h) && TwoDigits(m)
    ensures Compact(h + ":" + m) == h + m
  {
    StripOfTime(h + ":" + m);
    RemoveColonsJoin(h, m);
    RemoveColonsOfDigits(h);
    RemoveColonsOfDigits(m);
  }

  /** The compact form of `HH:MM:SS` is `HHMMSS`. */
  lemma CompactHms(h: string, m: string, sec: string)
    requires TwoDigits(h) && TwoDigits(m) && TwoDigits(sec)
    ensures Compact(h + ":" + m + ":" + sec) == h + m + sec
  {
    var hm := h + ":" + m;
    StripOfTime(hm + ":" + sec);
    RemoveColonsJoin(hm, sec);
    RemoveColonsJoin(h, m);
    RemoveColonsOfDigits(h);
    RemoveColonsOfDigits(m);
    RemoveColonsOfDigits(sec);
  }

  /** The compact form of `HHMM` is itself. */
  lemma CompactHhmm(h: string, m: string)
    requires TwoDigits(h) && TwoDigits(m)
    ensures Compact(h + m) == h + m
  {
    StripOfTime(h + m);
    RemoveColonsOfDigits(h + m);
  }

  /** As written, `HH:MM:SS` is read as the minutes and seconds: `MM * 60 + SS`. */
  lemma AsWrittenReadsSeconds(h: string, m: string, sec: string)
    requires TwoDigits(h) && TwoDigits(m) && TwoDigits(sec)
    ensures HhmmToMinutesAsWritten(Some(h + ":" + m + ":" + sec)) == Ok(Some(TwoDigitValue(m) * 60 + TwoDigitValue(sec)))
  {
    CompactHms(h, m, sec);
    var t := h + m + sec;
    assert t[|t| - 4..|t| - 2] == m && t[|t| - 2..] == sec;
    PyIntOfTwoDigits(m);
    PyIntOfTwoDigits(sec);
  }

  /** The fields of `12:34:56`. */
  lemma NoonParts()
    ensures "12:34:56" == "12" + ":" + "34" + ":" + "56"
    ensures TwoDigits("12") && TwoDigits("34") && TwoDigits("56")
    ensures TwoDigitValue("12") == 12 && TwoDigitValue("34") == 34 && TwoDigitValue("56") == 56
  {
  }

  /** `12:34:56`, 34 minutes past noon, is read as minute 2096 of the day. */
  lemma AsWrittenNoonExample()
    ensures HhmmToMinutesAsWritten(Some("12:34:56")) == Ok(Some(2096))
  {
    NoonParts();
    AsWrittenReadsSeconds("12", "34", "56");
  }

  /** Corrected, `12:34:56` is read as minute 754. */
  lemma CorrectedNoonExample()
    ensures HhmmToMinutes(Some("12:34:56")) == Ok(Some(754))
  {
    NoonParts();
    CorrectedReadsHms("12", "34", "56");
  }

  /** Corrected, `HH:MM:SS` is read as `HH * 60 + MM`. */
  lemma CorrectedReadsHms(h: string, m: string, sec: string)
    requires TwoDigits(h) && TwoDigits(m) && TwoDigits(sec)
    ensures HhmmToMinutes(Some(h + ":" + m + ":" + sec)) == Ok(Some(TwoDigitValue(h) * 60 + TwoDigitValue(m)))
  {
    PyIntOfTwoDigits(h);
    PyIntOfTwoDigits(m);
    CompactHms(h, m, sec);
    var t := h + m + sec;
    assert t[..2] == h && t[2..4] == m;
  }

  /** Corrected, `HH:MM` is read as `HH * 60 + MM`. */
  lemma CorrectedReadsHm(h: string, m: string)
    requires TwoDigits(h) && TwoDigits(m)
    ensures HhmmToMinutes(Some(h + ":" + m)) == Ok(Some(TwoDigitValue(h) * 60 + TwoDigitValue(m)))
  {
    PyIntOfTwoDigits(h);
    PyIntOfTwoDigits(m);
    CompactHm(h, m);
    var u := h + m;
    assert u[..2] == h && u[2..4] == m;
  }

  /** Corrected, `HHMM` is read as `HH * 60 + MM`. */
  lemma CorrectedReadsHhmm(h: string, m: string)
    requires TwoDigits(h) && TwoDigits(m)
    ensures HhmmToMinutes(Some(h + m)) == Ok(Some(TwoDigitValue(h) * 60 + TwoDigitValue(m)))
  {
    PyIntOfTwoDigits(h);
    PyIntOfTwoDigits(m);
    CompactHhmm(h, m);
    var u := h + m;
    assert u[..2] == h && u[2..4] == m;
  }

  /** Corrected, `HH:MM:SS`, `HH:MM` and `HHMM` are all read as `HH * 60 + MM`. */
  lemma CorrectedReadsHoursMinutes(h: string, m: string, sec: string)
    requires TwoDigits(h) && TwoDigits(m) && TwoDigits(sec)
    ensures var minutes := Ok(Some(TwoDigitValue(h) * 60 + TwoDigitValue(m)));
            HhmmToMinutes(Some(h + ":" + m + ":" + sec)) == minutes &&
            HhmmToMinutes(Some(h + ":" + m)) == minutes &&
            HhmmToMinutes(Some(h + m)) == minutes
  {
    CorrectedReadsHms(h, m, sec);
    CorrectedReadsHm(h, m);
    CorrectedReadsHhmm(h, m);
  }

  /** On a four-character compact time the two readings agree, and a valid HHMM reads as its minutes of the day. */
  lemma ReadingsAgreeOnFour(s: string)
    requires |Compact(s)| == 4
    ensures HhmmToMinutesAsWritten(Some(s)) == HhmmToMinutes(Some(s))
    ensures ValidHhmm(s) ==> HhmmToMinutes(Some(s)) == Ok(Some(Minutes(s)))
  {
    var t := Compact(s);
    assert t[|t| - 4..|t| - 2] == t[..2] && t[|t| - 2..] == t[2..4];
    if ValidHhmm(s) {
      ValidHhmmReads(s);
    }
  }

  /** A valid HHMM reads as its minutes of the day. */
  lemma ValidHhmmReads(s: string)
    requires ValidHhmm(s)
    ensures HhmmToMinutes(Some(s)) == Ok(Some(Minutes(s)))
  {
    StripOfTime(s);
    RemoveColonsOfDigits(s);
    var t := Compact(s);
    assert t == s;
    DigitsOfTime(s);
    assert Combine(PyInt(t[..2]), PyInt(t[2..4])) == ParseHhmm(s) == Some(Minutes(s));
  }

  /**
    `compute_delay_minutes`: actual minus planned, negative for an early
    arrival; `None` unless both times read. Both are read as written, from
    their last four compact characters.
  */
  function ComputeDelayMinutes(gbttPta: Option<string>, actualTa: Option<string>): (r: Result<Option<int>>)
    ensures r.Ok? && r.value.Some? <==>
              HhmmToMinutesAsWritten(gbttPta).Ok? && HhmmToMinutesAsWritten(gbttPta).value.Some? &&
              HhmmToMinutesAsWritten(actualTa).Ok? && HhmmToMinutesAsWritten(actualTa).value.Some?
    ensures r.Ok? && r.value.Some? ==>
              r.value.value == HhmmToMinutesAsWritten(actualTa).value.value - HhmmToMinutesAsWritten(gbttPta).value.value
    ensures r.Err? <==> HhmmToMinutesAsWritten(gbttPta).Err? || HhmmToMinutesAsWritten(actualTa).Err?
  {
    var p := HhmmToMinutesAsWritten(gbttPta);
    if p.Err? then Err(p.msg)
    else
      var a := HhmmToMinutesAsWritten(actualTa);
      if a.Err? then Err(a.msg)
      else if p.value.None? || a.value.None? then Ok(None)
      else Ok(Some(a.value.value - p.value.value))
  }

  /** An arrival read before the planned time gives a negative delay: the batch script does not clamp. */
  lemma EarlyArrivalNegative(planned: Option<string>, actual: Option<string>, p: int, a: int)
    requires HhmmToMinutesAsWritten(planned) == Ok(Some(p)) && HhmmToMinutesAsWritten(actual) == Ok(Some(a))
    requires a < p
    ensures ComputeDelayMinutes(planned, actual) == Ok(Some(a - p)) && a - p < 0
  {
  }

  /** As written, `HHMM` is read as `HH * 60 + MM`, as the corrected reader does. */
  lemma AsWrittenReadsHhmm(h: string, m: string)
    requires TwoDigits(h) && TwoDigits(m)
    ensures HhmmToMinutesAsWritten(Some(h + m)) == Ok(Some(TwoDigitValue(h) * 60 + TwoDigitValue(m)))
  {
    CompactHhmm(h, m);
    ReadingsAgreeOnFour(h + m);
    CorrectedReadsHhmm(h, m);
  }

  /**
    With `HH:MM:SS` times the delay is taken between their minute-and-second
    readings, so the hours drop out and a difference of seconds counts as
    minutes.
  */
  lemma SecondsTimesDelay(h1: string, m1: string, s1: string, h2: string, m2: string, s2: string)
    requires TwoDigits(h1) && TwoDigits(m1) && TwoDigits(s1)
    requires TwoDigits(h2) && TwoDigits(m2) && TwoDigits(s2)
    ensures ComputeDelayMinutes(Some(h1 + ":" + m1 + ":" + s1), Some(h2 + ":" + m2 + ":" + s2)) ==
            Ok(Some((TwoDigitValue(m2) * 60 + TwoDigitValue(s2)) - (TwoDigitValue(m1) * 60 + TwoDigitValue(s1))))
  {
    AsWrittenReadsSeconds(h1, m1, s1);
    AsWrittenReadsSeconds(h2, m2, s2);
  }

  /** The string RIDs of each service, in order, duplicates kept. */
  function StringRids(services: seq<Service>): seq<string> {
    if services == [] then []
    else StringRids(services[..|services| - 1]) + TextRids(services[|services| - 1].rids)
  }

  /** The `str` entries of one `rids` list. */
  function TextRids(rids: seq<RidValue>): seq<string> {
    if rids == [] then []
    else TextRids(rids[..|rids| - 1]) + (if rids[|rids| - 1].RidText? then [rids[|rids| - 1].text] else [])
  }

  /** How often a RID occurs, as a `str`, in one `rids` list. */
  function Occurrences(rids: seq<RidValue>, rid: string): nat {
    multiset(rids)[RidText(rid)]
  }

  /** How often a RID occurs, as a `str`, across the services. */
  function TotalOccurrences(services: seq<Service>, rid: string): nat {
    if services == [] then 0
    else TotalOccurrences(services[..|services| - 1], rid) + Occurrences(services[|services| - 1].rids, rid)
  }

  lemma {:induction false} TextRidsCount(rids: seq<RidValue>, rid: string)
    ensures multiset(TextRids(rids))[rid] == Occurrences(rids, rid)
    decreases |rids|
  {
    if rids != [] {
      TextRidsCount(rids[..|rids| - 1], rid);
      assert rids == rids[..|rids| - 1] + [rids[|rids| - 1]];
    }
  }

  /** Every `str` RID is listed as many times as the services hold it, and nothing else is listed. */
  lemma {:induction false} StringRidsCount(services: seq<Service>, rid: string)
    ensures multiset(StringRids(services))[rid] == TotalOccurrences(services, rid)
    decreases |services|
  {
    if services != [] {
      StringRidsCount(services[..|services| - 1], rid);
      TextRidsCount(services[|services| - 1].rids, rid);
    }
  }

  /** The loops of `fetch_rids` over the services and their `rids`. */
  method CollectRids(services: seq<Service>) returns (rids: seq<string>)
    ensures rids == StringRids(services)
  {
    rids := [];
    for i := 0 to |services|
      invariant rids == StringRids(services[..i])
    {
      assert services[..i + 1][..i] == services[..i];
      var attrs := services[i].rids;
      ghost var before := rids;
      for j := 0 to |attrs|
        invariant rids == before + TextRids(attrs[..j])
      {
        assert attrs[..j + 1][..j] == attrs[..j];
        if attrs[j].RidText? {
          rids := rids + [attrs[j].text];
        }
      }
      assert attrs[..|attrs|] == attrs;
    }
    assert services[..|services|] == services;
  }

  /** `fetch_rids`: a non-200 answer raises, otherwise the string RIDs. */
  function FetchRidsError(status: int, text: string): string {
    "/serviceMetrics failed: " + IntToString(status) + " " + text
  }

  method FetchRids(status: int, text: string, services: seq<Service>) returns (r: Result<seq<string>>)
    ensures status != 200 ==> r == Err(FetchRidsError(status, text))
    ensures status == 200 ==> r == Ok(StringRids(services))
  {
    if status != 200 {
      return Err(FetchRidsError(status, text));
    }
    var rids := CollectRids(services);
    r := Ok(rids);
  }

  /** A detail answer: a non-200 status, or the service's date and stops. */
  datatype BatchAnswer = NotOk(status: int) | Body(dateOfService: Option<string>, locations: seq<Location>)

  /** A row of `delays_output.csv`. */
  datatype BatchRow = BatchRow(rid: string, origin: Option<string>, dest: string, gbttPta: Option<string>,
                               actualTa: Option<string>, delayMin: Option<int>, date: Option<string>)

  /** The fixed destination, London Paddington. */
  const TO_LOC := "PAD"

  /** The first stop whose `location` is exactly the destination. */
  function DestRow(locations: seq<Location>): (r: Option<Location>)
    ensures r.Some? ==> r.value in locations && r.value.location == Some(TO_LOC)
    ensures r.None? ==> forall i :: 0 <= i < |locations| ==> locations[i].location != Some(TO_LOC)
  {
    if locations == [] then None
    else if locations[0].location == Some(TO_LOC) then Some(locations[0])
    else DestRow(locations[1..])
  }

  /** Python truthiness of an optional string. */
  predicate Truthy(s: Option<string>) {
    s.Some? && s.value != ""
  }

  /**
    `fetch_details_for_rid`: a failed call gives a row of `None`s; otherwise
    the first stop's location as origin, the destination stop's planned and
    actual arrival, and a delay only when both are present.
  */
  function DetailsForRid(rid: string, answer: BatchAnswer): (r: Result<BatchRow>)
    ensures r.Ok? ==> r.value.rid == rid && r.value.dest == TO_LOC
    ensures answer.NotOk? ==> r == Ok(BatchRow(rid, None, TO_LOC, None, None, None, None))
    ensures r.Ok? && r.value.delayMin.Some? ==>
              Truthy(r.value.gbttPta) && Truthy(r.value.actualTa) &&
              ComputeDelayMinutes(r.value.gbttPta, r.value.actualTa) == Ok(r.value.delayMin)
    ensures r.Err? ==> answer.Body? && DestRow(answer.locations).Some?
  {
    match answer
    case NotOk(_) => Ok(BatchRow(rid, None, TO_LOC, None, None, None, None))
    case Body(date, locations) =>
      var origin := if locations != [] then locations[0].location else None;
      var dest := DestRow(locations);
      var planned := if dest.Some? then dest.value.gbttPta else None;
      var actual := if dest.Some? then dest.value.actualTa else None;
      if Truthy(planned) && Truthy(actual) then
        match ComputeDelayMinutes(planned, actual)
        case Err(e) => Err(e)
        case Ok(delay) => Ok(BatchRow(rid, origin, TO_LOC, planned, actual, delay, date))
      else Ok(BatchRow(rid, origin, TO_LOC, planned, actual, None, date))
  }

  /** The rows of the RIDs up to the first raise, or that raise. */
  function BatchRows(rids: seq<string>, details: string -> BatchAnswer): Result<seq<BatchRow>> {
    if rids == [] then Ok([])
    else
      match BatchRows(rids[..|rids| - 1], details)
      case Err(e) => Err(e)
      case Ok(rows) =>
        match DetailsForRid(rids[|rids| - 1], details(rids[|rids| - 1]))
        case Err(e) => Err(e)
        case Ok(row) => Ok(rows + [row])
  }

  /** The loop of `main`: one row per RID, in RID order. */
  method RunRows(rids: seq<string>, details: string -> BatchAnswer) returns (r: Result<seq<BatchRow>>)
    ensures r == BatchRows(rids, details)
  {
    var rows := [];
    for i := 0 to |rids|
      invariant BatchRows(rids[..i], details) == Ok(rows)
    {
      assert rids[..i + 1][..i] == rids[..i];
      var row := DetailsForRid(rids[i], details(rids[i]));
      if row.Err? {
        assert BatchRows(rids[..i + 1], details) == Err(row.msg);
        BatchRowsErrSticks(rids, details, i + 1);
        return Err(row.msg);
      }
      rows := rows + [row.value];
    }
    assert rids[..|rids|] == rids;
    r := Ok(rows);
  }

  /** A raise on a prefix is the result of the whole batch. */
  lemma {:induction false} BatchRowsErrSticks(rids: seq<string>, details: string -> BatchAnswer, n: nat)
    requires n <= |rids| && BatchRows(rids[..n], details).Err?
    ensures BatchRows(rids, details) == BatchRows(rids[..n], details)
    decreases |rids| - n
  {
    if n < |rids| {
      assert rids[..n + 1][..n] == rids[..n];
      BatchRowsErrSticks(rids, details, n + 1);
    } else {
      assert rids[..n] == rids;
    }
  }

  /** A successful batch has one row per RID, each carrying its RID. */
  lemma {:induction false} BatchRowsShape(rids: seq<string>, details: string -> BatchAnswer)
    requires BatchRows(rids, details).Ok?
    ensures var rows := BatchRows(rids, details).value;
            |rows| == |rids| && forall i :: 0 <= i < |rids| ==> rows[i].rid == rids[i]
    decreases |rids|
  {
    if rids != [] {
      BatchRowsShape(rids[..|rids| - 1], details);
    }
  }
}
