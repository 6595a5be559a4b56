/**
  The day loop of routely-buffer-spike/pipeline.py. Without a time window a
  day is one call of the ingester; with one, the day is split into one
  chunk per clock hour and TOC, each chunk an ingester call whose exception
  is caught, and a per-`(hour_from, toc)` circuit breaker counts the
  failures whose message holds "403" or "5" and cools down (a 90 s sleep,
  counted here) at three.

  As written the breaker's counters are created afresh for every day, and a
  day visits each `(hour_from, toc)` once, so no counter is ever 3 when it
  is checked: `AsWrittenNeverCools`. The day loop below keeps the counters
  across days, which is what lets three failures in a row trip the breaker
  (`CorrectedCoolsOnFourthDay`); the counters affect only the sleep, so the
  totals are those of the code as written (`CorrectedTotalsAsWritten`).
*/
module SpikePipeline {
  import opened Common
  import opened Hhmm
  import opened Routes
  import opened RidRecords
  import opened PipelineArgs
  import opened HourWindows

  /** A breaker key: the chunk's start time and its TOC. */
  type ChunkKey = (string, string)

  /** The ingester call of one chunk of a day: its hour window and TOC. */
  type ChunkCall = (Window, string) -> Result<DaySummary>

  /** `consecutive_failures.get(key, 0)`. */
  function Get(counts: map<ChunkKey, nat>, key: ChunkKey): nat {
    if key in counts then counts[key] else 0
  }

  /** A failure the breaker counts. */
  predicate Counted(msg: string) {
    Contains(msg, "403") || Contains(msg, "5")
  }

  /** The breaker counters, the cool-downs taken, and the day's running `day_rids` and `day_rows`. */
  datatype Tally = Tally(counts: map<ChunkKey, nat>, cooldowns: nat, rids: nat, rows: nat)

  /** One chunk: the breaker check, then the call and its effect on the counters and the totals. */
  function Step(t: Tally, key: ChunkKey, outcome: Result<DaySummary>): (r: Tally)
    ensures r.cooldowns == t.cooldowns + (if Get(t.counts, key) >= 3 then 1 else 0)
    ensures outcome.Ok? ==> Get(r.counts, key) == 0 && r.rids == t.rids + outcome.value.rids && r.rows == t.rows + outcome.value.rows
    ensures outcome.Err? ==> r.rids == t.rids && r.rows == t.rows
    ensures outcome.Err? && Counted(outcome.msg) ==>
              Get(r.counts, key) == (if Get(t.counts, key) >= 3 then 0 else Get(t.counts, key)) + 1
    ensures outcome.Err? && !Counted(outcome.msg) ==>
              Get(r.counts, key) == (if Get(t.counts, key) >= 3 then 0 else Get(t.counts, key))
    ensures forall k :: k != key ==> Get(r.counts, k) == Get(t.counts, k)
    ensures r.counts.Keys <= t.counts.Keys + {key}
  {
    var cool := Get(t.counts, key) >= 3;
    var counts := if cool then t.counts[key := 0] else t.counts;
    var cooldowns := t.cooldowns + (if cool then 1 else 0);
    match outcome
    case Ok(s) => Tally(counts[key := 0], cooldowns, t.rids + s.rids, t.rows + s.rows)
    case Err(msg) =>
      if Counted(msg) then Tally(counts[key := Get(counts, key) + 1], cooldowns, t.rids, t.rows)
      else Tally(counts, cooldowns, t.rids, t.rows)
  }

  /** The chunks of one hour window, TOC by TOC. */
  function TocsFold(t: Tally, w: Window, tocs: seq<string>, chunk: ChunkCall): Tally {
    if tocs == [] then t
    else
      var toc := tocs[|tocs| - 1];
      Step(TocsFold(t, w, tocs[..|tocs| - 1], chunk), (w.fromTime, toc), chunk(w, toc))
  }

  /** The chunks of a day, hour by hour. */
  function WindowsFold(t: Tally, ws: seq<Window>, tocs: seq<string>, chunk: ChunkCall): Tally {
    if ws == [] then t
    else TocsFold(WindowsFold(t, ws[..|ws| - 1], tocs, chunk), ws[|ws| - 1], tocs, chunk)
  }

  /** The nested chunk loops of a day. */
  method RunChunks(t0: Tally, ws: seq<Window>, tocs: seq<string>, chunk: ChunkCall) returns (t: Tally)
    ensures t == WindowsFold(t0, ws, tocs, chunk)
  {
    t := t0;
    for i := 0 to |ws|
      invariant t == WindowsFold(t0, ws[..i], tocs, chunk)
    {
      assert ws[..i + 1][..i] == ws[..i];
      ghost var before := t;
      for j := 0 to |tocs|
        invariant t == TocsFold(before, ws[i], tocs[..j], chunk)
      {
        assert tocs[..j + 1][..j] == tocs[..j];
        var key := (ws[i].fromTime, tocs[j]);
        var outcome := chunk(ws[i], tocs[j]);
        t := Step(t, key, outcome);
      }
      assert tocs[..|tocs|] == tocs;
    }
    assert ws[..|ws|] == ws;
  }

  // ---- The breaker as written: never cools ----

  /** No two elements of `xs` are equal. */
  predicate Distinct<T(==)>(xs: seq<T>) {
    forall i, j :: 0 <= i < j < |xs| ==> xs[i] != xs[j]
  }

  /** The start times of the windows. */
  function FromTimes(ws: seq<Window>): set<string> {
    set i | 0 <= i < |ws| :: ws[i].fromTime
  }

  /** Within an hour no key is visited twice, so none that starts at that hour can reach three. */
  lemma {:induction false} TocsFoldFresh(t: Tally, w: Window, tocs: seq<string>, chunk: ChunkCall)
    requires Distinct(tocs)
    requires forall k :: k in t.counts ==> k.0 != w.fromTime
    ensures var r := TocsFold(t, w, tocs, chunk);
            r.cooldowns == t.cooldowns &&
            forall k :: k in r.counts ==> k in t.counts || (k.0 == w.fromTime && k.1 in tocs)
    decreases |tocs|
  {
    if tocs != [] {
      var front, toc := tocs[..|tocs| - 1], tocs[|tocs| - 1];
      assert Distinct(front);
      TocsFoldFresh(t, w, front, chunk);
      var before := TocsFold(t, w, front, chunk);
      assert toc !in front;
      assert (w.fromTime, toc) !in before.counts;
    }
  }

  /** A day with distinct start times and distinct TOCs, begun with fresh counters, takes no cool-down. */
  lemma {:induction false} WindowsFoldFresh(ws: seq<Window>, tocs: seq<string>, chunk: ChunkCall)
    requires Distinct(tocs)
    requires forall i, j :: 0 <= i < j < |ws| ==> ws[i].fromTime != ws[j].fromTime
    ensures var r := WindowsFold(Tally(map[], 0, 0, 0), ws, tocs, chunk);
            r.cooldowns == 0 && forall k :: k in r.counts ==> k.0 in FromTimes(ws)
    decreases |ws|
  {
    if ws != [] {
      var front, w := ws[..|ws| - 1], ws[|ws| - 1];
      WindowsFoldFresh(front, tocs, chunk);
      var before := WindowsFold(Tally(map[], 0, 0, 0), front, tocs, chunk);
      forall k | k in before.counts ensures k.0 != w.fromTime {
        var i :| 0 <= i < |front| && front[i].fromTime == k.0;
        assert ws[i] == front[i];
      }
      TocsFoldFresh(before, w, tocs, chunk);
      forall k | k in WindowsFold(Tally(map[], 0, 0, 0), ws, tocs, chunk).counts ensures k.0 in FromTimes(ws) {
        if k in before.counts {
          var i :| 0 <= i < |front| && front[i].fromTime == k.0;
          assert ws[i] == front[i];
        } else {
          assert ws[|ws| - 1].fromTime == k.0;
        }
      }
    }
  }

  /** As written, the counters start empty each day and no day ever cools down, whatever the chunks return. */
  lemma AsWrittenNeverCools(w: Window, mode: string, chunk: ChunkCall)
    requires ValidWindow(w) && ResolveTocs(mode).Ok?
    ensures var ws := ToWindows(HourSpans(Minutes(w.fromTime), Minutes(w.toTime)));
            WindowsFold(Tally(map[], 0, 0, 0), ws, ResolveTocs(mode).value, chunk).cooldowns == 0
  {
    var s, e := Minutes(w.fromTime), Minutes(w.toTime);
    MinutesInDay(w.fromTime);
    MinutesInDay(w.toTime);
    if s <= e {
      WindowStartsDistinct(s, e);
    }
    WindowsFoldFresh(ToWindows(HourSpans(s, e)), ResolveTocs(mode).value, chunk);
  }

  // ---- The breaker with counters kept across days ----

  /** A day's chunks begun from the counters the previous days left. */
  function ChunkDay(counts: map<ChunkKey, nat>, w: Window, tocs: seq<string>, chunk: ChunkCall): Tally
    requires ValidWindow(w)
  {
    WindowsFold(Tally(counts, 0, 0, 0), ToWindows(HourSpans(Minutes(w.fromTime), Minutes(w.toTime))), tocs, chunk)
  }

  /** After a chunk failing with a counted error three days running, the fourth day's attempt cools down first. */
  lemma CorrectedCoolsOnFourthDay(w: Window, toc: string, c1: ChunkCall, c2: ChunkCall, c3: ChunkCall, c4: ChunkCall)
    requires ValidWindow(w) && Minutes(w.fromTime) <= Minutes(w.toTime) && Minutes(w.fromTime) / 60 == Minutes(w.toTime) / 60
    requires var w1 := ToWindow(HourSpans(Minutes(w.fromTime), Minutes(w.toTime))[0]);
             c1(w1, toc).Err? && Counted(c1(w1, toc).msg) && c2(w1, toc).Err? && Counted(c2(w1, toc).msg) &&
             c3(w1, toc).Err? && Counted(c3(w1, toc).msg)
    ensures var d1 := ChunkDay(map[], w, [toc], c1);
            var d2 := ChunkDay(d1.counts, w, [toc], c2);
            var d3 := ChunkDay(d2.counts, w, [toc], c3);
            d1.cooldowns == 0 && d2.cooldowns == 0 && d3.cooldowns == 0 && ChunkDay(d3.counts, w, [toc], c4).cooldowns == 1
  {
    var s, e := Minutes(w.fromTime), Minutes(w.toTime);
    var ws := ToWindows(HourSpans(s, e));
    assert |ws| == 1;
    var w1 := ws[0];
    assert ws[..0] == [];
    assert [toc][..0] == [];
    var key := (w1.fromTime, toc);
    var d1 := ChunkDay(map[], w, [toc], c1);
    OneChunkDay(map[], ws, toc, c1);
    assert Get(d1.counts, key) == 1;
    var d2 := ChunkDay(d1.counts, w, [toc], c2);
    OneChunkDay(d1.counts, ws, toc, c2);
    assert Get(d2.counts, key) == 2;
    var d3 := ChunkDay(d2.counts, w, [toc], c3);
    OneChunkDay(d2.counts, ws, toc, c3);
    assert Get(d3.counts, key) == 3;
    OneChunkDay(d3.counts, ws, toc, c4);
  }

  /** A day of one window and one TOC is one step of the breaker. */
  lemma OneChunkDay(counts: map<ChunkKey, nat>, ws: seq<Window>, toc: string, chunk: ChunkCall)
    requires |ws| == 1
    ensures WindowsFold(Tally(counts, 0, 0, 0), ws, [toc], chunk) ==
            Step(Tally(counts, 0, 0, 0), (ws[0].fromTime, toc), chunk(ws[0], toc))
  {
    var t := Tally(counts, 0, 0, 0);
    assert ws[..0] == [];
    assert WindowsFold(t, ws[..0], [toc], chunk) == t;
    assert [toc][..0] == [];
    assert TocsFold(t, ws[0], [toc][..0], chunk) == t;
  }

  /** The counters decide only the cool-downs: the totals of a day do not depend on them. */
  lemma {:induction false} TocsTotalsIgnoreCounts(t1: Tally, t2: Tally, w: Window, tocs: seq<string>, chunk: ChunkCall)
    requires t1.rids == t2.rids && t1.rows == t2.rows
    ensures TocsFold(t1, w, tocs, chunk).rids == TocsFold(t2, w, tocs, chunk).rids
    ensures TocsFold(t1, w, tocs, chunk).rows == TocsFold(t2, w, tocs, chunk).rows
    decreases |tocs|
  {
    if tocs != [] {
      TocsTotalsIgnoreCounts(t1, t2, w, tocs[..|tocs| - 1], chunk);
    }
  }

  lemma {:induction false} WindowsTotalsIgnoreCounts(t1: Tally, t2: Tally, ws: seq<Window>, tocs: seq<string>, chunk: ChunkCall)
    requires t1.rids == t2.rids && t1.rows == t2.rows
    ensures WindowsFold(t1, ws, tocs, chunk).rids == WindowsFold(t2, ws, tocs, chunk).rids
    ensures WindowsFold(t1, ws, tocs, chunk).rows == WindowsFold(t2, ws, tocs, chunk).rows
    decreases |ws|
  {
    if ws != [] {
      WindowsTotalsIgnoreCounts(t1, t2, ws[..|ws| - 1], tocs, chunk);
      TocsTotalsIgnoreCounts(WindowsFold(t1, ws[..|ws| - 1], tocs, chunk), WindowsFold(t2, ws[..|ws| - 1], tocs, chunk),
                             ws[|ws| - 1], tocs, chunk);
    }
  }

  // ---- The day loop ----

  /** The summary of a day as written: the ingester's, or the chunk totals, which never raise. */
  function AsWrittenDay(date: int, window: Option<Window>, tocs: seq<string>,
                        ingest: int -> Result<DaySummary>, chunks: int -> ChunkCall): Result<DaySummary>
    requires window.Some? ==> ValidWindow(window.value)
  {
    if window.None? then ingest(date)
    else
      var t := ChunkDay(map[], window.value, tocs, chunks(date));
      Ok(DaySummary("", t.rids, t.rows))
  }

  /** The days' summaries and the breaker counters with counters kept across days. */
  function CorrectedRun(dates: seq<int>, window: Option<Window>, tocs: seq<string>,
                        ingest: int -> Result<DaySummary>, chunks: int -> ChunkCall): (seq<Result<DaySummary>>, map<ChunkKey, nat>)
    requires window.Some? ==> ValidWindow(window.value)
  {
    if dates == [] then ([], map[])
    else
      var (results, counts) := CorrectedRun(dates[..|dates| - 1], window, tocs, ingest, chunks);
      var date := dates[|dates| - 1];
      if window.None? then (results + [ingest(date)], counts)
      else
        var t := ChunkDay(counts, window.value, tocs, chunks(date));
        (results + [Ok(DaySummary("", t.rids, t.rows))], t.counts)
  }

  /** Keeping the counters across days changes no day's summary. */
  lemma {:induction false} CorrectedTotalsAsWritten(dates: seq<int>, window: Option<Window>, tocs: seq<string>,
                                                   ingest: int -> Result<DaySummary>, chunks: int -> ChunkCall)
    requires window.Some? ==> ValidWindow(window.value)
    ensures var results := CorrectedRun(dates, window, tocs, ingest, chunks).0;
            |results| == |dates| &&
            forall i :: 0 <= i < |dates| ==> results[i] == AsWrittenDay(dates[i], window, tocs, ingest, chunks)
    decreases |dates|
  {
    if dates != [] {
      var front := dates[..|dates| - 1];
      CorrectedTotalsAsWritten(front, window, tocs, ingest, chunks);
      var (results, counts) := CorrectedRun(front, window, tocs, ingest, chunks);
      var date := dates[|dates| - 1];
      if window.Some? {
        var w := window.value;
        var ws := ToWindows(HourSpans(Minutes(w.fromTime), Minutes(w.toTime)));
        WindowsTotalsIgnoreCounts(Tally(counts, 0, 0, 0), Tally(map[], 0, 0, 0), ws, tocs, chunks(date));
      }
      forall i | 0 <= i < |front| ensures dates[i] == front[i] {
      }
    }
  }

  /** The day loop of the hour-sliced pipeline, with the breaker counters kept across days. */
  method RunSpikeDays(dates: seq<int>, window: Option<Window>, tocs: seq<string>,
                      ingest: int -> Result<DaySummary>, chunks: int -> ChunkCall)
    returns (successfulDays: nat, totalRids: nat, totalRows: nat, exitCode: int)
    requires window.Some? ==> ValidWindow(window.value)
    ensures var results := seq(|dates|, i requires 0 <= i < |dates| => AsWrittenDay(dates[i], window, tocs, ingest, chunks));
            successfulDays == OkDays(results) && totalRids == TotalRids(results) && totalRows == TotalRows(results) &&
            exitCode == ExitStatus(successfulDays, |dates|)
  {
    successfulDays, totalRids, totalRows := RunDays(dates, window, tocs, ingest, chunks);
    ghost var expected := seq(|dates|, i requires 0 <= i < |dates| => AsWrittenDay(dates[i], window, tocs, ingest, chunks));
    CorrectedTotalsAsWritten(dates, window, tocs, ingest, chunks);
    assert CorrectedRun(dates, window, tocs, ingest, chunks).0 == expected;
    exitCode := ExitStatus(successfulDays, |dates|);
  }

  /** The loop itself, with the counters carried from day to day: the totals of `CorrectedRun`. */
  method RunDays(dates: seq<int>, window: Option<Window>, tocs: seq<string>,
                 ingest: int -> Result<DaySummary>, chunks: int -> ChunkCall)
    returns (successfulDays: nat, totalRids: nat, totalRows: nat)
    requires window.Some? ==> ValidWindow(window.value)
    ensures var results := CorrectedRun(dates, window, tocs, ingest, chunks).0;
            successfulDays == OkDays(results) && totalRids == TotalRids(results) && totalRows == TotalRows(results)
  {
    var counts: map<ChunkKey, nat> := map[];
    successfulDays, totalRids, totalRows := 0, 0, 0;
    for d := 0 to |dates|
      invariant CorrectedRun(dates[..d], window, tocs, ingest, chunks).1 == counts
      invariant var results := CorrectedRun(dates[..d], window, tocs, ingest, chunks).0;
                successfulDays == OkDays(results) && totalRids == TotalRids(results) && totalRows == TotalRows(results)
    {
      ghost var prev := CorrectedRun(dates[..d], window, tocs, ingest, chunks);
      CorrectedRunNext(dates, d, window, tocs, ingest, chunks);
      var result: Result<DaySummary>;
      if window.None? {
        result := ingest(dates[d]);
      } else {
        var ws := IterHourWindows(window.value.fromTime, window.value.toTime);
        var t := RunChunks(Tally(counts, 0, 0, 0), ws, tocs, chunks(dates[d]));
        counts := t.counts;
        result := Ok(DaySummary("", t.rids, t.rows));
      }
      TotalsNext(prev.0, result);
      if result.Ok? {
        totalRids := totalRids + result.value.rids;
        totalRows := totalRows + result.value.rows;
        successfulDays := successfulDays + 1;
      }
    }
    assert dates[..|dates|] == dates;
  }

  /** The run over one more date is one more day after the run over the dates before it. */
  lemma CorrectedRunNext(dates: seq<int>, d: nat, window: Option<Window>, tocs: seq<string>,
                         ingest: int -> Result<DaySummary>, chunks: int -> ChunkCall)
    requires window.Some? ==> ValidWindow(window.value)
    requires d < |dates|
    ensures var (results, counts) := CorrectedRun(dates[..d], window, tocs, ingest, chunks);
            CorrectedRun(dates[..d + 1], window, tocs, ingest, chunks) ==
              if window.None? then (results + [ingest(dates[d])], counts)
              else
                var t := ChunkDay(counts, window.value, tocs, chunks(dates[d]));
                (results + [Ok(DaySummary("", t.rids, t.rows))], t.counts)
  {
    assert dates[..d + 1][..d] == dates[..d];
  }

  /** The day counters after one more day's result. */
  lemma TotalsNext(results: seq<Result<DaySummary>>, r: Result<DaySummary>)
    ensures OkDays(results + [r]) == OkDays(results) + (if r.Ok? then 1 else 0)
    ensures TotalRids(results + [r]) == TotalRids(results) + (if r.Ok? then r.value.rids else 0)
    ensures TotalRows(results + [r]) == TotalRows(results) + (if r.Ok? then r.value.rows else 0)
  {
    assert (results + [r])[..|results|] == results;
  }

  /** With a time window every day is counted as processed, so the run exits 0 whenever there is a date. */
  lemma {:induction false} WindowedDaysAllSucceed(dates: seq<int>, w: Window, tocs: seq<string>,
                                                  ingest: int -> Result<DaySummary>, chunks: int -> ChunkCall)
    requires ValidWindow(w) && |dates| > 0
    ensures var results := seq(|dates|, i requires 0 <= i < |dates| => AsWrittenDay(dates[i], Some(w), tocs, ingest, chunks));
            ExitStatus(OkDays(results), |dates|) == 0
  {
    var results := seq(|dates|, i requires 0 <= i < |dates| => AsWrittenDay(dates[i], Some(w), tocs, ingest, chunks));
    ExitZeroIffAllOk(results);
  }
}
