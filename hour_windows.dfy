/**
  `iter_hour_windows` (routely-buffer-spike/pipeline.py): the clock hours
  touched by a validated time window, each clipped to the window's end.
  The first window starts at the top of the start time's hour.
*/
module HourWindows {
  import opened Common
  import opened Hhmm
  import opened Routes
  import opened PipelineArgs

  /** The larger-is-clipped minimum `min(a, b)`. */
  function Min(a: int, b: int): int { if a <= b then a else b }

  /** The number of windows: the clock hours from the start's to the end's, none when the start is later. */
  function HourCount(s: int, e: int): nat {
    if s > e then 0 else e / 60 - s / 60 + 1
  }

  /** The minute spans `[h*60, min(h*60 + 59, e)]` for the clock hours `h` from `s / 60` to `e / 60`. */
  function HourSpans(s: int, e: int): (spans: seq<(int, int)>)
    requires 0 <= s
    ensures |spans| == HourCount(s, e)
  {
    if s > e then []
    else
      var h0 := s / 60;
      seq(e / 60 - h0 + 1, i => ((h0 + i) * 60, Min((h0 + i) * 60 + 59, e)))
  }

  /** Euclidean division by 60. */
  lemma Div60(x: int)
    ensures x == x / 60 * 60 + x % 60 && 0 <= x % 60 < 60
  {
  }

  /** Whole hours divide back exactly. */
  lemma MulDiv60(h: int)
    ensures (h * 60) / 60 == h && (h * 60) % 60 == 0
  {
    Div60(h * 60);
  }

  /** A span as a pair of HHMM strings. */
  function ToWindow(span: (int, int)): Window {
    Window(MinutesToHhmm(span.0), MinutesToHhmm(span.1))
  }

  function ToWindows(spans: seq<(int, int)>): seq<Window> {
    seq(|spans|, i requires 0 <= i < |spans| => ToWindow(spans[i]))
  }

  /** `int(t) // 100 * 60 + int(t) % 100` for a validated time. */
  function TimeValueMinutes(t: string): (m: int)
    requires ValidHhmm(t)
    ensures m == Minutes(t)
  {
    var v := DigitsValue(t);
    FourDigitValue(t);
    assert v / 100 == HourField(t) && v % 100 == MinuteField(t);
    v / 100 * 60 + v % 100
  }

  /** The generator, collected into a list as `list(iter_hour_windows(...))` does. */
  method IterHourWindows(fromTime: string, toTime: string) returns (windows: seq<Window>)
    requires ValidHhmm(fromTime) && ValidHhmm(toTime)
    ensures windows == ToWindows(HourSpans(Minutes(fromTime), Minutes(toTime)))
  {
    var startMinutes := TimeValueMinutes(fromTime);
    var endMinutes := TimeValueMinutes(toTime);
    windows := WindowsBetween(startMinutes, endMinutes);
  }

  /** The loop of `iter_hour_windows` over the minutes of the day from `startMinutes` to `endMinutes`. */
  method WindowsBetween(startMinutes: int, endMinutes: int) returns (windows: seq<Window>)
    requires 0 <= startMinutes
    ensures windows == ToWindows(HourSpans(startMinutes, endMinutes))
  {
    ghost var spans := HourSpans(startMinutes, endMinutes);
    ghost var h0 := startMinutes / 60;
    windows := [];
    var current := startMinutes;
    while current <= endMinutes
      invariant h0 * 60 <= current
      invariant windows == [] ==> current == startMinutes
      invariant windows != [] ==> current == (h0 + |windows|) * 60
      invariant |windows| <= |spans| && windows == ToWindows(spans[..|windows|])
      invariant current <= endMinutes ==> |windows| < |spans|
      invariant current > endMinutes ==> |windows| == |spans|
      decreases endMinutes - current
    {
      WindowStep(startMinutes, endMinutes, windows, current);
      var currentHour := current / 60;
      var hourStart := currentHour * 60;
      var hourEnd := Min(hourStart + 59, endMinutes);
      windows := windows + [ToWindow((hourStart, hourEnd))];
      current := hourStart + 60;
    }
    assert spans[..|windows|] == spans;
  }

  /** One turn of the loop of `WindowsBetween`: the window it appends is the next span, and where `current` goes. */
  lemma WindowStep(s: int, e: int, windows: seq<Window>, current: int)
    requires 0 <= s && s / 60 * 60 <= current <= e
    requires windows == [] ==> current == s
    requires windows != [] ==> current == (s / 60 + |windows|) * 60
    requires |windows| < |HourSpans(s, e)| && windows == ToWindows(HourSpans(s, e)[..|windows|])
    ensures var spans, n, hourStart := HourSpans(s, e), |windows|, current / 60 * 60;
            var next := windows + [ToWindow((hourStart, Min(hourStart + 59, e)))];
            hourStart + 60 == (s / 60 + |next|) * 60 &&
            s / 60 * 60 <= hourStart + 60 &&
            |next| <= |spans| && next == ToWindows(spans[..|next|]) &&
            (hourStart + 60 <= e ==> |next| < |spans|) &&
            (hourStart + 60 > e ==> |next| == |spans|)
  {
    var spans, h0, n := HourSpans(s, e), s / 60, |windows|;
    if n != 0 {
      MulDiv60(h0 + n);
    }
    var hourStart := current / 60 * 60;
    assert current / 60 == h0 + n;
    assert spans[n] == (hourStart, Min(hourStart + 59, e));
    assert spans[..n + 1] == spans[..n] + [spans[n]];
    Div60(e);
  }

  /**
    The shape of the windows: the first starts at the top of the start's
    hour, each starts on an hour and lasts at most 60 minutes, each starts
    one minute after the previous one ends, each ends by the end time, and
    the last ends exactly at it.
  */
  lemma HourSpansShape(s: int, e: int)
    requires 0 <= s <= e
    ensures var spans := HourSpans(s, e);
            |spans| == e / 60 - s / 60 + 1 &&
            spans[0].0 == s / 60 * 60 && spans[0].0 <= s < spans[0].0 + 60 &&
            (forall i :: 0 <= i < |spans| ==> spans[i].0 % 60 == 0 && spans[i].0 <= spans[i].1 <= spans[i].0 + 59) &&
            (forall i :: 0 <= i < |spans| ==> spans[i].1 <= e) &&
            (forall i :: 0 <= i < |spans| - 1 ==> spans[i + 1].0 == spans[i].0 + 60 && spans[i + 1].0 == spans[i].1 + 1) &&
            spans[|spans| - 1].1 == e
  {
    var spans := HourSpans(s, e);
    var h0, hn := s / 60, e / 60;
    Div60(s);
    Div60(e);
    assert h0 <= hn;
    var n := |spans|;
    forall i | 0 <= i < n ensures spans[i].0 % 60 == 0 && spans[i].0 <= spans[i].1 <= spans[i].0 + 59 && spans[i].1 <= e {
      MulDiv60(h0 + i);
      assert spans[i] == ((h0 + i) * 60, Min((h0 + i) * 60 + 59, e));
      assert (h0 + i) * 60 <= hn * 60;
    }
    forall i | 0 <= i < n - 1 ensures spans[i + 1].0 == spans[i].0 + 60 && spans[i + 1].0 == spans[i].1 + 1 {
      assert spans[i] == ((h0 + i) * 60, Min((h0 + i) * 60 + 59, e));
      assert spans[i + 1].0 == (h0 + i) * 60 + 60;
      assert (h0 + i) * 60 + 60 <= hn * 60;
    }
    assert spans[n - 1] == (hn * 60, Min(hn * 60 + 59, e));
  }

  /** Each minute from the top of the start's hour to the end time lies in exactly one window. */
  lemma HourSpansCover(s: int, e: int, m: int)
    requires 0 <= s <= e && s / 60 * 60 <= m <= e
    ensures var spans := HourSpans(s, e);
            exists i :: 0 <= i < |spans| && spans[i].0 <= m <= spans[i].1
    ensures var spans := HourSpans(s, e);
            forall i, j ::
              (0 <= i < |spans| && 0 <= j < |spans| && spans[i].0 <= m <= spans[i].1 && spans[j].0 <= m <= spans[j].1) ==> i == j
  {
    var spans := HourSpans(s, e);
    HourSpansShape(s, e);
    var h0 := s / 60;
    Div60(s);
    Div60(e);
    Div60(m);
    var i := m / 60 - h0;
    assert 0 <= i < |spans|;
    assert spans[i] == ((h0 + i) * 60, Min((h0 + i) * 60 + 59, e));
    assert spans[i].0 <= m <= spans[i].1;
    forall j, k | 0 <= j < k < |spans| ensures spans[j].1 < spans[k].0 {
      SpansIncrease(spans, j, k);
    }
  }

  /** Adjacent spans that start one minute after the previous end are ordered. */
  lemma {:induction false} SpansIncrease(spans: seq<(int, int)>, j: int, k: int)
    requires forall i :: 0 <= i < |spans| ==> spans[i].0 <= spans[i].1
    requires forall i :: 0 <= i < |spans| - 1 ==> spans[i + 1].0 == spans[i].1 + 1
    requires 0 <= j < k < |spans|
    ensures spans[j].1 < spans[k].0
    decreases k - j
  {
    if k > j + 1 {
      SpansIncrease(spans, j, k - 1);
    }
  }

  /** The windows of a day's times start at distinct HHMM strings. */
  lemma WindowStartsDistinct(s: int, e: int)
    requires 0 <= s <= e < 1440
    ensures var ws := ToWindows(HourSpans(s, e));
            forall i, j :: 0 <= i < j < |ws| ==> ws[i].fromTime != ws[j].fromTime
  {
    var spans := HourSpans(s, e);
    var ws := ToWindows(spans);
    HourSpansShape(s, e);
    forall i, j | 0 <= i < j < |ws| ensures ws[i].fromTime != ws[j].fromTime {
      SpansIncrease(spans, i, j);
      assert 0 <= spans[i].0 < spans[j].0 <= e;
      if ws[i].fromTime == ws[j].fromTime {
        FormatInjective(spans[i].0, spans[j].0);
      }
    }
  }
}
