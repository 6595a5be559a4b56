/**
  `WindowBisector` (orchestrate_month.py): a window is split only when it is at
  least 60 minutes long, at the floor of its midpoint, into two adjacent halves.
  Its parser has no length guard, so the `None` results are the cases where
  Python's `int()` raises.
*/
module Bisector {
  import opened Common
  import opened Hhmm
  import opened Routes

  /** `can_bisect`: `to - from >= 60`, or `None` when a time does not parse. */
  function CanBisect(w: Window): Option<bool> {
    var f, t := ParseHhmmUnguarded(w.fromTime), ParseHhmmUnguarded(w.toTime);
    if f.Some? && t.Some? then Some(t.value - f.value >= 60) else None
  }

  /** The two windows `bisect_window` returns, in list order. */
  datatype Halves = Halves(first: Window, second: Window)

  /** `bisect_window`: `[(from, hhmm(mid)), (hhmm(mid + 1), to)]` with `mid = (from + to) // 2`. */
  function BisectWindow(w: Window): Option<Halves> {
    var mid := Midpoint(w);
    if mid.Some? then Some(SplitAfter(w, mid.value)) else None
  }

  /** `(from + to) // 2` in minutes, or `None` when a time does not parse. */
  function Midpoint(w: Window): Option<int> {
    var f, t := ParseHhmmUnguarded(w.fromTime), ParseHhmmUnguarded(w.toTime);
    if f.Some? && t.Some? then Some((f.value + t.value) / 2) else None
  }

  /** The two halves of `w` split after minute `mid`. */
  function SplitAfter(w: Window, mid: int): Halves {
    Halves(Window(w.fromTime, MinutesToHhmm(mid)), Window(MinutesToHhmm(mid + 1), w.toTime))
  }

  /** `to - from` in minutes. */
  function Duration(w: Window): int
    requires ValidWindow(w)
  {
    Minutes(w.toTime) - Minutes(w.fromTime)
  }

  /** A well-formed window can be bisected exactly when it spans 60 minutes or more. */
  lemma CanBisectIff(w: Window)
    requires ValidWindow(w)
    ensures CanBisect(w) == Some(Duration(w) >= 60)
  {
    ParseValid(w.fromTime);
    ParseValid(w.toTime);
  }

  /** The midpoint split of [f, t]: two adjacent, non-empty halves whose lengths differ by at most one. */
  lemma MidpointSplit(f: int, t: int)
    requires t - f >= 60
    ensures var mid := (f + t) / 2;
            f <= mid < mid + 1 <= t &&
            mid - f < t - f && t - (mid + 1) < t - f &&
            (mid - f) + (t - (mid + 1)) == (t - f) - 1 &&
            t - (mid + 1) <= mid - f <= t - (mid + 1) + 1
  {
  }

  /**
    `h` splits the well-formed window `w`: both halves are well-formed, keep
    the outer ends of `w` and cover exactly its minutes, the second starting
    one minute after the first ends; each half is strictly shorter than `w`
    and their lengths differ by at most one minute.
  */
  predicate SplitsInto(w: Window, h: Halves)
    requires ValidWindow(w)
  {
    ValidWindow(h.first) && ValidWindow(h.second) &&
    h.first.fromTime == w.fromTime && h.second.toTime == w.toTime &&
    Minutes(h.second.fromTime) == Minutes(h.first.toTime) + 1 &&
    Minutes(w.fromTime) <= Minutes(h.first.toTime) < Minutes(h.second.fromTime) <= Minutes(w.toTime) &&
    Duration(h.first) < Duration(w) && Duration(h.second) < Duration(w) &&
    Duration(h.first) + Duration(h.second) == Duration(w) - 1 &&
    Duration(h.second) <= Duration(h.first) <= Duration(h.second) + 1
  }

  /** Bisecting a well-formed window of 60 minutes or more splits it at its midpoint. */
  lemma BisectHalves(w: Window)
    requires ValidWindow(w) && Duration(w) >= 60
    ensures BisectWindow(w).Some? && SplitsInto(w, BisectWindow(w).value)
  {
    BisectWindowValue(w);
    MidpointHalves(w, (Minutes(w.fromTime) + Minutes(w.toTime)) / 2);
  }

  /** Splitting after the midpoint minute gives a split in the sense of `SplitsInto`. */
  lemma MidpointHalves(w: Window, mid: int)
    requires ValidWindow(w) && Duration(w) >= 60
    requires mid == (Minutes(w.fromTime) + Minutes(w.toTime)) / 2
    ensures SplitsInto(w, SplitAfter(w, mid))
  {
    MinutesInDay(w.fromTime);
    MinutesInDay(w.toTime);
    MidpointSplit(Minutes(w.fromTime), Minutes(w.toTime));
    FirstHalfValid(w, mid);
    SecondHalfValid(w, mid);
  }

  /** The first half ends at `mid` and the second starts at `mid + 1`, both well-formed inside the day. */
  lemma FirstHalfValid(w: Window, mid: int)
    requires ValidWindow(w) && 0 <= mid < 1440
    ensures ValidWindow(SplitAfter(w, mid).first) && Minutes(SplitAfter(w, mid).first.toTime) == mid
  {
    FormatThenParse(mid);
  }

  lemma SecondHalfValid(w: Window, mid: int)
    requires ValidWindow(w) && 0 <= mid + 1 < 1440
    ensures ValidWindow(SplitAfter(w, mid).second) && Minutes(SplitAfter(w, mid).second.fromTime) == mid + 1
  {
    FormatThenParse(mid + 1);
  }

  /** The halves of a well-formed window, written with its minute counts. */
  lemma BisectWindowValue(w: Window)
    requires ValidWindow(w)
    ensures BisectWindow(w) == Some(SplitAfter(w, (Minutes(w.fromTime) + Minutes(w.toTime)) / 2))
  {
    MidpointValue(w);
  }

  /** The midpoint of a well-formed window, from its minute counts. */
  lemma MidpointValue(w: Window)
    requires ValidWindow(w)
    ensures Midpoint(w) == Some((Minutes(w.fromTime) + Minutes(w.toTime)) / 2)
  {
    ParseValid(w.fromTime);
    ParseValid(w.toTime);
  }

  /** A one-hour window 0600-0659 spans 59 minutes and is not bisected. */
  lemma HourWindowNotBisected()
    ensures CanBisect(Window("0600", "0659")) == Some(false)
  {
    var w := Window("0600", "0659");
    assert ValidWindow(w) && Duration(w) == 59;
    CanBisectIff(w);
  }

  /** A window whose start is shorter than three characters cannot be measured. */
  lemma ShortTimeRaises(w: Window)
    requires |w.fromTime| < 3
    ensures CanBisect(w) == None && BisectWindow(w) == None
  {
    ParseGuard(w.fromTime);
  }
}
