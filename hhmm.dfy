/**
  Times of day written as "HHMM" and their conversion to minutes since
  midnight. Three parsers appear in the source: the guarded one
  (`parse_hhmm_to_minutes`, `MonthOrchestrator._time_to_minutes`), which
  answers 0 for a missing or short string, the unguarded
  `WindowBisector._time_to_minutes`, which slices whatever it is given, and
  the formatter `minutes_to_hhmm`. Python's `int()` raising ValueError is the
  `None` result.
*/
module Hhmm {
  import opened Common

  /** The value of a decimal digit character. */
  function Digit(c: char): int { c as int - '0' as int }

  /** The hour and the minute fields of a four-character time. */
  function HourField(s: string): int requires |s| == 4 { Digit(s[0]) * 10 + Digit(s[1]) }
  function MinuteField(s: string): int requires |s| == 4 { Digit(s[2]) * 10 + Digit(s[3]) }

  /** Four ASCII digits. */
  predicate FourDigits(s: string) {
    |s| == 4 && IsDigit(s[0]) && IsDigit(s[1]) && IsDigit(s[2]) && IsDigit(s[3])
  }

  /** A well-formed time: four ASCII digits with hour < 24 and minute < 60. */
  predicate ValidHhmm(s: string) {
    FourDigits(s) && HourField(s) < 24 && MinuteField(s) < 60
  }

  /** The minute of the day a well-formed time denotes. */
  function Minutes(s: string): int
    requires ValidHhmm(s)
  {
    HourField(s) * 60 + MinuteField(s)
  }

  /** Python `f"{minutes // 60:02d}{minutes % 60:02d}"` (60 > 0, so `/` and `%` floor as in Python). */
  function MinutesToHhmm(minutes: int): string {
    Pad2(minutes / 60) + Pad2(minutes % 60)
  }

  /** `int(s[:2]) * 60 + int(s[2:4])` when `s` has at least four characters, else 0. */
  function ParseHhmm(s: string): Option<int> {
    if |s| < 4 then Some(0)
    else
      Combine(PyInt(s[..2]), PyInt(s[2..4]))
  }

  /** `int(s[:2]) * 60 + int(s[2:4])` with Python's clamping slices and no length guard. */
  function ParseHhmmUnguarded(s: string): Option<int> {
    var lo := if |s| < 2 then |s| else 2;
    var hi := if |s| < 4 then |s| else 4;
    Combine(PyInt(s[..lo]), PyInt(s[lo..hi]))
  }

  /** `h * 60 + m` once both fields have parsed. */
  function Combine(h: Option<int>, m: Option<int>): Option<int> {
    if h.Some? && m.Some? then Some(h.value * 60 + m.value) else None
  }

  /**
    The guarded parser reads a missing or short time as midnight; the
    unguarded one agrees with it from four characters on and raises below
    three (an empty minute field).
  */
  lemma ParseGuard(s: string)
    ensures |s| < 4 ==> ParseHhmm(s) == Some(0)
    ensures |s| >= 4 ==> ParseHhmmUnguarded(s) == ParseHhmm(s)
    ensures |s| < 3 ==> ParseHhmmUnguarded(s) == None
  {
    if |s| < 3 {
      var lo := if |s| < 2 then |s| else 2;
      assert Strip(s[lo..|s|]) == [];
    }
  }

  /** The value of a two-digit string. */
  lemma TwoDigitValue(s: string)
    requires |s| == 2 && IsDigit(s[0]) && IsDigit(s[1])
    ensures DigitsValue(s) == Digit(s[0]) * 10 + Digit(s[1])
  {
    var first := [s[0]];
    assert s[..|s| - 1] == first;
    assert first[..|first| - 1] == [];
    assert DigitsValue(first) == Digit(s[0]);
  }

  /** Both parsers read a four-digit string field by field. */
  lemma DigitsOfTime(s: string)
    requires FourDigits(s)
    ensures ParseHhmm(s) == Some(HourField(s) * 60 + MinuteField(s))
    ensures ParseHhmmUnguarded(s) == ParseHhmm(s)
  {
    assert s[..4] == s && s[2..4] == s[2..];
    PyIntOfTwoDigits(s[..2]);
    PyIntOfTwoDigits(s[2..]);
  }

  /** `int()` of two digits. */
  lemma PyIntOfTwoDigits(s: string)
    requires |s| == 2 && IsDigit(s[0]) && IsDigit(s[1])
    ensures PyInt(s) == Some(Digit(s[0]) * 10 + Digit(s[1]))
  {
    PyIntOfDigits(s);
    TwoDigitValue(s);
  }

  /** Formatting a minute count of the day gives a well-formed time that parses back to it. */
  lemma FormatThenParse(minutes: int)
    requires 0 <= minutes < 1440
    ensures ValidHhmm(MinutesToHhmm(minutes))
    ensures Minutes(MinutesToHhmm(minutes)) == minutes
    ensures ParseHhmm(MinutesToHhmm(minutes)) == Some(minutes)
    ensures ParseHhmmUnguarded(MinutesToHhmm(minutes)) == Some(minutes)
  {
    var hh, mm := minutes / 60, minutes % 60;
    Pad2Digits(hh);
    Pad2Digits(mm);
    var s := MinutesToHhmm(minutes);
    assert s == [DigitChar(hh / 10), DigitChar(hh % 10), DigitChar(mm / 10), DigitChar(mm % 10)];
    assert HourField(s) == hh && MinuteField(s) == mm;
    ParseValid(s);
  }

  /** A well-formed time parses to a minute of the day and formats back to itself. */
  lemma ParseThenFormat(s: string)
    requires ValidHhmm(s)
    ensures ParseHhmm(s) == Some(Minutes(s)) && ParseHhmmUnguarded(s) == Some(Minutes(s))
    ensures 0 <= Minutes(s) < 1440
    ensures MinutesToHhmm(Minutes(s)) == s
  {
    ParseValid(s);
    FormatFields(s);
  }

  lemma MinutesInDay(s: string)
    requires ValidHhmm(s)
    ensures 0 <= Minutes(s) < 1440
  {
  }

  lemma ParseValid(s: string)
    requires ValidHhmm(s)
    ensures ParseHhmm(s) == Some(Minutes(s)) && ParseHhmmUnguarded(s) == Some(Minutes(s))
  {
    DigitsOfTime(s);
  }

  /** A well-formed time formats back from its minute count. */
  lemma FormatFields(s: string)
    requires ValidHhmm(s)
    ensures MinutesToHhmm(Minutes(s)) == s
  {
    var hh, mm := HourField(s), MinuteField(s);
    assert Minutes(s) / 60 == hh && Minutes(s) % 60 == mm;
    Pad2Digits(hh);
    Pad2Digits(mm);
    assert hh / 10 == Digit(s[0]) && hh % 10 == Digit(s[1]);
    assert mm / 10 == Digit(s[2]) && mm % 10 == Digit(s[3]);
  }

  /** Distinct minutes of the day format to distinct strings. */
  lemma FormatInjective(m1: int, m2: int)
    requires 0 <= m1 < 1440 && 0 <= m2 < 1440
    requires MinutesToHhmm(m1) == MinutesToHhmm(m2)
    ensures m1 == m2
  {
    FormatThenParse(m1);
    FormatThenParse(m2);
  }
}
