/**
  Shared vocabulary: an Option and a Result datatype for the source's `None`
  returns and raised exceptions, and the handful of Python string and integer
  primitives the pipeline's bookkeeping is built from (`in` on strings,
  `upper()`, `lower()`, `strip()`, `split(',')`, `int()`, `str()` and the
  `{:02d}` format). Case mapping and whitespace are ASCII only.
*/
module Common {

  datatype Option<T> = None | Some(value: T)

  /** A value, or the text of the exception the source raises instead. */
  datatype Result<T> = Ok(value: T) | Err(msg: string)

  predicate IsDigit(c: char) { '0' <= c <= '9' }

  predicate AllDigits(s: string) { forall i :: 0 <= i < |s| ==> IsDigit(s[i]) }

  /** Python `str.isdigit()` restricted to ASCII digits. */
  predicate IsDigitString(s: string) { |s| > 0 && AllDigits(s) }

  /**
    Python's whitespace, the characters `str.isspace()` accepts and `strip()`
    and `int()` remove: the ASCII controls 9-13 and 28-31, the space, and the
    Unicode separators.
  */
  predicate IsSpace(c: char) {
    '\t' <= c <= '\r' || '\U{1C}' <= c <= ' ' || c == '\U{85}' || c == '\U{A0}' || c == '\U{1680}' ||
    '\U{2000}' <= c <= '\U{200A}' || c == '\U{2028}' || c == '\U{2029}' || c == '\U{202F}' ||
    c == '\U{205F}' || c == '\U{3000}'
  }

  /** The decimal value of a string of digits. */
  function DigitsValue(s: string): (n: nat)
    requires AllDigits(s)
  {
    if s == [] then 0
    else DigitsValue(s[..|s| - 1]) * 10 + (s[|s| - 1] as int - '0' as int)
  }

  /** Python `s.strip()`: leading and trailing whitespace removed. */
  function Strip(s: string): string {
    if |s| > 0 && IsSpace(s[0]) then Strip(s[1..])
    else if |s| > 0 && IsSpace(s[|s| - 1]) then Strip(s[..|s| - 1])
    else s
  }

  /** `int(t)` for a string with no surrounding whitespace and no sign. */
  function Unsigned(t: string): Option<int> {
    if IsDigitString(t) then Some(DigitsValue(t)) else None
  }

  /** `int(t)` for a string with no surrounding whitespace. */
  function Signed(t: string): Option<int> {
    if |t| > 0 && t[0] == '-' then
      match Unsigned(t[1..])
      case Some(n) => Some(-n)
      case None => None
    else if |t| > 0 && t[0] == '+' then Unsigned(t[1..])
    else Unsigned(t)
  }

  /**
    Python `int(s)` for a decimal string: surrounding whitespace, an optional
    sign and at least one digit; `None` where Python raises ValueError.
  */
  function PyInt(s: string): Option<int>
    decreases |s|
  {
    if |s| > 0 && IsSpace(s[0]) then PyInt(s[1..])
    else if |s| > 0 && IsSpace(s[|s| - 1]) then PyInt(s[..|s| - 1])
    else Signed(s)
  }

  /** `int("\x1c5")` is 5 and `"\xa0x\x85".strip()` is `"x"`: the separators count as whitespace. */
  lemma SeparatorsAreWhitespace()
    ensures PyInt("\U{1C}5") == Some(5)
    ensures Strip("\U{A0}x\U{85}") == "x"
  {
  }

  /** Reading an integer ignores surrounding whitespace. */
  lemma PyIntStrips(s: string)
    ensures PyInt(s) == Signed(Strip(s))
  {
    if |s| > 0 && IsSpace(s[0]) {
      PyIntStrips(s[1..]);
    } else if |s| > 0 && IsSpace(s[|s| - 1]) {
      PyIntStrips(s[..|s| - 1]);
    }
  }

  /** A non-empty string of digits is read as its decimal value. */
  lemma PyIntOfDigits(s: string)
    requires IsDigitString(s)
    ensures PyInt(s) == Some(DigitsValue(s))
  {
  }

  function UpperChar(c: char): char {
    if 'a' <= c <= 'z' then (c as int - 32) as char else c
  }

  function LowerChar(c: char): char {
    if 'A' <= c <= 'Z' then (c as int + 32) as char else c
  }

  /** Python `s.upper()`. */
  function Upper(s: string): (r: string)
    ensures |r| == |s| && forall i :: 0 <= i < |s| ==> r[i] == UpperChar(s[i])
  {
    if s == [] then [] else [UpperChar(s[0])] + Upper(s[1..])
  }

  /** Python `s.lower()`. */
  function Lower(s: string): (r: string)
    ensures |r| == |s| && forall i :: 0 <= i < |s| ==> r[i] == LowerChar(s[i])
  {
    if s == [] then [] else [LowerChar(s[0])] + Lower(s[1..])
  }

  /** Python `sub in s`. */
  predicate Contains(s: string, sub: string) {
    sub <= s || (|s| > 0 && Contains(s[1..], sub))
  }

  /** Python `s.split(sep)` on a one-character separator. */
  function Split(s: string, sep: char): (parts: seq<string>)
    ensures |parts| >= 1
    ensures (sep !in s) <==> (|parts| == 1)
    ensures sep !in s ==> parts == [s]
  {
    if sep !in s then [s]
    else
      var i := FirstIndex(s, sep);
      [s[..i]] + Split(s[i + 1..], sep)
  }

  function FirstIndex(s: string, c: char): (i: nat)
    requires c in s
    ensures i < |s| && s[i] == c && c !in s[..i]
  {
    if s[0] == c then 0 else 1 + FirstIndex(s[1..], c)
  }

  /** The digit character for 0 <= d < 10. */
  function DigitChar(d: int): char
    requires 0 <= d < 10
  {
    ('0' as int + d) as char
  }

  /** Python `str(n)` for a natural number. */
  function NatToString(n: nat): string {
    if n < 10 then [DigitChar(n)]
    else NatToString(n / 10) + [DigitChar(n % 10)]
  }

  /** Python `str(n)`. */
  function IntToString(n: int): string {
    if n < 0 then "-" + NatToString(-n) else NatToString(n)
  }

  /** Python `f"{n:02d}"`: zero-padded to two characters, sign included. */
  function Pad2(n: int): string {
    if 0 <= n < 10 then "0" + NatToString(n)
    else IntToString(n)
  }

  /** `str(n)` is a string of digits denoting `n`, a single character exactly below 10. */
  lemma NatToStringDigits(n: nat)
    ensures IsDigitString(NatToString(n)) && DigitsValue(NatToString(n)) == n
    ensures n < 10 <==> |NatToString(n)| == 1
  {
    if n >= 10 {
      NatToStringDigits(n / 10);
      var s := NatToString(n);
      assert s[..|s| - 1] == NatToString(n / 10);
    }
  }

  /** Two-digit padding of 0..99 writes the tens digit, then the units digit. */
  lemma Pad2Digits(n: int)
    requires 0 <= n < 100
    ensures Pad2(n) == [DigitChar(n / 10), DigitChar(n % 10)]
  {
    if n >= 10 {
      assert NatToString(n / 10) == [DigitChar(n / 10)];
    }
  }

  /** Python `s[:n]` for a non-negative `n`. */
  function Prefix<T>(s: seq<T>, n: nat): (r: seq<T>)
    ensures |r| == if n < |s| then n else |s|
  {
    if n < |s| then s[..n] else s
  }
}
