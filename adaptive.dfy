/**
  `fetch_metrics_adaptive` (adaptive_metrics.py; routely-buffer-spike/adaptive_metrics.py
  is the same file): up to four metrics calls for a window; a gateway-class
  failure splits the window in half, one level of depth less, and a failed
  split falls back to retrying the whole window.

  The generator is modelled as the list of responses it yields before it
  returns or raises. The metrics call is the oracle `call(n)`, the answer of
  the `n`-th call; sleeps, the QPS throttle and printing are not modelled.
*/
module Adaptive {
  import opened Common
  import opened Hhmm

  /** What one metrics call does: return a response or raise `RuntimeError(msg)`. */
  datatype CallResult<R> = Answer(response: R) | Raise(msg: string)

  /** The exception a fetch ends with: a `RuntimeError`, or the `ValueError` of an unparsable time. */
  datatype FetchError = Runtime(msg: string) | BadTime

  /** The responses yielded, the exception raised (if any), and the number of calls made so far. */
  datatype Fetch<R> = Fetch(yielded: seq<R>, error: Option<FetchError>, calls: nat)

  /** `len(retry_delays) + 1`. */
  const ATTEMPTS := 4

  /** The failures treated as gateway protection or timeouts. */
  predicate GatewayError(msg: string) {
    Contains(msg, "504") || Contains(msg, "403") || Contains(Lower(msg), "timeout") ||
    Contains(msg, "500") || Contains(msg, "502") || Contains(msg, "503")
  }

  /** `split_time_window`: the end of the first half and the start of the second. */
  function SplitTimeWindow(fromTime: string, toTime: string): Option<(string, string)> {
    var f, t := ParseHhmm(fromTime), ParseHhmm(toTime);
    if f.Some? && t.Some? then
      var mid := (f.value + t.value) / 2;
      Some((MinutesToHhmm(mid), MinutesToHhmm(mid + 1)))
    else None
  }

  /** The split as the source computes it from the parsed ends. */
  lemma SplitOf(fromTime: string, toTime: string, f: int, t: int)
    requires ParseHhmm(fromTime) == Some(f) && ParseHhmm(toTime) == Some(t)
    ensures SplitTimeWindow(fromTime, toTime) == Some((MinutesToHhmm((f + t) / 2), MinutesToHhmm((f + t) / 2 + 1)))
  {
  }

  /**
    For a window whose ends parse to minutes `f < t` of the day, the split
    gives the halves `[from, mid]` and `[mid + 1, to]` with
    `mid = (f + t) // 2`: adjacent, inside the window, each end a
    well-formed time that parses back to its minute.
  */
  lemma SplitHalves(fromTime: string, toTime: string, f: int, t: int, mid: int)
    requires ParseHhmm(fromTime) == Some(f) && ParseHhmm(toTime) == Some(t) && 0 <= f < t < 1440
    requires mid == (f + t) / 2
    ensures SplitTimeWindow(fromTime, toTime) == Some((MinutesToHhmm(mid), MinutesToHhmm(mid + 1)))
    ensures f <= mid < t
    ensures ValidHhmm(MinutesToHhmm(mid)) && ParseHhmm(MinutesToHhmm(mid)) == Some(mid)
    ensures ValidHhmm(MinutesToHhmm(mid + 1)) && ParseHhmm(MinutesToHhmm(mid + 1)) == Some(mid + 1)
  {
    SplitOf(fromTime, toTime, f, t);
    assert ValidHhmm(MinutesToHhmm(mid)) && ParseHhmm(MinutesToHhmm(mid)) == Some(mid) by {
      FormatThenParse(mid);
    }
    assert ValidHhmm(MinutesToHhmm(mid + 1)) && ParseHhmm(MinutesToHhmm(mid + 1)) == Some(mid + 1) by {
      FormatThenParse(mid + 1);
    }
  }

  /** The exception after the last failed attempt. */
  function TerminalMessage(fromTime: string, toTime: string, duration: int, minWindow: int): (msg: string)
    ensures duration <= minWindow ==> msg == "Minimum window failed: " + fromTime + "-" + toTime
    ensures duration > minWindow ==> msg == "Gateway timeout after 4 attempts: " + fromTime + "-" + toTime
  {
    if duration <= minWindow then "Minimum window failed: " + fromTime + "-" + toTime
    else "Gateway timeout after 4 attempts: " + fromTime + "-" + toTime
  }

  /** The remaining split depth, as a termination measure. */
  function Depth(d: int): nat {
    if d > 0 then d else 0
  }

  /** `fetch_metrics_adaptive(from_time, to_time, max_depth, min_window_minutes)` starting at call `calls`. */
  function FetchAdaptive<R>(call: nat -> CallResult<R>, fromTime: string, toTime: string,
                            maxDepth: int, minWindow: int, calls: nat): Fetch<R>
    decreases Depth(maxDepth), 1, 0
  {
    var f, t := ParseHhmm(fromTime), ParseHhmm(toTime);
    if f.None? || t.None? then Fetch([], Some(BadTime), calls)
    else Attempts(call, fromTime, toTime, maxDepth, minWindow, t.value - f.value, 0, [], calls)
  }

  /** How a split ended: the fetch returned (or raised past the parent), or a `RuntimeError` was caught. */
  datatype SplitOutcome<R> = Returned(result: Fetch<R>) | Caught(yielded: seq<R>, calls: nat)

  /**
    The attempt loop from attempt `attempt` on, with `yielded` already
    yielded: a response is yielded and ends the fetch; a non-gateway failure
    is re-raised; a gateway failure splits when depth remains and the window
    is longer than the minimum, and otherwise, or when the split raised a
    `RuntimeError`, moves to the next attempt; after the last attempt the
    terminal error is raised.
  */
  function Attempts<R>(call: nat -> CallResult<R>, fromTime: string, toTime: string, maxDepth: int,
                       minWindow: int, duration: int, attempt: nat, yielded: seq<R>, calls: nat): Fetch<R>
    decreases Depth(maxDepth), 0, ATTEMPTS - attempt
  {
    if attempt >= ATTEMPTS then Fetch(yielded, Some(Runtime(TerminalMessage(fromTime, toTime, duration, minWindow))), calls)
    else
      match call(calls)
      case Answer(r) => Fetch(yielded + [r], None, calls + 1)
      case Raise(msg) =>
        if !GatewayError(msg) then Fetch(yielded, Some(Runtime(msg)), calls + 1)
        else
          var split := if maxDepth > 0 && duration > minWindow
                       then TrySplit(call, fromTime, toTime, maxDepth, minWindow, yielded, calls + 1)
                       else Caught(yielded, calls + 1);
          match split
          case Returned(result) => result
          case Caught(ys, n) => Attempts(call, fromTime, toTime, maxDepth, minWindow, duration, attempt + 1, ys, n)
  }

  /** Fetch the two halves one level deeper; a `RuntimeError` from either is caught, a `ValueError` is not. */
  function TrySplit<R>(call: nat -> CallResult<R>, fromTime: string, toTime: string, maxDepth: int,
                       minWindow: int, yielded: seq<R>, calls: nat): SplitOutcome<R>
    requires maxDepth > 0
    decreases Depth(maxDepth), 0, 0
  {
    match SplitTimeWindow(fromTime, toTime)
    case None => Returned(Fetch(yielded, Some(BadTime), calls))
    case Some((firstEnd, secondStart)) =>
      var first := FetchAdaptive(call, fromTime, firstEnd, maxDepth - 1, minWindow, calls);
      var soFar := yielded + first.yielded;
      if first.error == Some(BadTime) then Returned(Fetch(soFar, first.error, first.calls))
      else if first.error.Some? then Caught(soFar, first.calls)
      else
        var second := FetchAdaptive(call, secondStart, toTime, maxDepth - 1, minWindow, first.calls);
        var all := soFar + second.yielded;
        if second.error == Some(BadTime) then Returned(Fetch(all, second.error, second.calls))
        else if second.error.Some? then Caught(all, second.calls)
        else Returned(Fetch(all, None, second.calls))
  }

  // ---- The generator, as a recursive method ----

  /** `fetch_metrics_adaptive`, driven by its attempt loop. */
  method FetchMetricsAdaptive<R>(call: nat -> CallResult<R>, fromTime: string, toTime: string,
                                 maxDepth: int, minWindow: int, calls: nat)
    returns (yielded: seq<R>, error: Option<FetchError>, callsAfter: nat)
    ensures Fetch(yielded, error, callsAfter) == FetchAdaptive(call, fromTime, toTime, maxDepth, minWindow, calls)
    decreases Depth(maxDepth), 1, 0
  {
    var f, t := ParseHhmm(fromTime), ParseHhmm(toTime);
    if f.None? || t.None? {
      return [], Some(BadTime), calls;
    }
    var duration := t.value - f.value;
    yielded, callsAfter := [], calls;
    for attempt := 0 to ATTEMPTS
      invariant Attempts(call, fromTime, toTime, maxDepth, minWindow, duration, attempt, yielded, callsAfter) ==
                FetchAdaptive(call, fromTime, toTime, maxDepth, minWindow, calls)
    {
      ghost var yieldedBefore, callsBefore := yielded, callsAfter;
      var answer := call(callsAfter);
      callsAfter := callsAfter + 1;
      if answer.Answer? {
        return yielded + [answer.response], None, callsAfter;
      }
      if !GatewayError(answer.msg) {
        return yielded, Some(Runtime(answer.msg)), callsAfter;
      }
      if maxDepth > 0 && duration > minWindow {
        var done;
        done, yielded, error, callsAfter := SplitHalvesFetch(call, fromTime, toTime, maxDepth, minWindow, yielded, callsAfter);
        if done {
          return;
        }
      }
      assert Attempts(call, fromTime, toTime, maxDepth, minWindow, duration, attempt, yieldedBefore, callsBefore) ==
             Attempts(call, fromTime, toTime, maxDepth, minWindow, duration, attempt + 1, yielded, callsAfter);
    }
    error := Some(Runtime(TerminalMessage(fromTime, toTime, duration, minWindow)));
  }

  /** The split branch of the attempt loop: `done` when the fetch is over, else the `RuntimeError` was caught. */
  method SplitHalvesFetch<R>(call: nat -> CallResult<R>, fromTime: string, toTime: string, maxDepth: int,
                             minWindow: int, yielded: seq<R>, calls: nat)
    returns (done: bool, yieldedAfter: seq<R>, error: Option<FetchError>, callsAfter: nat)
    requires maxDepth > 0
    ensures var s := TrySplit(call, fromTime, toTime, maxDepth, minWindow, yielded, calls);
            if done then s == Returned(Fetch(yieldedAfter, error, callsAfter))
            else s == Caught(yieldedAfter, callsAfter)
    decreases Depth(maxDepth), 0, 0
  {
    var split := SplitTimeWindow(fromTime, toTime);
    if split.None? {
      return true, yielded, Some(BadTime), calls;
    }
    var (firstEnd, secondStart) := split.value;
    var ys, e, n := FetchMetricsAdaptive(call, fromTime, firstEnd, maxDepth - 1, minWindow, calls);
    yieldedAfter, callsAfter := yielded + ys, n;
    if e == Some(BadTime) {
      return true, yieldedAfter, e, callsAfter;
    } else if e.Some? {
      return false, yieldedAfter, None, callsAfter;
    }
    ys, e, n := FetchMetricsAdaptive(call, secondStart, toTime, maxDepth - 1, minWindow, callsAfter);
    yieldedAfter, callsAfter := yieldedAfter + ys, n;
    done := !(e.Some? && e != Some(BadTime));
    error := if done then e else None;
  }

  // ---- What the fetch promises ----

  /** Calls a fetch may make at depth `d`: four attempts, each with one call and two sub-fetches. */
  function CallBound(d: nat): nat
    decreases d, 1
  {
    ATTEMPTS * PerAttempt(d)
  }

  function PerAttempt(d: nat): nat
    decreases d, 0
  {
    if d == 0 then 1 else 1 + 2 * CallBound(d - 1)
  }

  /** Calls left to attempts `attempt` .. 3. */
  function AttemptsBound(attempt: nat, d: nat): nat
    decreases ATTEMPTS - attempt
  {
    if attempt >= ATTEMPTS then 0 else PerAttempt(d) + AttemptsBound(attempt + 1, d)
  }

  lemma {:induction false} AttemptsBoundValue(attempt: nat, d: nat)
    requires attempt <= ATTEMPTS
    ensures AttemptsBound(attempt, d) == (ATTEMPTS - attempt) * PerAttempt(d)
    decreases ATTEMPTS - attempt
  {
    if attempt < ATTEMPTS {
      AttemptsBoundValue(attempt + 1, d);
    }
  }

  /** A fetch result that extends what was yielded before, with at most one response per call and at most `bound` calls. */
  ghost predicate Within<R>(r: Fetch<R>, yielded: seq<R>, calls: nat, bound: nat) {
    yielded <= r.yielded && calls <= r.calls <= calls + bound &&
    |r.yielded| - |yielded| <= r.calls - calls
  }

  /**
    The whole fetch, sub-windows included, makes at most `CallBound(max_depth)`
    calls and yields at most one response per call; with no depth left it
    makes at most four.
  */
  lemma {:induction false} FetchBounded<R>(call: nat -> CallResult<R>, fromTime: string, toTime: string,
                                           maxDepth: int, minWindow: int, calls: nat)
    ensures Within(FetchAdaptive(call, fromTime, toTime, maxDepth, minWindow, calls), [], calls, CallBound(Depth(maxDepth)))
    decreases Depth(maxDepth), 1, 0
  {
    var f, t := ParseHhmm(fromTime), ParseHhmm(toTime);
    if f.Some? && t.Some? {
      AttemptsBounded(call, fromTime, toTime, maxDepth, minWindow, t.value - f.value, 0, [], calls);
      AttemptsBoundValue(0, Depth(maxDepth));
    }
  }

  lemma {:induction false} AttemptsBounded<R>(call: nat -> CallResult<R>, fromTime: string, toTime: string, maxDepth: int,
                                              minWindow: int, duration: int, attempt: nat, yielded: seq<R>, calls: nat)
    ensures Within(Attempts(call, fromTime, toTime, maxDepth, minWindow, duration, attempt, yielded, calls),
                   yielded, calls, AttemptsBound(attempt, Depth(maxDepth)))
    decreases Depth(maxDepth), 0, ATTEMPTS - attempt, 1
  {
    if attempt < ATTEMPTS && call(calls).Raise? && GatewayError(call(calls).msg) {
      GatewayAttemptBounded(call, fromTime, toTime, maxDepth, minWindow, duration, attempt, yielded, calls);
    }
  }

  /** `AttemptsBounded` for an attempt that fails with a gateway-class error. */
  lemma {:induction false} GatewayAttemptBounded<R>(call: nat -> CallResult<R>, fromTime: string, toTime: string,
                                                    maxDepth: int, minWindow: int, duration: int, attempt: nat,
                                                    yielded: seq<R>, calls: nat)
    requires attempt < ATTEMPTS && call(calls).Raise? && GatewayError(call(calls).msg)
    ensures Within(Attempts(call, fromTime, toTime, maxDepth, minWindow, duration, attempt, yielded, calls),
                   yielded, calls, AttemptsBound(attempt, Depth(maxDepth)))
    decreases Depth(maxDepth), 0, ATTEMPTS - attempt, 0
  {
    var d := Depth(maxDepth);
    var split := if maxDepth > 0 && duration > minWindow
                 then TrySplit(call, fromTime, toTime, maxDepth, minWindow, yielded, calls + 1)
                 else Caught(yielded, calls + 1);
    var n := calls + 1;
    var per := PerAttempt(d);
    if maxDepth > 0 && duration > minWindow {
      SplitBounded(call, fromTime, toTime, maxDepth, minWindow, yielded, n);
      assert per - 1 == 2 * CallBound(maxDepth - 1);
    }
    assert SplitWithin(split, yielded, n, per - 1);
    assert AttemptsBound(attempt, d) == per + AttemptsBound(attempt + 1, d);
    match split {
      case Returned(result) =>
        ReturnedWithin(result, yielded, calls, per, AttemptsBound(attempt + 1, d));
      case Caught(ys, m) =>
        var rest := Attempts(call, fromTime, toTime, maxDepth, minWindow, duration, attempt + 1, ys, m);
        AttemptsBounded(call, fromTime, toTime, maxDepth, minWindow, duration, attempt + 1, ys, m);
        CaughtThen(ys, m, rest, yielded, calls, per, AttemptsBound(attempt + 1, d));
    }
  }

  /** A split that returned within the attempt's own share is within the attempts' bound. */
  lemma ReturnedWithin<R>(r: Fetch<R>, yielded: seq<R>, calls: nat, per: nat, rest: nat)
    requires per >= 1 && Within(r, yielded, calls + 1, per - 1)
    ensures Within(r, yielded, calls, per + rest)
  {
  }

  /** A caught split within the attempt's share, followed by the later attempts within theirs. */
  lemma CaughtThen<R>(ys: seq<R>, m: nat, r: Fetch<R>, yielded: seq<R>, calls: nat, per: nat, rest: nat)
    requires per >= 1 && Within(Fetch(ys, None, m), yielded, calls + 1, per - 1) && Within(r, ys, m, rest)
    ensures Within(r, yielded, calls, per + rest)
  {
  }

  /** Where a split ends, in the shape of `Within`. */
  ghost predicate SplitWithin<R>(s: SplitOutcome<R>, yielded: seq<R>, calls: nat, bound: nat) {
    match s
    case Returned(r) => Within(r, yielded, calls, bound)
    case Caught(ys, n) => Within(Fetch(ys, None, n), yielded, calls, bound)
  }

  lemma {:induction false} SplitBounded<R>(call: nat -> CallResult<R>, fromTime: string, toTime: string, maxDepth: int,
                                           minWindow: int, yielded: seq<R>, calls: nat)
    requires maxDepth > 0
    ensures SplitWithin(TrySplit(call, fromTime, toTime, maxDepth, minWindow, yielded, calls),
                        yielded, calls, 2 * CallBound(maxDepth - 1))
    decreases Depth(maxDepth), 0, 0
  {
    match SplitTimeWindow(fromTime, toTime) {
      case None =>
      case Some((firstEnd, secondStart)) =>
        var bound := CallBound(maxDepth - 1);
        assert Depth(maxDepth - 1) == maxDepth - 1;
        var first := FetchAdaptive(call, fromTime, firstEnd, maxDepth - 1, minWindow, calls);
        FetchBounded(call, fromTime, firstEnd, maxDepth - 1, minWindow, calls);
        var soFar := yielded + first.yielded;
        WithinAfter(first, yielded, calls, bound, first.error);
        if first.error.None? {
          var second := FetchAdaptive(call, secondStart, toTime, maxDepth - 1, minWindow, first.calls);
          FetchBounded(call, secondStart, toTime, maxDepth - 1, minWindow, first.calls);
          WithinThen(soFar, first.calls, second, yielded, calls, bound, second.error);
        }
    }
  }

  /** A sub-fetch within its bound, appended to what was yielded before it. */
  lemma WithinAfter<R>(r: Fetch<R>, yielded: seq<R>, calls: nat, bound: nat, e: Option<FetchError>)
    requires Within(r, [], calls, bound)
    ensures Within(Fetch(yielded + r.yielded, e, r.calls), yielded, calls, bound)
    ensures Within(Fetch(yielded + r.yielded, e, r.calls), yielded, calls, 2 * bound)
  {
  }

  /** A second sub-fetch within its bound, appended to a first one within its own. */
  lemma WithinThen<R>(soFar: seq<R>, mid: nat, r: Fetch<R>, yielded: seq<R>, calls: nat, bound: nat, e: Option<FetchError>)
    requires Within(Fetch(soFar, None, mid), yielded, calls, bound) && Within(r, [], mid, bound)
    ensures Within(Fetch(soFar + r.yielded, e, r.calls), yielded, calls, 2 * bound)
  {
  }

  /** A first call that answers yields exactly that response, with no split and no further call. */
  lemma AnswerYieldsOnce<R>(call: nat -> CallResult<R>, fromTime: string, toTime: string,
                            maxDepth: int, minWindow: int, calls: nat)
    requires ParseHhmm(fromTime).Some? && ParseHhmm(toTime).Some? && call(calls).Answer?
    ensures FetchAdaptive(call, fromTime, toTime, maxDepth, minWindow, calls) == Fetch([call(calls).response], None, calls + 1)
  {
  }

  /** A first failure that is not gateway-class is re-raised at once, with no retry and no split. */
  lemma OtherErrorRaises<R>(call: nat -> CallResult<R>, fromTime: string, toTime: string,
                            maxDepth: int, minWindow: int, calls: nat)
    requires ParseHhmm(fromTime).Some? && ParseHhmm(toTime).Some?
    requires call(calls).Raise? && !GatewayError(call(calls).msg)
    ensures FetchAdaptive(call, fromTime, toTime, maxDepth, minWindow, calls) == Fetch([], Some(Runtime(call(calls).msg)), calls + 1)
  {
  }

  /** Four gateway failures in a row reach the terminal error when no split is allowed. */
  predicate FourGatewayFailures<R>(call: nat -> CallResult<R>, calls: nat) {
    forall n :: calls <= n < calls + ATTEMPTS ==> call(n).Raise? && GatewayError(call(n).msg)
  }

  /**
    Without a split (no depth left, or a window no longer than the minimum),
    four gateway failures make exactly four calls and raise "Minimum window
    failed" when the window is no longer than the minimum, else "Gateway
    timeout after 4 attempts".
  */
  lemma NoSplitExhausts<R>(call: nat -> CallResult<R>, fromTime: string, toTime: string,
                           maxDepth: int, minWindow: int, calls: nat)
    requires ParseHhmm(fromTime).Some? && ParseHhmm(toTime).Some?
    requires var duration := ParseHhmm(toTime).value - ParseHhmm(fromTime).value;
             maxDepth <= 0 || duration <= minWindow
    requires FourGatewayFailures(call, calls)
    ensures var duration := ParseHhmm(toTime).value - ParseHhmm(fromTime).value;
            FetchAdaptive(call, fromTime, toTime, maxDepth, minWindow, calls) ==
            Fetch([], Some(Runtime(TerminalMessage(fromTime, toTime, duration, minWindow))), calls + ATTEMPTS)
  {
    var duration := ParseHhmm(toTime).value - ParseHhmm(fromTime).value;
    NoSplitFrom(call, fromTime, toTime, maxDepth, minWindow, duration, 0, calls);
  }

  lemma {:induction false} NoSplitFrom<R>(call: nat -> CallResult<R>, fromTime: string, toTime: string, maxDepth: int,
                                          minWindow: int, duration: int, attempt: nat, start: nat)
    requires attempt <= ATTEMPTS && (maxDepth <= 0 || duration <= minWindow)
    requires FourGatewayFailures(call, start)
    ensures Attempts(call, fromTime, toTime, maxDepth, minWindow, duration, attempt, [], start + attempt) ==
            Fetch([], Some(Runtime(TerminalMessage(fromTime, toTime, duration, minWindow))), start + ATTEMPTS)
    decreases ATTEMPTS - attempt
  {
    if attempt < ATTEMPTS {
      assert call(start + attempt).Raise? && GatewayError(call(start + attempt).msg);
      NoSplitFrom(call, fromTime, toTime, maxDepth, minWindow, duration, attempt + 1, start);
    }
  }

  /**
    A failed split is not undone: when the first half yields `a` and the
    second half then fails, the whole window is fetched again and its
    response `b` is yielded after `a`, so the first half's services reach the
    caller twice. A non-gateway failure inside a half is caught by the parent
    like any other `RuntimeError`.
  */
  lemma FailedSplitYieldsAgain<R>(call: nat -> CallResult<R>, fromTime: string, toTime: string, f: int, t: int,
                                  minWindow: int, calls: nat, a: R, b: R)
    requires ParseHhmm(fromTime) == Some(f) && ParseHhmm(toTime) == Some(t) && 0 <= f < t < 1440
    requires t - f > minWindow
    requires call(calls).Raise? && GatewayError(call(calls).msg)
    requires call(calls + 1) == Answer(a)
    requires call(calls + 2).Raise? && !GatewayError(call(calls + 2).msg)
    requires call(calls + 3) == Answer(b)
    ensures FetchAdaptive(call, fromTime, toTime, 1, minWindow, calls) == Fetch([a, b], None, calls + 4)
  {
    var mid := (f + t) / 2;
    SplitHalves(fromTime, toTime, f, t, mid);
    HalvesFailThenRetry(call, fromTime, toTime, MinutesToHhmm(mid), MinutesToHhmm(mid + 1), minWindow, calls, a, b);
  }

  /** A split whose first half returns and whose second half raises a `RuntimeError` is caught. */
  lemma SecondHalfCaught<R>(call: nat -> CallResult<R>, fromTime: string, toTime: string, firstEnd: string,
                            secondStart: string, maxDepth: int, minWindow: int, yielded: seq<R>, calls: nat,
                            first: Fetch<R>, second: Fetch<R>)
    requires maxDepth > 0
    requires SplitTimeWindow(fromTime, toTime) == Some((firstEnd, secondStart))
    requires first == FetchAdaptive(call, fromTime, firstEnd, maxDepth - 1, minWindow, calls) && first.error.None?
    requires second == FetchAdaptive(call, secondStart, toTime, maxDepth - 1, minWindow, first.calls)
    requires second.error.Some? && second.error.value.Runtime?
    ensures TrySplit(call, fromTime, toTime, maxDepth, minWindow, yielded, calls) ==
            Caught(yielded + first.yielded + second.yielded, second.calls)
  {
  }

  /** A gateway failure whose split raised a `RuntimeError` moves on to the next attempt. */
  lemma RetryAfterCaught<R>(call: nat -> CallResult<R>, fromTime: string, toTime: string, maxDepth: int, minWindow: int,
                            duration: int, attempt: nat, yielded: seq<R>, calls: nat, caught: seq<R>, callsAfter: nat)
    requires attempt < ATTEMPTS && maxDepth > 0 && duration > minWindow
    requires call(calls).Raise? && GatewayError(call(calls).msg)
    requires TrySplit(call, fromTime, toTime, maxDepth, minWindow, yielded, calls + 1) == Caught(caught, callsAfter)
    ensures Attempts(call, fromTime, toTime, maxDepth, minWindow, duration, attempt, yielded, calls) ==
            Attempts(call, fromTime, toTime, maxDepth, minWindow, duration, attempt + 1, caught, callsAfter)
  {
  }

  /** `FailedSplitYieldsAgain` for any split whose four ends parse. */
  lemma HalvesFailThenRetry<R>(call: nat -> CallResult<R>, fromTime: string, toTime: string, firstEnd: string,
                               secondStart: string, minWindow: int, calls: nat, a: R, b: R)
    requires ParseHhmm(fromTime).Some? && ParseHhmm(toTime).Some?
    requires ParseHhmm(toTime).value - ParseHhmm(fromTime).value > minWindow
    requires SplitTimeWindow(fromTime, toTime) == Some((firstEnd, secondStart))
    requires ParseHhmm(firstEnd).Some? && ParseHhmm(secondStart).Some?
    requires call(calls).Raise? && GatewayError(call(calls).msg)
    requires call(calls + 1) == Answer(a)
    requires call(calls + 2).Raise? && !GatewayError(call(calls + 2).msg)
    requires call(calls + 3) == Answer(b)
    ensures FetchAdaptive(call, fromTime, toTime, 1, minWindow, calls) == Fetch([a, b], None, calls + 4)
  {
    var duration := ParseHhmm(toTime).value - ParseHhmm(fromTime).value;
    var first := FetchAdaptive(call, fromTime, firstEnd, 0, minWindow, calls + 1);
    AnswerYieldsOnce(call, fromTime, firstEnd, 0, minWindow, calls + 1);
    var second := FetchAdaptive(call, secondStart, toTime, 0, minWindow, calls + 2);
    OtherErrorRaises(call, secondStart, toTime, 0, minWindow, calls + 2);
    SecondHalfCaught(call, fromTime, toTime, firstEnd, secondStart, 1, minWindow, [], calls + 1, first, second);
    RetryAfterCaught(call, fromTime, toTime, 1, minWindow, duration, 0, [], calls, [a], calls + 3);
    AttemptAnswers(call, fromTime, toTime, 1, minWindow, duration, 1, [a], calls + 3);
    assert [a] + [b] == [a, b];
  }

  /** An attempt that gets a response yields it and ends the fetch. */
  lemma AttemptAnswers<R>(call: nat -> CallResult<R>, fromTime: string, toTime: string, maxDepth: int, minWindow: int,
                          duration: int, attempt: nat, yielded: seq<R>, calls: nat)
    requires attempt < ATTEMPTS && call(calls).Answer?
    ensures Attempts(call, fromTime, toTime, maxDepth, minWindow, duration, attempt, yielded, calls) ==
            Fetch(yielded + [call(calls).response], None, calls + 1)
  {
  }
}
