/**
  The RDM client (rdm_client.py): the two timeouts it keeps, the metrics
  payload, and the manual retry loop shared by `get_metrics` and
  `get_details`: up to four POSTs, the first 200 response returned, any
  other status or a transport exception retried, and the last failure
  raised with its message.

  The POSTs are the oracle `post(request)(attempt)`; the session's own
  urllib3 retries, the backoff sleeps and the JSON decoding are not part of
  this model.
*/
module RdmClient {
  import opened Common

  const BASE := "https://api1.raildata.org.uk/1010-historical-service-performance-_hsp_v1/api/v1"
  const METRICS_URL := BASE + "/serviceMetrics"
  const DETAILS_URL := BASE + "/serviceDetails"

  /** `len(retry_delays) + 1`. */
  const MAX_ATTEMPTS := 4

  const MAX_RETRIES_ERROR := "Maximum retries exceeded"

  /** A JSON value of the request bodies. */
  datatype JsonValue = Str(s: string) | StrList(items: seq<string>)

  /** One POST: its URL, JSON body and timeout in seconds. */
  datatype Request = Request(url: string, body: map<string, JsonValue>, timeout: int)

  /** What a POST comes back with: a response (the body read as text), or a `RequestException`. */
  datatype PostResult = Response(status: int, text: string) | RequestFailed(error: string)

  /** The POSTs of one request, by attempt number. */
  type Posts = nat -> PostResult

  /** The message raised for the failure of the last attempt. */
  function FailureMessage(url: string, p: PostResult): (m: string)
    ensures m != MAX_RETRIES_ERROR
  {
    match p
    case Response(status, text) =>
      var m := "HTTP " + IntToString(status) + " from " + url + ": " + Prefix(text, 300);
      assert m[0] == 'H';
      m
    case RequestFailed(e) =>
      var m := "Request failed: " + e;
      assert m[0] == 'R';
      m
  }

  /**
    The retry loop from `attempt` on: the result (a 200 body, or the
    message raised) and the number of POSTs made so far.
  */
  function Retry(posts: Posts, url: string, attempt: nat): (r: (Result<string>, nat))
    ensures attempt <= MAX_ATTEMPTS ==> r.1 <= MAX_ATTEMPTS
    ensures attempt < MAX_ATTEMPTS ==> attempt < r.1 && r.0 != Err(MAX_RETRIES_ERROR)
    decreases MAX_ATTEMPTS - attempt
  {
    if attempt >= MAX_ATTEMPTS then (Err(MAX_RETRIES_ERROR), attempt)
    else
      var p := posts(attempt);
      if p.Response? && p.status == 200 then (Ok(p.text), attempt + 1)
      else if attempt == MAX_ATTEMPTS - 1 then (Err(FailureMessage(url, p)), attempt + 1)
      else Retry(posts, url, attempt + 1)
  }

  /** The POST of attempt `i` does not succeed. */
  predicate Fails(p: PostResult) {
    !(p.Response? && p.status == 200)
  }

  /** The first successful POST is returned, after exactly that many POSTs. */
  lemma {:induction false} FirstSuccessReturned(posts: Posts, url: string, attempt: nat, i: nat)
    requires attempt <= i < MAX_ATTEMPTS
    requires posts(i).Response? && posts(i).status == 200
    requires forall j :: attempt <= j < i ==> Fails(posts(j))
    ensures Retry(posts, url, attempt) == (Ok(posts(i).text), i + 1)
    decreases i - attempt
  {
    if attempt < i {
      FirstSuccessReturned(posts, url, attempt + 1, i);
    }
  }

  /** Four failed POSTs raise the failure of the fourth: a 4xx status is retried like a 5xx one. */
  lemma {:induction false} AllFailRaisesLast(posts: Posts, url: string, attempt: nat)
    requires attempt < MAX_ATTEMPTS
    requires forall j :: attempt <= j < MAX_ATTEMPTS ==> Fails(posts(j))
    ensures Retry(posts, url, attempt) == (Err(FailureMessage(url, posts(MAX_ATTEMPTS - 1))), MAX_ATTEMPTS)
    decreases MAX_ATTEMPTS - attempt
  {
    if attempt < MAX_ATTEMPTS - 1 {
      AllFailRaisesLast(posts, url, attempt + 1);
    }
  }

  /** An error status carries the status, the URL and at most 300 characters of the body. */
  lemma StatusMessageShape(url: string, status: int, text: string)
    ensures var m := FailureMessage(url, Response(status, text));
            m == "HTTP " + IntToString(status) + " from " + url + ": " + Prefix(text, 300) &&
            |m| <= |"HTTP " + IntToString(status) + " from " + url + ": "| + 300 &&
            (|text| <= 300 ==> m == "HTTP " + IntToString(status) + " from " + url + ": " + text)
  {
  }

  /** The metrics payload: the seven base fields, and `toc_filter` exactly when one is given. */
  function MetricsPayload(fromLoc: string, toLoc: string, fromTime: string, toTime: string, fromDate: string,
                          toDate: string, days: string, tocFilter: Option<seq<string>>): (p: map<string, JsonValue>)
    ensures p.Keys == BASE_FIELDS + (if tocFilter.Some? then {"toc_filter"} else {})
    ensures p["from_loc"] == Str(fromLoc) && p["to_loc"] == Str(toLoc) && p["from_time"] == Str(fromTime) &&
            p["to_time"] == Str(toTime) && p["from_date"] == Str(fromDate) && p["to_date"] == Str(toDate) &&
            p["days"] == Str(days)
    ensures tocFilter.Some? ==> p["toc_filter"] == StrList(tocFilter.value)
  {
    var base := map["from_loc" := Str(fromLoc), "to_loc" := Str(toLoc), "from_time" := Str(fromTime),
                     "to_time" := Str(toTime), "from_date" := Str(fromDate), "to_date" := Str(toDate),
                     "days" := Str(days)];
    if tocFilter.Some? then base["toc_filter" := StrList(tocFilter.value)] else base
  }

  const BASE_FIELDS: set<string> := {"from_loc", "to_loc", "from_time", "to_time", "from_date", "to_date", "days"}

  /** The client's configuration and its two requests. */
  class Client {
    var metricsTimeout: int
    var detailsTimeout: int

    /** The default timeouts. */
    constructor()
      ensures metricsTimeout == 120 && detailsTimeout == 30
    {
      metricsTimeout := 120;
      detailsTimeout := 30;
    }

    method SetMetricsTimeout(seconds: int)
      modifies this
      ensures metricsTimeout == seconds && detailsTimeout == old(detailsTimeout)
    {
      metricsTimeout := seconds;
    }

    method SetDetailsTimeout(seconds: int)
      modifies this
      ensures detailsTimeout == seconds && metricsTimeout == old(metricsTimeout)
    {
      detailsTimeout := seconds;
    }

    /** `timeout if timeout is not None else self.metrics_timeout`. */
    function RequestTimeout(timeout: Option<int>): (t: int)
      reads this
      ensures timeout.Some? ==> t == timeout.value
      ensures timeout.None? ==> t == metricsTimeout
    {
      if timeout.Some? then timeout.value else metricsTimeout
    }

    /** The retry loop over the POSTs of one request. */
    method PostWithRetries(posts: Posts, url: string) returns (r: Result<string>, calls: nat)
      ensures (r, calls) == Retry(posts, url, 0)
    {
      calls := 0;
      for attempt := 0 to MAX_ATTEMPTS
        invariant calls == attempt
        invariant Retry(posts, url, attempt) == Retry(posts, url, 0)
      {
        var resp := posts(attempt);
        calls := calls + 1;
        if resp.Response? && resp.status == 200 {
          return Ok(resp.text), calls;
        }
        if attempt == MAX_ATTEMPTS - 1 {
          return Err(FailureMessage(url, resp)), calls;
        }
      }
      r := Err(MAX_RETRIES_ERROR);
    }

    /** `get_metrics`: every POST carries the payload and the request timeout. */
    method GetMetrics(fromLoc: string, toLoc: string, fromTime: string, toTime: string, fromDate: string,
                      toDate: string, days: string, tocFilter: Option<seq<string>>, timeout: Option<int>,
                      post: Request -> Posts)
      returns (r: Result<string>, calls: nat)
      ensures var request := Request(METRICS_URL, MetricsPayload(fromLoc, toLoc, fromTime, toTime, fromDate, toDate, days, tocFilter),
                                     RequestTimeout(timeout));
              (r, calls) == Retry(post(request), METRICS_URL, 0)
      ensures calls <= MAX_ATTEMPTS && r != Err(MAX_RETRIES_ERROR)
    {
      var payload := MetricsPayload(fromLoc, toLoc, fromTime, toTime, fromDate, toDate, days, tocFilter);
      var request := Request(METRICS_URL, payload, RequestTimeout(timeout));
      r, calls := PostWithRetries(post(request), METRICS_URL);
    }

    /** `get_details`: every POST carries `{"rid": rid}` and the details timeout. */
    method GetDetails(rid: string, post: Request -> Posts) returns (r: Result<string>, calls: nat)
      ensures (r, calls) == Retry(post(Request(DETAILS_URL, map["rid" := Str(rid)], detailsTimeout)), DETAILS_URL, 0)
      ensures calls <= MAX_ATTEMPTS && r != Err(MAX_RETRIES_ERROR)
    {
      r, calls := PostWithRetries(post(Request(DETAILS_URL, map["rid" := Str(rid)], detailsTimeout)), DETAILS_URL);
    }
  }
}
