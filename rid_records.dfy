/**
  The RID records both day ingesters build from metrics responses
  (ingest_day.py and routely-buffer-spike/ingest_day.py): one record per
  string RID of each service, deduplicated by RID, then capped per
  `(origin, dest, hour)` group.
*/
module RidRecords {
  import opened Common
  import opened Dedup
  import opened SliceTask
  import opened Routes

  /** A service's `serviceAttributesMetrics`: `None` stands for an absent key, `gbtt_pta` defaults to "". */
  datatype ServiceAttrs = ServiceAttrs(rids: seq<RidValue>, originLocation: Option<string>,
                                       destinationLocation: Option<string>, gbttPta: string)

  /** A RID with the route and planned hour it is filed under. */
  datatype RidRecord = RidRecord(rid: string, origin: string, dest: string, gbttPta: string, hour: Option<int>)

  /** Which route a record is filed under: the query's (the spike ingester) or the service's own (the other). */
  datatype Tagging = QueryRoute | ServiceRoute

  /** The `(origin, dest)` a service's records carry; `attrs.get(key, default)` for the service's own. */
  function Tag(tagging: Tagging, a: ServiceAttrs, origin: string, dest: string): (string, string) {
    match tagging
    case QueryRoute => (origin, dest)
    case ServiceRoute =>
      (if a.originLocation.Some? then a.originLocation.value else origin,
       if a.destinationLocation.Some? then a.destinationLocation.value else dest)
  }

  /** `int(gbtt_pta[:2])` when `gbtt_pta` has at least two characters, `None` otherwise or when `int()` raises. */
  function HourOf(gbttPta: string): Option<int> {
    if |gbttPta| >= 2 then PyInt(gbttPta[..2]) else None
  }

  /** The record of RID `rid` of service `a`. */
  function RecordOf(tagging: Tagging, a: ServiceAttrs, origin: string, dest: string, rid: string): RidRecord {
    var route := Tag(tagging, a, origin, dest);
    RidRecord(rid, route.0, route.1, a.gbttPta, HourOf(a.gbttPta))
  }

  /** The records of the first `n` entries of a service's `rids`, skipping the ones that are not strings. */
  function ServiceRecords(tagging: Tagging, a: ServiceAttrs, origin: string, dest: string, n: nat): seq<RidRecord>
    requires n <= |a.rids|
  {
    if n == 0 then []
    else
      var front := ServiceRecords(tagging, a, origin, dest, n - 1);
      match a.rids[n - 1]
      case RidText(rid) => front + [RecordOf(tagging, a, origin, dest, rid)]
      case RidOther => front
  }

  /** The records of a list of services, in order. */
  function Records(tagging: Tagging, services: seq<ServiceAttrs>, origin: string, dest: string): seq<RidRecord> {
    if services == [] then []
    else
      var last := services[|services| - 1];
      Records(tagging, services[..|services| - 1], origin, dest) + ServiceRecords(tagging, last, origin, dest, |last.rids|)
  }

  /** The nested loop over services and their `rids` appending to `all_rids`. */
  method CollectRecords(records: seq<RidRecord>, tagging: Tagging, services: seq<ServiceAttrs>, origin: string, dest: string)
    returns (out: seq<RidRecord>)
    ensures out == records + Records(tagging, services, origin, dest)
  {
    out := records;
    for i := 0 to |services|
      invariant out == records + Records(tagging, services[..i], origin, dest)
    {
      var a := services[i];
      for j := 0 to |a.rids|
        invariant out == records + Records(tagging, services[..i], origin, dest) + ServiceRecords(tagging, a, origin, dest, j)
      {
        if a.rids[j].RidText? {
          out := out + [RecordOf(tagging, a, origin, dest, a.rids[j].text)];
        }
      }
      assert services[..i + 1][..i] == services[..i];
    }
    assert services[..|services|] == services;
  }

  /** The records of one service are exactly its string RIDs, each filed under the service's tag and hour. */
  lemma {:induction false} ServiceRecordsMembers(tagging: Tagging, a: ServiceAttrs, origin: string, dest: string, n: nat, r: RidRecord)
    requires n <= |a.rids|
    ensures r in ServiceRecords(tagging, a, origin, dest, n) <==>
            (exists j :: 0 <= j < n && a.rids[j] == RidText(r.rid)) && r == RecordOf(tagging, a, origin, dest, r.rid)
    ensures |ServiceRecords(tagging, a, origin, dest, n)| <= n
  {
    if n > 0 {
      ServiceRecordsMembers(tagging, a, origin, dest, n - 1, r);
      if r == RecordOf(tagging, a, origin, dest, r.rid) && a.rids[n - 1] == RidText(r.rid) {
        assert r in ServiceRecords(tagging, a, origin, dest, n);
      }
    }
  }

  /**
    A record is collected exactly when it is the record of a string RID of
    one of the services, filed under that service's tag and hour.
  */
  lemma {:induction false} RecordsMembers(tagging: Tagging, services: seq<ServiceAttrs>, origin: string, dest: string, r: RidRecord)
    ensures r in Records(tagging, services, origin, dest) <==>
            exists i :: 0 <= i < |services| && RidText(r.rid) in services[i].rids &&
                        r == RecordOf(tagging, services[i], origin, dest, r.rid)
    decreases |services|
  {
    if services != [] {
      var front, last := services[..|services| - 1], services[|services| - 1];
      RecordsMembers(tagging, front, origin, dest, r);
      ServiceRecordsMembers(tagging, last, origin, dest, |last.rids|, r);
      if exists i :: 0 <= i < |services| && RidText(r.rid) in services[i].rids &&
                     r == RecordOf(tagging, services[i], origin, dest, r.rid) {
        var i :| 0 <= i < |services| && RidText(r.rid) in services[i].rids &&
                 r == RecordOf(tagging, services[i], origin, dest, r.rid);
        if i < |front| {
          assert front[i] == services[i];
        } else {
          var j :| 0 <= j < |last.rids| && last.rids[j] == RidText(r.rid);
        }
      }
      if exists i :: 0 <= i < |front| && RidText(r.rid) in front[i].rids &&
                     r == RecordOf(tagging, front[i], origin, dest, r.rid) {
        var i :| 0 <= i < |front| && RidText(r.rid) in front[i].rids &&
                 r == RecordOf(tagging, front[i], origin, dest, r.rid);
        assert services[i] == front[i];
      }
    }
  }

  /** With the query's route, every record is filed under the queried origin and destination. */
  lemma QueryTagged(services: seq<ServiceAttrs>, origin: string, dest: string, r: RidRecord)
    requires r in Records(QueryRoute, services, origin, dest)
    ensures r.origin == origin && r.dest == dest
  {
    RecordsMembers(QueryRoute, services, origin, dest, r);
  }

  // ---- Deduplication by RID ----

  function RidKey(r: RidRecord): string { r.rid }

  /** `drop_duplicates(subset=['rid'])`: the first record of each RID, no RID twice, no RID lost. */
  function DedupByRid(records: seq<RidRecord>): (deduped: seq<RidRecord>)
    ensures |deduped| <= |records|
    ensures UniqueKeys(deduped, RidKey)
    ensures forall rid :: HasKey(deduped, RidKey, rid) <==> HasKey(records, RidKey, rid)
  {
    DropDuplicates(records, RidKey)
  }

  // ---- The cap per (origin, dest, hour) ----

  /** A group of `groupby(["origin", "dest", "hour"])`; rows whose hour is None belong to none. */
  datatype GroupKey = GroupKey(origin: string, dest: string, hour: int)

  predicate InGroup(r: RidRecord, g: GroupKey) {
    r.hour == Some(g.hour) && r.origin == g.origin && r.dest == g.dest
  }

  /** The number of records of `rs` in group `g`. */
  function GroupCount(rs: seq<RidRecord>, g: GroupKey): nat {
    if rs == [] then 0
    else GroupCount(rs[..|rs| - 1], g) + (if InGroup(rs[|rs| - 1], g) then 1 else 0)
  }

  function Min(a: int, b: int): int { if a <= b then a else b }

  /**
    A result of `groupby(...).apply(lambda g: g.sample(n=min(len(g), rid_cap)))`:
    records taken from the input, each in a group, and `min(len(g), cap)` of
    each group. Which records pandas samples is left open.
  */
  ghost predicate CappedFrom(rs: seq<RidRecord>, capped: seq<RidRecord>, cap: nat) {
    multiset(capped) <= multiset(rs) &&
    (forall i :: 0 <= i < |capped| ==> capped[i].hour.Some?) &&
    (forall g :: GroupCount(capped, g) == Min(GroupCount(rs, g), cap))
  }

  /** One choice of the sample: the first `cap` records of each group, in input order. */
  method ApplyCap(rs: seq<RidRecord>, cap: nat) returns (capped: seq<RidRecord>)
    ensures CappedFrom(rs, capped, cap)
  {
    capped := [];
    for i := 0 to |rs|
      invariant multiset(capped) <= multiset(rs[..i])
      invariant forall k :: 0 <= k < |capped| ==> capped[k].hour.Some?
      invariant forall g :: GroupCount(capped, g) == Min(GroupCount(rs[..i], g), cap)
    {
      var r := rs[i];
      assert rs[..i + 1] == rs[..i] + [r];
      if r.hour.Some? && GroupCount(capped, GroupKey(r.origin, r.dest, r.hour.value)) < cap {
        assert (capped + [r])[..|capped|] == capped;
        capped := capped + [r];
      }
    }
    assert rs[..|rs|] == rs;
  }

  /** The cap keeps at most `cap` records per group and never adds records. */
  lemma CapBounds(rs: seq<RidRecord>, capped: seq<RidRecord>, cap: nat, g: GroupKey)
    requires CappedFrom(rs, capped, cap)
    ensures |capped| <= |rs|
    ensures GroupCount(capped, g) <= cap && GroupCount(capped, g) <= GroupCount(rs, g)
  {
    var rest := multiset(rs) - multiset(capped);
    assert multiset(rs) == multiset(capped) + rest;
    assert |multiset(rs)| == |multiset(capped)| + |rest|;
    assert GroupCount(capped, g) == Min(GroupCount(rs, g), cap);
  }

  /** pandas' `ValueError` for `sample(n=...)` with a negative `n`. */
  const NEGATIVE_SAMPLE_ERROR := "A negative number of rows requested. Please provide `n` >= 0."

  /** With a negative `rid_cap` every group asks for a negative sample, so the cap raises once a group exists. */
  predicate CapRaises(deduped: seq<RidRecord>, ridCap: Option<int>) {
    ridCap.Some? && ridCap.value < 0 && exists i :: 0 <= i < |deduped| && deduped[i].hour.Some?
  }

  /** The records the cap may leave: all of them without a cap, else a sample of each group. */
  ghost predicate KeptAdmissible(deduped: seq<RidRecord>, ridCap: Option<int>, kept: seq<RidRecord>) {
    if ridCap.None? then kept == deduped
    else CappedFrom(deduped, kept, if ridCap.value < 0 then 0 else ridCap.value)
  }

  /** `if rid_cap is not None:` the grouped sample. */
  method CapRecords(deduped: seq<RidRecord>, ridCap: Option<int>) returns (r: Result<seq<RidRecord>>)
    ensures r.Err? <==> CapRaises(deduped, ridCap)
    ensures r.Err? ==> r.msg == NEGATIVE_SAMPLE_ERROR
    ensures r.Ok? ==> KeptAdmissible(deduped, ridCap, r.value)
  {
    if ridCap.None? {
      return Ok(deduped);
    }
    if CapRaises(deduped, ridCap) {
      return Err(NEGATIVE_SAMPLE_ERROR);
    }
    var capped := ApplyCap(deduped, if ridCap.value < 0 then 0 else ridCap.value);
    return Ok(capped);
  }

  // ---- Shared by both ingesters ----

  /** `{"date": ..., "rids": ..., "rows": ...}`. */
  datatype DaySummary = DaySummary(date: string, rids: nat, rows: nat)

  /** The window of every metrics query: the one given, else the whole day. */
  function QueryWindow(timeWindow: Option<Window>): (w: Window)
    ensures timeWindow.None? ==> w == Window("0000", "2359")
    ensures timeWindow.Some? ==> w == timeWindow.value
  {
    if timeWindow.Some? then timeWindow.value else Window("0000", "2359")
  }

  /** `[routes_filter] if routes_filter else ROUTES`. */
  function RoutesFor(routesFilter: Option<Route>): (routes: seq<Route>)
    ensures routesFilter.Some? ==> routes == [routesFilter.value]
    ensures routesFilter.None? ==> routes == ROUTES
  {
    if routesFilter.Some? then [routesFilter.value] else ROUTES
  }
}
