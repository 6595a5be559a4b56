/**
  State hygiene (scripts/clean_state.py): clearing the failure statuses from
  the state file so that a resumed run retries those slices, the per-status
  summary of the state file, and pruning QA reports to the newest few.

  The state file is a `StateFile` object whose `content` is the parsed JSON
  document, `None` when the file is missing or unreadable; whether writing it
  back succeeds is the parameter `saveOk`. The report directory is the list
  of its `qa_*.html` files with their modification times, and whether each
  unlink succeeds is the oracle `unlinkOk`.
*/
module CleanState {
  import opened Common
  import opened TaskStore
  import opened Sorting

  /** The statuses `clean_failed_slices` removes. */
  predicate Clearable(status: string) {
    status == "failed" || status == "timeout" || status == "circuit_breaker"
  }

  /** The keys whose status is cleared. */
  function Cleared(slices: map<string, string>): (keys: set<string>)
    ensures keys <= slices.Keys
  {
    set k | k in slices && Clearable(slices[k])
  }

  /** The statuses that survive: every key whose status is not a failure, with its status. */
  function Kept(slices: map<string, string>): (kept: map<string, string>)
    ensures kept.Keys == slices.Keys - Cleared(slices)
  {
    map k | k in slices && !Clearable(slices[k]) :: slices[k]
  }

  /** The document once the failure statuses and their metadata are removed. */
  function Cleaned(s: Snapshot): Snapshot {
    Snapshot(Kept(s.slices), s.sliceMetadata - Cleared(s.slices), s.plannedTasks)
  }

  class StateFile {
    /** The parsed document, or `None` when the file is missing or cannot be read. */
    var content: Option<Snapshot>

    constructor (content: Option<Snapshot>)
      ensures this.content == content
    {
      this.content := content;
    }

    /**
      `clean_failed_slices`: the number of failure statuses removed, and the
      file rewritten without them when there were any. A missing or
      unreadable file, or a failed write, returns 0 and leaves the file as it
      was.
    */
    method CleanFailedSlices(saveOk: bool) returns (count: nat)
      modifies this
      ensures old(content).None? ==> count == 0 && content == old(content)
      ensures old(content).Some? && Cleared(old(content).value.slices) == {} ==> count == 0 && content == old(content)
      ensures old(content).Some? && Cleared(old(content).value.slices) != {} ==>
                if saveOk then count == |Cleared(old(content).value.slices)| && content == Some(Cleaned(old(content).value))
                else count == 0 && content == old(content)
    {
      if content.None? {
        return 0;
      }
      var snap := content.value;
      var slices, meta;
      slices, meta, count := RemoveFailures(snap.slices, snap.sliceMetadata);
      if count > 0 {
        if !saveOk {
          return 0;
        }
        content := Some(Snapshot(slices, meta, snap.plannedTasks));
      }
    }
  }

  /**
    The loop of `clean_failed_slices` over a copy of the items: each failure
    status is deleted with its metadata and counted.
  */
  method RemoveFailures(slices0: map<string, string>, meta0: map<string, Metadata>)
    returns (slices: map<string, string>, meta: map<string, Metadata>, count: nat)
    ensures slices == Kept(slices0)
    ensures meta == meta0 - Cleared(slices0)
    ensures count == |Cleared(slices0)|
  {
    slices, meta, count := RemoveLoop(slices0, meta0);
    RemoveDone(slices0, meta0, slices, meta, count);
  }

  /** The loop itself: every key visited, the failures removed and counted. */
  method RemoveLoop(slices0: map<string, string>, meta0: map<string, Metadata>)
    returns (slices: map<string, string>, meta: map<string, Metadata>, count: nat)
    ensures RemovingState(slices0, meta0, {}, slices, meta, count)
  {
    slices, meta := slices0, meta0;
    var keys := slices0.Keys;
    count := 0;
    RemovingStart(slices0, meta0);
    while keys != {}
      invariant keys <= slices0.Keys
      invariant RemovingState(slices0, meta0, keys, slices, meta, count)
      decreases keys
    {
      var k :| k in keys;
      RemoveStateStep(slices0, meta0, keys, k, slices, meta, count);
      if Clearable(slices0[k]) {
        slices := slices - {k};
        meta := meta - {k};
        count := count + 1;
      }
      keys := keys - {k};
    }
  }

  /** Before the loop nothing is visited, removed or counted. */
  lemma RemovingStart(slices0: map<string, string>, meta0: map<string, Metadata>)
    ensures RemovingState(slices0, meta0, slices0.Keys, slices0, meta0, 0)
  {
    assert Remaining(slices0, slices0.Keys) == slices0;
    assert Cleared(slices0) - slices0.Keys == {};
  }

  /** The loop's state while it has still to visit `keys`. */
  predicate RemovingState(slices0: map<string, string>, meta0: map<string, Metadata>, keys: set<string>,
                          slices: map<string, string>, meta: map<string, Metadata>, count: nat) {
    slices == Remaining(slices0, keys) && meta == meta0 - (Cleared(slices0) - keys) &&
    count == |Cleared(slices0) - keys|
  }

  /** One turn of the loop keeps its state: a failure is removed with its metadata and counted, anything else stays. */
  lemma RemoveStateStep(slices0: map<string, string>, meta0: map<string, Metadata>, keys: set<string>, k: string,
                        slices: map<string, string>, meta: map<string, Metadata>, count: nat)
    requires k in keys && keys <= slices0.Keys && RemovingState(slices0, meta0, keys, slices, meta, count)
    ensures Clearable(slices0[k]) ==> RemovingState(slices0, meta0, keys - {k}, slices - {k}, meta - {k}, count + 1)
    ensures !Clearable(slices0[k]) ==> RemovingState(slices0, meta0, keys - {k}, slices, meta, count)
  {
    RemoveStep(slices0, meta0, keys, k);
  }

  /** The statuses while the loop has still to visit `keys`: the visited failures are gone. */
  function Remaining(slices: map<string, string>, keys: set<string>): map<string, string> {
    map k | k in slices && (k in keys || !Clearable(slices[k])) :: slices[k]
  }

  /** One turn of the loop: visiting `k` removes it, with its metadata, exactly when it is a failure. */
  lemma RemoveStep(slices0: map<string, string>, meta0: map<string, Metadata>, keys: set<string>, k: string)
    requires k in keys && keys <= slices0.Keys
    ensures Remaining(slices0, keys - {k}) ==
            if Clearable(slices0[k]) then Remaining(slices0, keys) - {k} else Remaining(slices0, keys)
    ensures meta0 - (Cleared(slices0) - (keys - {k})) ==
            if Clearable(slices0[k]) then meta0 - (Cleared(slices0) - keys) - {k} else meta0 - (Cleared(slices0) - keys)
    ensures |Cleared(slices0) - (keys - {k})| ==
            if Clearable(slices0[k]) then |Cleared(slices0) - keys| + 1 else |Cleared(slices0) - keys|
  {
    var cleared := Cleared(slices0);
    if Clearable(slices0[k]) {
      assert cleared - (keys - {k}) == (cleared - keys) + {k};
      assert k !in cleared - keys;
    } else {
      assert cleared - (keys - {k}) == cleared - keys;
    }
  }

  /** Once every key is visited, what remains is the kept statuses and the metadata of the kept keys. */
  lemma RemoveDone(slices0: map<string, string>, meta0: map<string, Metadata>,
                   slices: map<string, string>, meta: map<string, Metadata>, count: nat)
    requires RemovingState(slices0, meta0, {}, slices, meta, count)
    ensures slices == Kept(slices0)
    ensures meta == meta0 - Cleared(slices0)
    ensures count == |Cleared(slices0)|
  {
    assert Cleared(slices0) - {} == Cleared(slices0);
  }

  /** Cleaning leaves every other key with its status and metadata, and drops the failures' metadata. */
  lemma CleanedKeepsOthers(s: Snapshot)
    ensures var c := Cleaned(s);
            (forall k :: k in s.slices && !Clearable(s.slices[k]) ==> k in c.slices && c.slices[k] == s.slices[k]) &&
            (forall k :: k in s.slices && Clearable(s.slices[k]) ==> k !in c.slices && k !in c.sliceMetadata) &&
            (forall k :: k in s.sliceMetadata && k !in Cleared(s.slices) ==>
               k in c.sliceMetadata && c.sliceMetadata[k] == s.sliceMetadata[k]) &&
            c.sliceMetadata.Keys <= s.sliceMetadata.Keys && c.plannedTasks == s.plannedTasks
  {
  }

  /** After a clean no failure status is left, so an immediate second clean removes nothing. */
  lemma CleanIdempotent(s: Snapshot)
    ensures Cleared(Cleaned(s).slices) == {}
    ensures Cleaned(Cleaned(s)) == Cleaned(s)
  {
    var c := Cleaned(s);
    assert Kept(c.slices) == c.slices;
    assert c.sliceMetadata - Cleared(c.slices) == c.sliceMetadata;
  }

  /** The cleared and the kept keys split the slices: the count plus the survivors is the number of slices. */
  lemma ClearedPlusKept(slices: map<string, string>)
    ensures |Cleared(slices)| + |Kept(slices)| == |slices|
  {
    var cleared := Cleared(slices);
    assert Kept(slices).Keys == slices.Keys - cleared;
    assert slices.Keys == cleared + (slices.Keys - cleared);
  }

  /** The keys holding a given status. */
  function KeysWith(slices: map<string, string>, status: string): set<string> {
    set k | k in slices && slices[k] == status
  }

  /** The sum of a tally's counts. */
  ghost function MapSum(m: map<string, nat>): nat
    decreases |m|
  {
    if m == map[] then 0
    else
      var k :| k in m;
      m[k] + MapSum(m - {k})
  }

  /** The sum does not depend on which key is taken first. */
  lemma {:induction false} MapSumRemove(m: map<string, nat>, k: string)
    requires k in m
    ensures MapSum(m) == m[k] + MapSum(m - {k})
    decreases |m|
  {
    var j :| j in m && MapSum(m) == m[j] + MapSum(m - {j});
    if j != k {
      assert (m - {j}) - {k} == (m - {k}) - {j};
      MapSumRemove(m - {j}, k);
      MapSumRemove(m - {k}, j);
    }
  }

  /** Changing one count changes the sum by the difference. */
  lemma MapSumUpdate(m: map<string, nat>, k: string, v: nat)
    ensures MapSum(m[k := v]) == MapSum(m) - (if k in m then m[k] else 0) + v
  {
    MapSumRemove(m[k := v], k);
    assert m[k := v] - {k} == m - {k};
    if k in m {
      MapSumRemove(m, k);
    } else {
      assert m - {k} == m;
    }
  }

  /** The visited keys holding `status`. */
  function Holding(slices: map<string, string>, done: set<string>, status: string): set<string> {
    set k | k in done && k in slices && slices[k] == status
  }

  /** The statuses of the visited keys. */
  function StatusesOf(slices: map<string, string>, done: set<string>): set<string> {
    set k | k in done && k in slices :: slices[k]
  }

  /** The tally after visiting `done`. */
  function Tally(slices: map<string, string>, done: set<string>): map<string, nat> {
    map status | status in StatusesOf(slices, done) :: |Holding(slices, done, status)|
  }

  function Get(m: map<string, nat>, key: string): nat {
    if key in m then m[key] else 0
  }

  /** Visiting one more key adds one to the count of its status. */
  lemma TallyStep(slices: map<string, string>, done: set<string>, k: string)
    requires k in slices && k !in done
    ensures Tally(slices, done + {k}) == Tally(slices, done)[slices[k] := Get(Tally(slices, done), slices[k]) + 1]
  {
    var t0, t1 := Tally(slices, done), Tally(slices, done + {k});
    var status := slices[k];
    var t := t0[status := Get(t0, status) + 1];
    StatusesStep(slices, done, k);
    assert t1.Keys == t.Keys;
    forall other | other in t1.Keys ensures t1[other] == t[other] {
      HoldingStep(slices, done, k, other);
      if other == status && status !in t0 {
        assert Holding(slices, done, status) == {};
      }
    }
  }

  /** The statuses after one more key: its status joins them. */
  lemma StatusesStep(slices: map<string, string>, done: set<string>, k: string)
    requires k in slices
    ensures StatusesOf(slices, done + {k}) == StatusesOf(slices, done) + {slices[k]}
  {
  }

  /** One more key joins the holders of its own status and no other. */
  lemma HoldingStep(slices: map<string, string>, done: set<string>, k: string, status: string)
    requires k in slices && k !in done
    ensures Holding(slices, done + {k}, status) ==
            if status == slices[k] then Holding(slices, done, status) + {k} else Holding(slices, done, status)
    ensures status == slices[k] ==> |Holding(slices, done + {k}, status)| == |Holding(slices, done, status)| + 1
  {
  }

  /** The counts of the visited keys sum to their number. */
  lemma {:induction false} TallySum(slices: map<string, string>, done: set<string>)
    requires done <= slices.Keys
    ensures MapSum(Tally(slices, done)) == |done|
    decreases |done|
  {
    if done == {} {
      assert Tally(slices, done) == map[];
    } else {
      var k :| k in done;
      var rest := done - {k};
      assert done == rest + {k};
      TallySum(slices, rest);
      TallyStep(slices, rest, k);
      MapSumUpdate(Tally(slices, rest), slices[k], Get(Tally(slices, rest), slices[k]) + 1);
    }
  }

  /**
    The tally of `show_state_summary`: one count per status present, equal to
    the number of slices holding it, and the counts sum to the number of
    slices.
  */
  method StatusCounts(slices: map<string, string>) returns (counts: map<string, nat>)
    ensures counts.Keys == set k | k in slices :: slices[k]
    ensures forall status :: status in counts ==> counts[status] == |KeysWith(slices, status)|
    ensures MapSum(counts) == |slices|
  {
    counts := map[];
    var keys := slices.Keys;
    ghost var done: set<string> := {};
    while keys != {}
      invariant keys <= slices.Keys && done == slices.Keys - keys
      invariant counts == Tally(slices, done)
      decreases keys
    {
      var k :| k in keys;
      var status := slices[k];
      var before := if status in counts then counts[status] else 0;
      assert before == Get(counts, status);
      TallyStep(slices, done, k);
      counts := counts[status := before + 1];
      done := done + {k};
      keys := keys - {k};
    }
    assert done == slices.Keys;
    TallyComplete(slices, counts);
  }

  /** The tally of every key: its statuses, their holders, and its sum. */
  lemma TallyComplete(slices: map<string, string>, counts: map<string, nat>)
    requires counts == Tally(slices, slices.Keys)
    ensures counts.Keys == set k | k in slices :: slices[k]
    ensures forall status :: status in counts ==> counts[status] == |KeysWith(slices, status)|
    ensures MapSum(counts) == |slices|
  {
    TallySum(slices, slices.Keys);
    assert counts.Keys == StatusesOf(slices, slices.Keys);
    forall status | status in counts ensures counts[status] == |KeysWith(slices, status)| {
      assert Holding(slices, slices.Keys, status) == KeysWith(slices, status);
    }
  }

  /** A QA report file and its modification time. */
  datatype Report = Report(name: string, mtime: real)

  function NegMtime(r: Report): real { -r.mtime }

  /** `sort(key=st_mtime, reverse=True)`: newest first. */
  function NewestFirst(reports: seq<Report>): (sorted: seq<Report>)
    ensures |sorted| == |reports| && multiset(sorted) == multiset(reports)
    ensures forall i, j :: 0 <= i < j < |sorted| ==> sorted[i].mtime >= sorted[j].mtime
  {
    var sorted := SortBy(reports, NegMtime);
    assert SortedBy(sorted, NegMtime);
    sorted
  }

  /** Where Python's `xs[start:]` begins in a list of `n` elements; a negative start counts from the end. */
  function SliceStart(n: nat, start: int): (i: nat)
    ensures i <= n
    ensures 0 <= start ==> i == Min(start, n)
  {
    if start >= 0 then (if start <= n then start else n)
    else if n + start >= 0 then n + start else 0
  }

  function Min(a: int, b: int): int { if a <= b then a else b }

  /** The reports the unlink loop removes: those whose unlink succeeds, in order. */
  function Unlinked(candidates: seq<Report>, unlinkOk: string -> bool): seq<Report> {
    if candidates == [] then []
    else
      var last := candidates[|candidates| - 1];
      Unlinked(candidates[..|candidates| - 1], unlinkOk) + (if unlinkOk(last.name) then [last] else [])
  }

  /** What `clean_reports` would try to unlink: nothing when at most `keepLatest` reports exist, else all but the newest ones. */
  function Candidates(reports: seq<Report>, keepLatest: int): seq<Report> {
    if |reports| <= keepLatest then []
    else
      var sorted := NewestFirst(reports);
      sorted[SliceStart(|sorted|, keepLatest)..]
  }

  /**
    `clean_reports`: a missing directory, or at most `keepLatest` reports,
    removes nothing; otherwise the reports past the `keepLatest` newest are
    unlinked, and the number that were is returned.
  */
  method CleanReports(directory: Option<seq<Report>>, keepLatest: int, unlinkOk: string -> bool)
    returns (removedCount: nat, removed: seq<Report>)
    ensures directory.None? ==> removedCount == 0 && removed == []
    ensures directory.Some? ==> removed == Unlinked(Candidates(directory.value, keepLatest), unlinkOk)
    ensures removedCount == |removed|
  {
    if directory.None? {
      return 0, [];
    }
    var reports := directory.value;
    if |reports| <= keepLatest {
      return 0, [];
    }
    var sorted := NewestFirst(reports);
    var candidates := sorted[SliceStart(|sorted|, keepLatest)..];
    removed := [];
    removedCount := 0;
    for i := 0 to |candidates|
      invariant removed == Unlinked(candidates[..i], unlinkOk)
      invariant removedCount == |removed|
    {
      assert candidates[..i + 1][..i] == candidates[..i];
      if unlinkOk(candidates[i].name) {
        removed := removed + [candidates[i]];
        removedCount := removedCount + 1;
      }
    }
    assert candidates[..|candidates|] == candidates;
  }

  /** Only candidates are unlinked, and all of them when every unlink succeeds. */
  lemma {:induction false} UnlinkedFrom(candidates: seq<Report>, unlinkOk: string -> bool)
    ensures |Unlinked(candidates, unlinkOk)| <= |candidates|
    ensures forall r :: r in Unlinked(candidates, unlinkOk) ==> r in candidates
    ensures (forall i :: 0 <= i < |candidates| ==> unlinkOk(candidates[i].name)) ==> Unlinked(candidates, unlinkOk) == candidates
    decreases |candidates|
  {
    if candidates != [] {
      var front := candidates[..|candidates| - 1];
      UnlinkedFrom(front, unlinkOk);
      assert candidates == front + [candidates[|candidates| - 1]];
    }
  }

  /**
    With more than `keepLatest >= 0` reports, exactly `keepLatest` of them
    escape, every one at least as new as every candidate, and the two parts
    together are the original reports.
  */
  lemma KeepsNewest(reports: seq<Report>, keepLatest: int)
    requires 0 <= keepLatest < |reports|
    ensures var sorted := NewestFirst(reports);
            var kept, dropped := sorted[..keepLatest], Candidates(reports, keepLatest);
            |kept| == keepLatest && |dropped| == |reports| - keepLatest &&
            multiset(kept) + multiset(dropped) == multiset(reports) &&
            forall a, b :: a in kept && b in dropped ==> a.mtime >= b.mtime
  {
    var sorted := NewestFirst(reports);
    assert sorted == sorted[..keepLatest] + sorted[keepLatest..];
    forall a, b | a in sorted[..keepLatest] && b in sorted[keepLatest..] ensures a.mtime >= b.mtime {
      var i :| 0 <= i < keepLatest && sorted[i] == a;
      var j :| keepLatest <= j < |sorted| && sorted[j] == b;
    }
  }

  /** At most `keepLatest` reports: nothing is a candidate, whatever the order. */
  lemma FewReportsKept(reports: seq<Report>, keepLatest: int)
    requires |reports| <= keepLatest
    ensures Candidates(reports, keepLatest) == []
  {
  }
}
