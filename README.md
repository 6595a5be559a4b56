# Rail-delay ingestion pipeline: a verified model

This project models the bookkeeping of a pipeline that collects train
delays from the Rail Data Marketplace (RDM) Historical Service Performance
API. It covers the code around the network calls, not the calls themselves.

- **The month orchestrator** (`orchestrate_month.py`):
  - `TaskState` is the resumable store: one status per slice key, read as `pending` when absent, with metadata per key.
  - `WindowBisector` splits time windows.
  - The planner lays out one key per date × route × window.
  - One slice task does a metrics query, collects and caps the RIDs, looks up details per RID and clamps each delay at zero.
  - The `run()` state machine grows its task list on bisection and makes at most two retry passes.
  - The final merge keeps one row per `(rid, dest)`, followed by the sparse-cell QA gate.
- **The adaptive metrics fetch** (`adaptive_metrics.py`; `routely-buffer-spike/adaptive_metrics.py` is the same code).
  - Up to four attempts per window, then a split in half on gateway-class errors.
  - Two terminal errors.
- **The two day ingesters** (`ingest_day.py`, `routely-buffer-spike/ingest_day.py`):
  - RID records, dedup on RID, the per-`(origin, dest, hour)` cap;
  - destination matching (exact in one, case-insensitive in the other);
  - the delay rows and the ok/fail counts.
- **The two pipelines** (`pipeline.py`, `routely-buffer-spike/pipeline.py`):
  - recent dates, argument validation, `iter_hour_windows` and `resolve_tocs`;
  - the per-`(hour, toc)` circuit breaker and the exit decision.
- **The RDM client** (`rdm_client.py`): the timeouts, the metrics payload and the four-attempt retry loop.
- **The route table** (`routes.py`): the routes, the time buckets and the day-type tag.
- **State hygiene** (`scripts/clean_state.py`): clearing failure statuses, per-status counts and pruning old QA reports.
- **The analysis side**:
  - the QA report's coverage matrix, monotonicity check, error categories, median gate and verdict (`qa_report.py`);
  - the percentile table (`build_percentiles.py`);
  - the linear-interpolation percentile (`check_delay_summary.py`);
  - the buffer interpolation of the app (`app.py`);
  - the one-off batch script's HHMM reader and RID list (`run_batch.py`).

How the model is built:

- **Network and clock.** Each network call is an oracle: a function from the request, or the call number, to the answer or exception. The clock is the parameter `today`.
- **Mutable state.** Code that mutates state is modelled as classes and methods with loops:
  - `TaskStore.TaskState`, `Orchestrator.MonthOrchestrator`, `RdmClient.Client`, `CleanState.StateFile` and `QaReport.QaReporter`;
  - the RID, detail and day loops.
  - Each method is proved equal to a specification function, and the properties are proved about that function.
- **Pure code.** Pure code is modelled as functions.
- **Duplicated code.** Code that occurs in more than one file is modelled once. The table below cites one copy:
  - `parse_hhmm_to_minutes`, four copies;
  - the adaptive fetch, two files;
  - `get_recent_dates` and the route/time checks, both pipelines.
- **Where the code differs from its documentation, the model follows the code:**
  - A one-hour window `0600`–`0659` spans 59 minutes. `WindowBisector.can_bisect` needs at least 60, so the orchestrator never bisects such a window (`Bisector.HourWindowNotBisected`). The adaptive fetch's own split has no such bound.
  - `split_time_window` is annotated to return three values but returns two.
  - The orchestrator's 403 pause-and-retry (`orchestrate_month.py:311-321`) never recovers. It is modelled as a failure.
  - The batch script's `hhmm_to_minutes` reads the LAST four characters once the colons are removed, although its docstring says an `HH:MM:SS` time is read as minutes after midnight. Its delay and CSV rows (`RunBatch.ComputeDelayMinutes`, `RunBatch.DetailsForRid`, `RunBatch.RunRows`) use that reading. The reading the docstring describes is `RunBatch.HhmmToMinutes`, see "## Findings".

## Model

| member | source | states |
|---|---|---|
| Hhmm.ParseGuard | adaptive_metrics.py:18-24 | `parse_hhmm_to_minutes` reads an empty or shorter-than-four time as 0; from four characters on the unguarded `WindowBisector._time_to_minutes` (orchestrate_month.py:93-96) reads the same value, and below three characters that one raises |
| Hhmm.FormatThenParse | adaptive_metrics.py:27-31 | every minute 0..1439 formats to a well-formed HHMM that every parser reads back as that minute |
| Hhmm.ParseThenFormat | orchestrate_month.py:93-102 | a well-formed HHMM reads as a minute in 0..1439 and formats back to the same string |
| Hhmm.FormatInjective | adaptive_metrics.py:27-31 | two minutes of the day that format to the same string are equal |
| Routes.DaysTag | routes.py:28-37 | the tag is WEEKDAY exactly for weekdays 0-4, SATURDAY exactly for 5, SUNDAY exactly for 6 |
| Routes.RoutesWellFormed | routes.py:6-14 | seven routes, pairwise distinct, none starting where it ends |
| Routes.TimeBucketsTileTheDay | routes.py:20-25 | eight buckets; bucket i runs from minute 180·i to 180·i + 179, so the first starts at 0000, the last ends at 2359, each starts one minute after the previous ends and each spans 179 minutes |
| TaskStore.StatusIn | orchestrate_month.py:50-52 | a recorded key reads as its status, a never-recorded key as `pending` |
| TaskStore.TaskState.constructor | orchestrate_month.py:34-42 | a readable file is loaded as it is; otherwise the state starts with no slices and no metadata |
| TaskStore.TaskState.Status | orchestrate_month.py:50-52 | a key not in the slices reads as `pending` |
| TaskStore.TaskState.GetMetadata | orchestrate_month.py:62-64 | the stored metadata of a key, or an empty dictionary |
| TaskStore.TaskState.SetStatus | orchestrate_month.py:54-60 | the key's status becomes the new one and every other key's status is unchanged; metadata is replaced only when non-empty; the file is rewritten with the new state |
| Bisector.CanBisectIff | orchestrate_month.py:71-76 | a well-formed window is bisectable exactly when it spans 60 minutes or more |
| Bisector.BisectHalves | orchestrate_month.py:78-91 | bisecting a well-formed window of at least 60 minutes gives two well-formed halves `[from, mid]`, `[mid+1, to]` with `mid = (from+to)//2`: they keep the outer ends, are adjacent, cover exactly the window's minutes, are each shorter than it and differ in length by at most one minute |
| Bisector.MidpointSplit | orchestrate_month.py:84-90 | on minutes with `t - f >= 60` the floor midpoint gives non-empty adjacent halves inside `[f, t]` whose lengths sum to `t - f - 1` and differ by at most one |
| Bisector.HourWindowNotBisected | orchestrate_month.py:71-76 | the one-hour window 0600-0659 spans 59 minutes and is not bisectable |
| Bisector.ShortTimeRaises | orchestrate_month.py:93-96 | a start time shorter than three characters makes both `can_bisect` and `bisect_window` raise |
| Planner.DateRange | orchestrate_month.py:144-155 | the days from `date_start` to `date_end`, both included, one per day in order; none when the start is after the end |
| Planner.GenerateTaskDag | orchestrate_month.py:157-178 | the tasks are the plan over the texts of exactly the day range from start to end |
| Planner.GenerateTasks | orchestrate_month.py:161-176 | the triple loop over dates, routes and windows builds exactly the plan |
| Planner.AppendDayTasks | orchestrate_month.py:163-176 | the loop over routes appends exactly the day's tasks |
| Planner.AppendRouteTasks | orchestrate_month.py:165-176 | the loop over windows appends exactly one task per window of the route, in order |
| Planner.PlanLength | orchestrate_month.py:157-178 | the plan has `dates × routes × windows` tasks |
| Planner.DayTasksLength | orchestrate_month.py:163-176 | one day has `routes × windows` tasks |
| Planner.RouteTasksShape | orchestrate_month.py:165-176 | task k of a route is the task for window k |
| Planner.PlanTaskAt | orchestrate_month.py:157-178 | the plan is ordered date first, then route, then window: task `(i·R + j)·W + k` is the one for date i, route j, window k |
| Planner.DayTasksAt | orchestrate_month.py:163-176 | task `j·W + k` of a day is the one for route j and window k |
| Planner.PlanAt | orchestrate_month.py:161-176 | task `i·cells + m` of the plan is task m of date i |
| Planner.KeyIsJoin | orchestrate_month.py:174 | the task key is date, origin, destination, from and to time joined by `_` |
| Planner.KeyFields | orchestrate_month.py:174 | a key whose five fields hold no `_` splits back into those five fields |
| Planner.SplitJoin | orchestrate_month.py:174 | splitting on `_` a join of underscore-free parts gives the parts back |
| Planner.KeyInjective | orchestrate_month.py:174 | the keys of two tasks with underscore-free fields are equal only when date, route and window are all equal |
| SliceTask.OutcomeText | orchestrate_month.py:206-365 | each outcome has its own status text: `ok`, `skipped`, `timeout`, `circuit_breaker`, `failed`, and no text belongs to two outcomes |
| SliceTask.ClassifyError | orchestrate_month.py:358-370 | an exception is `circuit_breaker` exactly when its text contains "403", otherwise `timeout` exactly when its lower-cased text contains "timeout" or "timed out", otherwise `failed`; never `ok` or `skipped` |
| SliceTask.CollectRids | orchestrate_month.py:233-242 | the loop over services and their `rids` collects exactly the string RIDs of all services |
| SliceTask.AllRidsMembers | orchestrate_month.py:236-242 | a RID is collected exactly when some service lists it as a string |
| SliceTask.ApplyCap | orchestrate_month.py:245-252 | with a cap of 0 or more, the kept RIDs are a subset of size `min(cap, count)`; a negative cap makes the sampling raise |
| SliceTask.SubsetOfSize | orchestrate_month.py:250 | a set has a subset of every size up to its own, so the sampling always has a subset to return |
| SliceTask.OrElse | orchestrate_month.py:278 | Python `a or b` on a string-or-None: `a` unless it is None or empty |
| SliceTask.FindDest | orchestrate_month.py:276-281 | the first location, from the given index on, whose code is the destination; none exactly when no location has that code |
| SliceTask.Codes | orchestrate_month.py:276-281 | the location codes, one per location and in the same order |
| SliceTask.FirstFrom | orchestrate_month.py:276-281 | the first index from `start` on that holds the code, and none exactly when no later index holds it |
| SliceTask.ClampDelay | orchestrate_month.py:296 | `max(0, d)`: non-negative, at least `d`, and either `d` or 0 |
| SliceTask.RowForFacts | orchestrate_month.py:283-309 | a produced row carries this RID and the slice's origin, destination and date, non-empty readable planned and actual times, and a delay that is non-negative and at least actual minus planned; with no destination stop there is no row |
| SliceTask.FetchRid | orchestrate_month.py:311-321 | a RID's work aborts the slice only with an exception whose text contains "403" |
| SliceTask.FetchAllDetails | orchestrate_month.py:323-344 | the detail phase aborts exactly when some RID's work aborts, then with a "403" error; otherwise the collected rows are exactly the rows of all RIDs |
| SliceTask.CompleteRid | orchestrate_month.py:323-344 | finishing one more RID without an abort keeps the rows equal to those of the RIDs done so far, with still no abort among them |
| SliceTask.AddRid | orchestrate_month.py:330-339 | completing one more RID adds exactly its row, if any, and its abort, if any |
| SliceTask.AbortWithin | orchestrate_month.py:330-331 | an abort among some of the RIDs is an abort of the slice |
| SliceTask.ExecuteSlice | orchestrate_month.py:192-377 | a failed metrics call gives its classified status with no rows; a negative cap fails the sampling; otherwise the kept RIDs are a capped subset of all RIDs, none of them gives `skipped`, an abort gives `circuit_breaker` with no rows, and otherwise `ok` with exactly the RIDs' rows |
| Orchestrator.ResultInfo | orchestrate_month.py:612-631 | the result stored with a status is never empty, so `set_slice_status` always replaces the metadata |
| Orchestrator.HandleTimeoutFacts | orchestrate_month.py:409-431 | two sub-tasks exactly when bisection is enabled and the window spans 60 minutes or more, none otherwise; the sub-tasks keep the date and route, their windows split the parent's window, and each key is rebuilt from its new window |
| Orchestrator.HandleTimeoutCount | orchestrate_month.py:409-431 | two sub-tasks exactly when bisection is enabled and the window spans 60 minutes or more, none otherwise |
| Orchestrator.StepShape | orchestrate_month.py:596-632 | one iteration visits one task and either keeps the task list or appends exactly that task's bisection halves |
| Orchestrator.StepShrinks | orchestrate_month.py:596-632 | one iteration advances by one task, keeps every window well-formed, only appends to the list, and leaves strictly less work, so the loop over a growing list ends |
| Orchestrator.GrowsShrinks | orchestrate_month.py:617-620 | a step that keeps the list or appends halves leaves less work and keeps the earlier tasks |
| Orchestrator.Advance | orchestrate_month.py:596 | visiting a task leaves less work |
| Orchestrator.AppendShrinks | orchestrate_month.py:619 | appending the two halves of the visited task keeps windows well-formed and leaves less work |
| Orchestrator.ChildrenWeigh | orchestrate_month.py:409-431 | the two halves of a bisected task weigh less than it |
| Orchestrator.WeightsAppend | orchestrate_month.py:619 | the work left in two appended lists is the sum of their work |
| Orchestrator.MainLoop | orchestrate_month.py:596-632 | the loop ends with every task, planned or appended, visited and every window well-formed, and the planned tasks still at the front |
| Orchestrator.ResumeSkips | orchestrate_month.py:597-606 | a task stored as `ok` or `skipped` is counted as successful or skipped without any call; any other task is executed exactly once |
| Orchestrator.ExecutedStatus | orchestrate_month.py:609-632 | an executed task's status becomes `ok` exactly on success, `bisected` exactly when it timed out with bisection enabled and its window spans 60 minutes or more (its halves are then appended), `skipped` exactly when no RIDs were found, `failed` otherwise; only a failure that is not fail-fast and not a timeout under bisection joins the retry queue |
| Orchestrator.StepBalanced | orchestrate_month.py:596-632 | one iteration keeps the counters accounting for every visited task and the retry queue no longer than the failed count |
| Orchestrator.LoopBalanced | orchestrate_month.py:596-632 | the whole main loop keeps that accounting |
| Orchestrator.MainLoopAccounts | orchestrate_month.py:591-632 | after the main loop successful + failed + skipped counts every visited task except the bisected ones, which each appended two tasks, so twice the count is the final task count plus the planned count; the retry queue holds at most the failed tasks |
| Orchestrator.RetryPassFacts | orchestrate_month.py:643-653 | a retry pass executes each queued task once, keeps exactly the ones that fail again, and moves one task from failed to successful per success |
| Orchestrator.RetriesBounded | orchestrate_month.py:634-653 | the retry passes make at most `rounds` times the first queue's length calls, never grow the queue, keep successful + failed constant and keep the queue within the failed count |
| Orchestrator.StepKeepsOk | orchestrate_month.py:600-612 | a key stored as `ok` stays `ok` after one iteration |
| Orchestrator.LoopKeepsOk | orchestrate_month.py:596-632 | a key stored as `ok` stays `ok` through the main loop |
| Orchestrator.RetryKeepsOk | orchestrate_month.py:643-651 | a key stored as `ok` stays `ok` through a retry pass |
| Orchestrator.RetriesKeepOk | orchestrate_month.py:634-653 | a key stored as `ok` stays `ok` through every retry pass |
| Orchestrator.RunKeepsOk | orchestrate_month.py:563-683 | a resumed run never undoes completed work: a key stored as `ok` before the run is `ok` after it |
| Orchestrator.RunAccounts | orchestrate_month.py:563-683 | the totals `run()` reports account for every task including sub-tasks, the failed count is never negative; an empty plan raises in the summary's success rate instead of exiting; otherwise the exit code is 0 exactly when QA passes and no task is left failed, and 1 otherwise |
| Orchestrator.ExitCode | orchestrate_month.py:675-683 | the exit code is 0 exactly when QA passed and no task failed, and 1 otherwise |
| Orchestrator.MonthOrchestrator.constructor | orchestrate_month.py:108-110 | the orchestrator holds the given task state |
| Orchestrator.MonthOrchestrator.Run | orchestrate_month.py:539-683 | the imperative main loop, retry passes and exit code (none where the summary raises on an empty plan) compute exactly the run specification from the state before the run, report its totals, and leave the state store holding its final snapshot |
| Orchestrator.MonthOrchestrator.Visit | orchestrate_month.py:596-632 | one loop iteration performs exactly one step of the specification, on the task list and on the stored state |
| Orchestrator.MonthOrchestrator.RecordResult | orchestrate_month.py:611-632 | records an executed task's result as the specification's bookkeeping does and persists the state |
| Orchestrator.MonthOrchestrator.Store | orchestrate_month.py:612-631 | `set_slice_status` with the outcome's result: the state becomes the recorded one and is persisted |
| Orchestrator.MonthOrchestrator.RetryAll | orchestrate_month.py:643-653 | one imperative retry pass computes exactly the specification's retry pass |
| Orchestrator.MonthOrchestrator.PlanOnly | orchestrate_month.py:574-588 | plan-only mode records the planned count, marks every task's key `pending` and keeps the slice metadata |
| Orchestrator.MarkPendingFacts | orchestrate_month.py:583-584 | after marking, every planned key reads `pending` and every other key reads as before |
| Dedup.DropDuplicates | orchestrate_month.py:469 | `drop_duplicates` keeps no more rows than it is given, no two with the same key, and exactly the keys of the input |
| Dedup.KeepsFirst | orchestrate_month.py:469 | each kept row is the first row of the input with its key, and the kept rows keep input order |
| Dedup.KeptAtExtend | orchestrate_month.py:469 | appending a row to the input keeps the kept rows' positions valid |
| Dedup.KeptAtAppend | orchestrate_month.py:469 | a row with a new key is the first of its key, at a position after all kept ones |
| Dedup.UniqueUnchanged | orchestrate_month.py:469 | input already free of duplicate keys is returned unchanged |
| Dedup.Idempotent | orchestrate_month.py:469 | deduplicating twice is deduplicating once |
| MonthFinal.MergeRows | orchestrate_month.py:463-470 | the concatenated rows keep no two rows with the same RID and destination, and keep every `(rid, dest)` pair of the input |
| MonthFinal.CellsOf | orchestrate_month.py:499-502 | every row's cell is its origin, destination, the integer of the first two characters of `gbtt_pta`, and its weekday; none when some hour does not read as an integer |
| MonthFinal.Sparse | orchestrate_month.py:504-505 | the sparse cells are among the groups present |
| MonthFinal.QaPassed | orchestrate_month.py:479-519 | QA passes exactly when the file exists, is not empty, every hour reads, and at most half of the groups have fewer than `min_obs` rows |
| MonthFinal.HalfSparsePasses | orchestrate_month.py:510 | exactly half of the groups sparse still passes; one more than half fails |
| MonthFinal.LowThresholdPasses | orchestrate_month.py:497-515 | with `min_obs` at most 1, readable non-empty data passes |
| MonthFinal.HighThresholdFails | orchestrate_month.py:497-512 | with `min_obs` above the number of rows, QA fails |
| Adaptive.SplitOf | adaptive_metrics.py:49-62 | the split of two readable ends is the formatted floor midpoint and the minute after it |
| Adaptive.SplitHalves | adaptive_metrics.py:49-62 | for ends `f < t` of one day the first half ends at `mid = (f + t) // 2` and the second starts at `mid + 1`, with `f <= mid < t`; both are well-formed times that read back as those minutes |
| Adaptive.TerminalMessage | adaptive_metrics.py:181-187 | after the last failed attempt the error reads "Minimum window failed" for a window no longer than the minimum, else "Gateway timeout after 4 attempts", each followed by the window |
| Adaptive.FetchMetricsAdaptive | adaptive_metrics.py:65-187 | the attempt loop with its recursive splits yields, calls and raises exactly as the recursive specification of the generator |
| Adaptive.SplitHalvesFetch | adaptive_metrics.py:137-164 | the split branch either finishes the fetch or reports the caught `RuntimeError` with what was yielded, exactly as the specification |
| Adaptive.FetchBounded | adaptive_metrics.py:65-187 | the whole fetch, sub-windows included, makes at most `CallBound(max_depth)` calls (four with no depth left) and yields at most one response per call |
| Adaptive.AttemptsBounded | adaptive_metrics.py:106-187 | the remaining attempts stay within their call bound and only extend what was yielded |
| Adaptive.GatewayAttemptBounded | adaptive_metrics.py:130-187 | an attempt failing with a gateway-class error, whether it splits, returns from the split or moves on, stays within the attempts' call bound and only extends what was yielded |
| Adaptive.AttemptAnswers | adaptive_metrics.py:106-128 | an attempt that gets a response yields it and ends the fetch with no further call |
| Adaptive.SplitBounded | adaptive_metrics.py:141-164 | a split makes at most twice the calls of a fetch one level deeper |
| Adaptive.AttemptsBoundValue | adaptive_metrics.py:106 | the attempts from `attempt` on allow `(4 - attempt)` times the calls of one attempt |
| Adaptive.AnswerYieldsOnce | adaptive_metrics.py:124-128 | a first call that answers yields exactly that response, with one call and no split |
| Adaptive.OtherErrorRaises | adaptive_metrics.py:130-134 | a first failure whose text is not gateway-class is raised at once, after one call |
| Adaptive.NoSplitExhausts | adaptive_metrics.py:137-187 | with no depth left or a window no longer than the minimum, four gateway failures make exactly four calls and end in the terminal error |
| Adaptive.NoSplitFrom | adaptive_metrics.py:166-187 | the same from any attempt on |
| Adaptive.FailedSplitYieldsAgain | adaptive_metrics.py:145-164 | a failed split is not undone: when the first half yields `a` and the second half fails, the whole window is fetched again and yields `b`, so `a` reaches the caller before `b` after four calls |
| Adaptive.SecondHalfCaught | adaptive_metrics.py:145-164 | a second half raising `RuntimeError` after a first half that returned is caught, keeping both halves' yields |
| Adaptive.RetryAfterCaught | adaptive_metrics.py:162-179 | a gateway failure whose split raised moves on to the next attempt |
| Adaptive.HalvesFailThenRetry | adaptive_metrics.py:137-179 | the failed-split re-yield holds for any window whose split ends read |
| RidRecords.CollectRecords | ingest_day.py:78-111 | the loop over services and their `rids` appends exactly the records of the services, in order |
| RidRecords.ServiceRecordsMembers | ingest_day.py:99-111 | the records of one service are exactly its string RIDs, each filed under the service's route and hour, and there are no more of them than RIDs |
| RidRecords.RecordsMembers | routely-buffer-spike/ingest_day.py:95-127 | a record is collected exactly when it is the record of a string RID of some service, filed under that service's route and hour |
| RidRecords.QueryTagged | routely-buffer-spike/ingest_day.py:114-120 | the hour-sliced ingester pins every record to the queried origin and destination |
| RidRecords.DedupByRid | ingest_day.py:123-125 | deduplication by RID keeps no more records, no RID twice, and every RID of the input |
| RidRecords.ApplyCap | ingest_day.py:129-132 | the per-`(origin, dest, hour)` sample takes records of the input only, drops the records without an hour, and keeps `min(len(g), cap)` of each group |
| RidRecords.CapBounds | ingest_day.py:129-132 | the cap keeps at most `cap` records per group, never more than the group had, and never more than the input |
| RidRecords.CapRecords | routely-buffer-spike/ingest_day.py:163-166 | without a cap every record is kept; a cap raises exactly when it is negative and some record has an hour, with the sampling's error; otherwise the result is an admissible per-group sample |
| RidRecords.QueryWindow | ingest_day.py:56-62 | the metrics window is the one given, else 0000-2359 |
| RidRecords.RoutesFor | ingest_day.py:42-44 | a route filter gives that one route, else the seven routes |
| SpikeIngest.TocList | routely-buffer-spike/ingest_day.py:70 | the given TOC filters in order, or one pass with no filter when none is given |
| SpikeIngest.FetchRouteRecords | routely-buffer-spike/ingest_day.py:68-151 | the loop over TOC filters and yielded responses collects exactly the route's records, or nothing once a fetch raises |
| SpikeIngest.CollectYielded | routely-buffer-spike/ingest_day.py:77-100 | the loop over the yielded responses appends exactly their records, in order |
| SpikeIngest.MetricsPhaseNext | routely-buffer-spike/ingest_day.py:72-93 | a TOC filter whose fetch does not raise adds its records after those of the filters before it |
| SpikeIngest.PhasePinned | routely-buffer-spike/ingest_day.py:114-120 | every record of the metrics phase is filed under the queried route |
| SpikeIngest.YieldedPinned | routely-buffer-spike/ingest_day.py:91-127 | every record of the yielded responses is filed under the queried route |
| SpikeIngest.FailedFetchSkipsRoute | routely-buffer-spike/ingest_day.py:132-151 | one TOC filter whose fetch raises loses the whole route, whatever the other filters returned |
| SpikeIngest.DetailRow | routely-buffer-spike/ingest_day.py:201-257 | a row exists only for an answered call with a destination stop; it carries the record's RID, route and hour, the day, a non-empty actual time and a delay of at least zero: 0 with no planned time, otherwise actual minus planned clamped at zero |
| SpikeIngest.DetailsPhase | routely-buffer-spike/ingest_day.py:259-281 | the detail loop collects exactly the records' rows in order; `details_ok` counts the rows and `details_ok + details_fail` the records |
| SpikeIngest.DetailRowsFrom | routely-buffer-spike/ingest_day.py:243-254 | every row belongs to one of the records, with its RID, route and hour, the day, and a delay of at least zero |
| SpikeIngest.IngestRoute | routely-buffer-spike/ingest_day.py:60-321 | one route iteration: a raising fetch logs a metrics failure and skips the route; no records gives an empty route; a negative cap over records with an hour raises; otherwise `rids_pre` is the collected count, the kept records are an admissible sample of the deduplicated ones, the rows are exactly theirs, and `details_ok`, `details_fail` count rows and the rest |
| SpikeIngest.ProcessedBounds | routely-buffer-spike/ingest_day.py:153-173 | after dedup and cap no more records are processed than were collected, and no more rows written than records processed |
| SpikeIngest.Summarise | routely-buffer-spike/ingest_day.py:323-334 | a missing day file raises; otherwise the summary holds the day, the distinct RIDs and the row count |
| SpikeIngest.IngestOneDay | routely-buffer-spike/ingest_day.py:24-334 | every route up to the first cap error is processed as its specification says; the file is what it was followed by each route's rows; the summary comes from that file once every route ran, and a day ended early reports the cap error |
| SpikeIngest.NoRowsNoFile | routely-buffer-spike/ingest_day.py:303-324 | a day on which no route writes a row and no file existed before ends by failing to read the file |
| SpikeIngest.AppendRowsExtends | routely-buffer-spike/ingest_day.py:313-319 | appending routes' rows to an existing file keeps what it held, in front |
| IngestDay.CollectDayRecords | ingest_day.py:64-115 | the route loop collects exactly the records of the routes whose metrics call answered, in route order |
| IngestDay.DayRecordsMembers | ingest_day.py:64-115 | a record is collected exactly when it is a string RID's record of an answering route |
| IngestDay.FindStop | ingest_day.py:160-165 | the first stop whose `location` is exactly the destination; none exactly when no stop has it |
| IngestDay.DetailRow | ingest_day.py:150-200 | a row exists only for an answered call with a destination stop; it carries the record's RID, route and hour, the day, a non-empty actual arrival and the arrival delay: 0 with no planned time, otherwise actual minus planned clamped at zero |
| IngestDay.CollectRows | ingest_day.py:202-219 | the results loop keeps exactly the truthy rows, in record order, at most one per record |
| IngestDay.DetailRowsFrom | ingest_day.py:186-196 | every row belongs to one of the records, with its RID, route and hour, the day, and a delay of at least zero |
| IngestDay.IngestOneDay | ingest_day.py:22-239 | no records gives the zero summary and the empty file; a negative cap over records with an hour raises; otherwise some admissible sample is kept, the file is exactly its rows and the summary reports the sample size and the row count, never more rows than RIDs |
| IngestDay.AllRoutesFailed | ingest_day.py:113-115 | a day on which every metrics call raises collects no records, so it writes the empty file and reports zero |
| IngestDay.NoCapKeepsAll | ingest_day.py:119-144 | without a cap the day succeeds, reports the deduplicated RID count and writes exactly their rows |
| PipelineArgs.RecentDates | pipeline.py:21-39 | `num_days` dates (none for a negative count), yesterday first and one day earlier each step |
| PipelineArgs.RecentDatesDescend | pipeline.py:31-37 | consecutive recent dates are one day apart, strictly decreasing and all before today |
| PipelineArgs.DatesArg | pipeline.py:120-133 | `--date` gives that one date; otherwise `--days` below 1 exits with status 1, and any other count gives that many recent dates |
| PipelineArgs.RouteArg | pipeline.py:135-142 | no route or an empty one means all routes; a route without a comma raises the comma error; a comma-separated route with other than two parts raises the parts error; otherwise the two parts, stripped and upper-cased |
| PipelineArgs.SplitPair | pipeline.py:140 | splitting `o,d` with comma-free parts gives the two parts |
| PipelineArgs.RouteArgReads | pipeline.py:135-142 | a route written `ORIG,DEST` with comma-free, unpadded codes reads back as that route upper-cased |
| PipelineArgs.FourDigitValue | pipeline.py:151-155 | the value of four digits splits by `divmod(hhmm, 100)` into hour and minute fields |
| PipelineArgs.TimeArgFault | pipeline.py:148-157 | the first failed check of a time argument: not four digits, above 2359, or a minute field of 60 or more; none exactly when it is a well-formed HHMM |
| PipelineArgs.WindowArg | pipeline.py:144-161 | both times or neither; only one raises; both are checked `from_time` first, and the window is given exactly when both pass, otherwise the first failing argument's message is raised |
| PipelineArgs.FormattedTimesPass | pipeline.py:148-157 | every minute of the day written as HHMM passes the checks |
| PipelineArgs.TimeArgBoundaries | pipeline.py:152-157 | "2400" fails the range check, and "0960" passes it but fails the minute check |
| PipelineArgs.ResolveTocs | routely-buffer-spike/pipeline.py:88-107 | `gw` gives GW, `xr` gives XR, `both` and `auto` give GW then XR; any other mode raises; the codes are distinct and never empty or unfiltered |
| PipelineArgs.OkDays | pipeline.py:197-222 | no more successful days than days |
| PipelineArgs.ExitStatus | pipeline.py:252-259 | the status is 0 exactly when some day succeeded and none failed, else 1 |
| PipelineArgs.AllOkDays | pipeline.py:197-222 | every day succeeded exactly when every day's ingest returned a summary |
| PipelineArgs.ExitZeroIffAllOk | pipeline.py:197-259 | the run exits 0 exactly when there was a date and every date's ingest returned a summary |
| PipelineArgs.RunDays | pipeline.py:192-259 | the day loop counts the successful days, sums their RIDs and rows, skips the days that raised, and exits with the status they decide |
| HourWindows.HourSpans | routely-buffer-spike/pipeline.py:43-85 | one span per clock hour from the start's hour to the end's, none when the start is later |
| HourWindows.TimeValueMinutes | routely-buffer-spike/pipeline.py:55-65 | `int(t) // 100 * 60 + int(t) % 100` of a validated time is its minute of the day |
| HourWindows.IterHourWindows | routely-buffer-spike/pipeline.py:43-85 | the generator, collected, gives exactly the windows of the hour spans between the two times |
| HourWindows.WindowsBetween | routely-buffer-spike/pipeline.py:67-85 | the `while` loop over the minutes gives exactly the windows of the hour spans |
| HourWindows.WindowStep | routely-buffer-spike/pipeline.py:69-85 | one turn of the loop appends the next span's window and moves to the next hour; the loop goes on exactly while spans remain |
| HourWindows.HourSpansShape | routely-buffer-spike/pipeline.py:43-85 | the first window starts at the top of the start's hour; each starts on an hour, lasts at most 60 minutes, starts one minute after the previous one ends and ends by the end time; the last ends exactly at it |
| HourWindows.HourSpansCover | routely-buffer-spike/pipeline.py:43-85 | each minute from the top of the start's hour to the end lies in exactly one window |
| HourWindows.SpansIncrease | routely-buffer-spike/pipeline.py:84-85 | the spans are ordered: an earlier one ends before a later one starts |
| HourWindows.WindowStartsDistinct | routely-buffer-spike/pipeline.py:323-326 | the windows of one day start at distinct HHMM strings, so a day never visits a breaker key twice |
| SpikePipeline.Step | routely-buffer-spike/pipeline.py:330-363 | one chunk: a counter at 3 or more cools down and resets; success resets the counter and adds the chunk's RIDs and rows; a failure holding "403" or "5" adds one to the counter, any other failure leaves it; no other key changes |
| SpikePipeline.RunChunks | routely-buffer-spike/pipeline.py:309-363 | the nested loops over hour windows and TOCs compute exactly the fold of the chunk steps |
| SpikePipeline.TocsFoldFresh | routely-buffer-spike/pipeline.py:324-363 | within one hour the distinct TOCs each visit a fresh key, so no cool-down happens |
| SpikePipeline.WindowsFoldFresh | routely-buffer-spike/pipeline.py:319-363 | a day with distinct start times and distinct TOCs, begun with empty counters, takes no cool-down |
| SpikePipeline.OneChunkDay | routely-buffer-spike/pipeline.py:323-363 | a day of one window and one TOC is exactly one breaker step |
| SpikePipeline.TocsTotalsIgnoreCounts | routely-buffer-spike/pipeline.py:348-351 | the counters decide only the cool-downs: an hour's totals do not depend on them |
| SpikePipeline.WindowsTotalsIgnoreCounts | routely-buffer-spike/pipeline.py:348-351 | nor do a whole day's totals |
| SpikePipeline.CorrectedTotalsAsWritten | routely-buffer-spike/pipeline.py:288-375 | keeping the counters across days changes no day's summary |
| SpikePipeline.RunSpikeDays | routely-buffer-spike/pipeline.py:288-410 | the day loop, with the counters kept across days, reports exactly the successful days, RIDs, rows and exit status of the code as written |
| SpikePipeline.RunDays | routely-buffer-spike/pipeline.py:288-410 | the day loop yields exactly the successful days, RIDs and rows of the run with counters kept across days |
| SpikePipeline.CorrectedRunNext | routely-buffer-spike/pipeline.py:288-375 | one more date is one more day after the dates before it, the counters carried over |
| SpikePipeline.TotalsNext | routely-buffer-spike/pipeline.py:300-304 | one more day adds one successful day and its RIDs and rows exactly when it returned a summary |
| SpikePipeline.WindowedDaysAllSucceed | routely-buffer-spike/pipeline.py:308-368 | with a time window every day counts as processed, since chunk failures are caught, so the run exits 0 whenever there is a date |
| SpikePipeline.AsWrittenNeverCools | routely-buffer-spike/pipeline.py:319-334 | as written the counters start empty each day and no day ever cools down, whatever the chunks return |
| SpikePipeline.CorrectedCoolsOnFourthDay | routely-buffer-spike/pipeline.py:330-358 | with the counters kept across days, a chunk failing with a counted error three days running makes the fourth day's attempt cool down first |
| RdmClient.FailureMessage | rdm_client.py:113-129 | the error raised after the last attempt is the HTTP status message or the request-failure message, never "Maximum retries exceeded" |
| RdmClient.Retry | rdm_client.py:95-137 | the retry loop makes at most four POSTs, at least one more from any attempt before the fourth, and never falls through to "Maximum retries exceeded" |
| RdmClient.FirstSuccessReturned | rdm_client.py:110-111 | the first POST answering 200 is returned, after exactly that many POSTs |
| RdmClient.AllFailRaisesLast | rdm_client.py:112-134 | four failed POSTs (a 4xx status retried like a 5xx one, or a request exception) raise the failure of the fourth |
| RdmClient.StatusMessageShape | rdm_client.py:113-115 | an error status gives `HTTP <status> from <url>: ` followed by at most 300 characters of the body |
| RdmClient.MetricsPayload | rdm_client.py:75-87 | the payload holds the seven base fields with the given values, and `toc_filter` exactly when one is given |
| RdmClient.Client.constructor | rdm_client.py:58-60 | the default timeouts: 120 s for metrics, 30 s for details |
| RdmClient.Client.SetMetricsTimeout | rdm_client.py:62-64 | sets the metrics timeout and leaves the details timeout |
| RdmClient.Client.SetDetailsTimeout | rdm_client.py:66-68 | sets the details timeout and leaves the metrics timeout |
| RdmClient.Client.RequestTimeout | rdm_client.py:92-93 | the given timeout, else the client's metrics timeout |
| RdmClient.Client.PostWithRetries | rdm_client.py:95-137 | the imperative retry loop computes exactly the retry specification |
| RdmClient.Client.GetMetrics | rdm_client.py:70-137 | every POST carries the payload and the request timeout; the retry loop's result, after at most four POSTs |
| RdmClient.Client.GetDetails | rdm_client.py:139-177 | every POST carries `{"rid": rid}` and the details timeout; the retry loop's result, after at most four POSTs |
| CleanState.Cleared | scripts/clean_state.py:40-44 | the cleared keys are slices whose status is `failed`, `timeout` or `circuit_breaker` |
| CleanState.Kept | scripts/clean_state.py:40-44 | the surviving keys are exactly the slices less the cleared ones |
| CleanState.StateFile.constructor | scripts/clean_state.py:24-33 | the state file as found: its snapshot, or none when missing or unreadable |
| CleanState.StateFile.CleanFailedSlices | scripts/clean_state.py:16-73 | a missing or unreadable file, no failure, or a failed write returns 0 and leaves the file; otherwise the file is rewritten cleaned and the number of cleared keys returned |
| CleanState.RemoveFailures | scripts/clean_state.py:40-48 | the loop over a copy of the items keeps exactly the non-failure statuses, drops exactly the failures' metadata and counts them |
| CleanState.RemoveLoop | scripts/clean_state.py:40-48 | when the loop has visited every key, the failures are removed with their metadata and counted |
| CleanState.RemovingStart | scripts/clean_state.py:40-48 | before the loop nothing is removed or counted |
| CleanState.RemoveStateStep | scripts/clean_state.py:40-48 | one turn removes and counts the visited key exactly when its status is a failure, and keeps it otherwise |
| CleanState.RemoveStep | scripts/clean_state.py:40-48 | visiting one key removes it with its metadata, and counts it, exactly when its status is a failure |
| CleanState.RemoveDone | scripts/clean_state.py:40-48 | once every key is visited what remains is the kept statuses and the kept keys' metadata |
| CleanState.CleanedKeepsOthers | scripts/clean_state.py:40-48 | cleaning keeps every other key with its status and metadata, drops the failures and their metadata, and changes nothing else |
| CleanState.CleanIdempotent | scripts/clean_state.py:16-73 | after a clean no failure is left, so a second clean changes nothing |
| CleanState.ClearedPlusKept | scripts/clean_state.py:40-44 | the cleared count plus the survivors is the number of slices |
| CleanState.StatusCounts | scripts/clean_state.py:142-150 | one count per status present, equal to the number of slices holding it; the counts sum to the number of slices |
| CleanState.TallyStep | scripts/clean_state.py:144-145 | visiting one more key adds one to its status's count |
| CleanState.StatusesStep | scripts/clean_state.py:143-145 | visiting one more key adds its status to the statuses seen |
| CleanState.HoldingStep | scripts/clean_state.py:143-145 | visiting one more key adds it to the keys of its own status only, one more each time |
| CleanState.TallySum | scripts/clean_state.py:143-149 | the counts of the visited keys sum to their number |
| CleanState.TallyComplete | scripts/clean_state.py:143-149 | the tally of every key has exactly the statuses present, each with its holders' number, summing to the slice count |
| CleanState.MapSumRemove | scripts/clean_state.py:143-145 | the sum of the counts does not depend on which key is taken first |
| CleanState.MapSumUpdate | scripts/clean_state.py:145 | changing one count changes the sum by the difference |
| CleanState.NewestFirst | scripts/clean_state.py:186-187 | the reports reordered (a permutation), newest first |
| CleanState.SliceStart | scripts/clean_state.py:191 | Python's `xs[start:]` starts within the list, at `min(start, n)` for a non-negative start |
| CleanState.CleanReports | scripts/clean_state.py:164-200 | a missing directory removes nothing; otherwise exactly the candidates whose unlink succeeds are removed, and their number returned |
| CleanState.UnlinkedFrom | scripts/clean_state.py:191-197 | no more reports are removed than there are candidates, only candidates, and all of them when every unlink succeeds |
| CleanState.KeepsNewest | scripts/clean_state.py:182-191 | with more than `keep_latest >= 0` reports exactly `keep_latest` escape, each at least as new as every candidate, and the two parts together are the reports |
| CleanState.FewReportsKept | scripts/clean_state.py:182-184 | with at most `keep_latest` reports nothing is a candidate |
| QaReport.BuildCompleteIndex | qa_report.py:87-97 | the three nested loops build exactly the complete index: each configured route in order, times 24 hours, times 7 weekdays |
| QaReport.DowCellsShape | qa_report.py:91-97 | the innermost loop gives one cell per weekday of the route and hour |
| QaReport.HourCellsShape | qa_report.py:90-97 | one route's cells are its 7 × 24 hours and weekdays |
| QaReport.CompleteIndexShape | qa_report.py:83-97 | the index has 168 cells per configured route and holds exactly the configured routes' hours and weekdays |
| QaReport.GroupSize | qa_report.py:80 | `groupby(...).size()` of a cell is the number of raw rows in it, positive exactly when the cell occurs |
| QaReport.Merge | qa_report.py:102-108 | the left merge keeps one row per index cell, in index order, with the cell's row count, 0 when absent |
| QaReport.CoverageMatrixComplete | qa_report.py:77-110 | the matrix has 168 rows per configured route, a row for every configured route, hour and weekday, and each row's count is the number of raw rows in its cell, 0 when none |
| QaReport.Reals | qa_report.py:207 | the counts as reals, element for element |
| QaReport.MedianIsPercentile | qa_report.py:207 | the median is the 50th percentile by linear interpolation |
| QaReport.MiddleInterpolates | qa_report.py:207 | the 50th percentile's rank lies in the list and interpolates to the middle value, or the mean of the middle two |
| QaReport.MedianConstant | qa_report.py:207 | a list of one repeated value has that value as its median |
| QaReport.MedianBelowEven | qa_report.py:207-211 | for an even count `median < min_obs` holds exactly when the two middle values sum below `2 × min_obs` |
| QaReport.MatrixRoutes | qa_report.py:207-210 | the route groups are exactly the routes of the matrix's rows, each once |
| QaReport.RouteObsMembers | qa_report.py:207 | a route's group holds the count of each of its rows and nothing else |
| QaReport.RouteFailuresStep | qa_report.py:210-215 | one more route group appends exactly its failure, if any |
| QaReport.RouteFailuresExact | qa_report.py:210-215 | the failures of some route groups are exactly the low-coverage failures of those routes whose median is below `min_obs` |
| QaReport.CoverageFailuresExact | qa_report.py:202-217 | a route of the matrix gets a failure exactly when the median of its counts is below `min_obs`; the failure carries that median, and no other failure is produced |
| QaReport.UncoveredRouteMedian | qa_report.py:102-108 | a configured route with no raw row has a group whose counts are all 0, so its median is 0 |
| QaReport.CheckMonotonicity | qa_report.py:112-132 | the loop collects exactly the rows breaking `p80 <= p90 <= p95`, in table order |
| QaReport.ViolationsExact | qa_report.py:116-130 | the violations are exactly the non-monotone rows; none exactly when every row is monotone |
| QaReport.Bump | qa_report.py:181-190 | one category's counter goes up by one and nothing else changes |
| QaReport.AnalyzeApiErrors | qa_report.py:156-200 | the imperative loop computes exactly the error-statistics specification |
| QaReport.CountCategoryOf | qa_report.py:180-190 | the category branches add one to exactly the counter of the error's category, tested in order timeout, 403, other 4xx, 5xx, anything else |
| QaReport.CountLogsNext | qa_report.py:170-197 | the counters after one more log are one step from those of the logs before it |
| QaReport.AccountsStep | qa_report.py:170-198 | one more log keeps the loop's counters accounting for every log so far |
| QaReport.AccountsSuccess | qa_report.py:175-176 | a log with status `ok` counts as a success and nothing else |
| QaReport.AccountsFailure | qa_report.py:177-198 | any other log counts as a failure, in one category, with one detail |
| QaReport.FailureLogged | qa_report.py:177-198 | the reference counts after one more failure: one more detail, one more in its category |
| QaReport.FailureCounted | qa_report.py:177-198 | the loop's counters after one more failure: one more failure, in exactly its category, and one more detail |
| QaReport.BumpSum | qa_report.py:181-190 | a bump adds one to the sum of the category counters |
| QaReport.CountLogsExact | qa_report.py:170-198 | the loop's counters from any start are the per-log counts added to the start's |
| QaReport.CountLogsErr | qa_report.py:173-181 | the loop raises exactly at a failed slice whose error is not a string (a `None` error has no `lower()`) |
| QaReport.CountLogsErrStep | qa_report.py:170-181 | the loop raises on a log list exactly when it raised before the last log or raises on it |
| QaReport.StoppingLogSnoc | qa_report.py:173-181 | a failed log whose error is not a string is in the list exactly when it is before the last or is the last |
| QaReport.CountLogErr | qa_report.py:173-181 | one log raises exactly when it failed and its error is not a string |
| QaReport.CountLogsErrSticks | qa_report.py:170-181 | once the loop has raised on a prefix the error is the one of the whole run |
| QaReport.ErrorStatsExact | qa_report.py:156-200 | the analysis raises exactly when a failed slice's error is not a string; otherwise successes and failures add up to the total, only `ok` is a success, each failure is in exactly one category, and there is one detail per failure, in log order |
| QaReport.CountOkBound | qa_report.py:175-176 | no more successes than logs |
| QaReport.LoadRaw | qa_report.py:34-49 | a loaded raw file is never empty |
| QaReport.Loaded | qa_report.py:471-480 | the inputs are loaded exactly when both files load, and are then the raw cells, percentiles and logs; otherwise all three are empty |
| QaReport.MatrixRoutesConfigured | qa_report.py:83-110 | the route groups of the coverage matrix are exactly the configured routes |
| QaReport.NoCoverageFailures | qa_report.py:202-217 | no coverage failure exactly when every route group's median reaches `min_obs` |
| QaReport.VerdictExact | qa_report.py:464-520 | a fresh report passes exactly when loading succeeded, every configured route's median count per cell reaches `min_obs`, and every percentile row is monotone; violations are recorded with their count as a failure |
| QaReport.VerdictLoaded | qa_report.py:483-518 | the same verdict for loaded inputs |
| QaReport.LoadedFailures | qa_report.py:495-518 | with the inputs loaded the report has no failures exactly when coverage has none and no row is non-monotone, and any non-monotone row is reported |
| QaReport.CoverageGate | qa_report.py:202-217 | coverage reports no failure exactly when every configured route has a median of at least the minimum |
| QaReport.LoadFailureFails | qa_report.py:472-495 | a report whose inputs fail to load records only the load failure, has no matrix and does not pass |
| QaReport.UncoveredRouteFailsReport | qa_report.py:483-518 | with a positive threshold, a configured route without any raw row fails the report with median 0 |
| QaReport.LowCoverageRoutes | qa_report.py:207-217 | the loop over route groups appends exactly the coverage failures and passes exactly when it appended none |
| QaReport.QaReporter.constructor | qa_report.py:21-24 | a reporter with the configured routes, `qa_min_obs_per_cell` defaulting to 8, and no failures yet |
| QaReport.QaReporter.CheckCoverageQuality | qa_report.py:202-217 | appends exactly the coverage failures to `qa_failures` and passes exactly when there are none |
| QaReport.QaReporter.GenerateReport | qa_report.py:464-520 | appends this run's failures to `qa_failures`; passes exactly when no failure was ever recorded and no row is non-monotone; an error analysis that raises leaves only the load failure appended |
| TaskStore.TaskState.SetPlannedTasks | orchestrate_month.py:579-580 | records the planned task count and changes neither the slices, the metadata nor what was persisted |
| BufferApp.InterpolateBuffer | app.py:33-56 | the buffer is `p80` up to risk 80 and `p95` above 95, and in between moves linearly from `p80` to `p90` over 80–90 and from `p90` to `p95` over 90–95 |
| BufferApp.Continuous | app.py:44-56 | the pieces meet: risk 80, 90 and 95 give exactly `p80`, `p90` and `p95` |
| BufferApp.Segment | app.py:49-53 | on a segment `lo + t × (hi − lo)` with `t` in `[0, 1]` the value grows with `t` and stays in `[lo, hi]` |
| BufferApp.SegmentParam | app.py:49-53 | the interpolation weight of a risk level lies in `(0, 1]` on its segment |
| BufferApp.BufferBounds | app.py:33-56 | with `p80 <= p90 <= p95` every buffer lies in `[p80, p95]` |
| BufferApp.BufferMonotone | app.py:33-56 | with `p80 <= p90 <= p95` a higher risk level never gets a smaller buffer |
| BufferApp.AtMostP90 | app.py:44-47 | with ordered percentiles a risk level up to 90 gets at most `p90` |
| BufferApp.AtLeastP90 | app.py:48-56 | with ordered percentiles a risk level above 90 gets at least `p90` |
| BuildPercentiles.MissingColumns | build_percentiles.py:50-53 | a column is reported missing exactly when it is required and the table lacks it |
| BuildPercentiles.Hours | build_percentiles.py:58-61 | the stored `hour` column when there is one; otherwise `int()` of the first two characters of `gbtt_pta` for every row, failing exactly when one of them does not parse |
| BuildPercentiles.DerivedHours | build_percentiles.py:61 | the derived hours parse exactly when every row's first two `gbtt_pta` characters parse, and are then those values row for row |
| BuildPercentiles.Filtered | build_percentiles.py:67-70 | the survivors are exactly the rows with no missing key field or delay and a non-negative delay, each with its key and delay |
| BuildPercentiles.StrLessIrreflexive | build_percentiles.py:99 | Python's string order is irreflexive |
| BuildPercentiles.StrLessTransitive | build_percentiles.py:99 | Python's string order is transitive |
| BuildPercentiles.StrLessTotal | build_percentiles.py:99 | any two different strings are ordered one way or the other |
| BuildPercentiles.KeyOrder | build_percentiles.py:99 | the order of `sort_values(["origin", "dest", "hour", "dow"])` is a strict total order on keys |
| BuildPercentiles.InsertKey | build_percentiles.py:85-99 | adding a key keeps the key list strictly sorted and adds exactly that key |
| BuildPercentiles.GroupKeys | build_percentiles.py:85-99 | the group keys are strictly sorted and are exactly the keys of the observations |
| BuildPercentiles.GroupDelays | build_percentiles.py:85-92 | a group holds as many delays as observations of its key, and exactly their delays |
| BuildPercentiles.DelaysCountSnoc | build_percentiles.py:85-92 | one more observation adds one to its own group's count only |
| BuildPercentiles.DelaysMembersSnoc | build_percentiles.py:85-92 | one more observation adds its delay to its own group's delays only |
| BuildPercentiles.Keys | build_percentiles.py:85 | the keys of the observations, element for element |
| BuildPercentiles.GroupsNonEmpty | build_percentiles.py:85-93 | every group that `groupby` produces is non-empty |
| BuildPercentiles.Grouped | build_percentiles.py:85-99 | one row per distinct key, in strictly increasing key order, every key of the observations present, each row the percentiles and count of its non-empty group; no observations give no rows |
| BuildPercentiles.GroupRows | build_percentiles.py:93-99 | one row per key, in the keys' order, each the percentiles row of its group |
| BuildPercentiles.RowsCoverKeys | build_percentiles.py:85-99 | rows that carry the distinct keys one for one hold exactly the keys of the observations, and some row whenever there is an observation |
| BuildPercentiles.BuildErrors | build_percentiles.py:50-61 | a non-empty table fails exactly when a required column is missing or a derived hour does not parse |
| BuildPercentiles.BuildEmpty | build_percentiles.py:22-45 | a missing or unreadable file, or one without rows, gives the empty table |
| BuildPercentiles.GroupedCounts | build_percentiles.py:85-96 | each row's `obs_count` is the positive size of its group and `p80`, `p90`, `p95` are its delays' percentiles by linear interpolation |
| BuildPercentiles.BuildGroups | build_percentiles.py:59-99 | a non-empty build that succeeds is the grouping of the rows that survive the filter |
| BuildPercentiles.BuildMonotone | build_percentiles.py:70-99 | every row of a successful build has `0 <= p80 <= p90 <= p95` |
| BuildPercentiles.GroupedMonotone | build_percentiles.py:85-93 | grouped non-negative delays give monotone, non-negative percentiles |
| BuildPercentiles.GroupMonotone | build_percentiles.py:88-91 | one group's three percentiles are non-negative and ordered |
| BuildPercentiles.AsPercentileRows | build_percentiles.py:96 | the output rows as the percentile table, one for one |
| BuildPercentiles.BuildPassesMonotonicity | build_percentiles.py:85-99 | the QA report's monotonicity check finds no violation in a table this build produced |
| DelaySummary.Sorted | check_delay_summary.py:10 | `sorted(values)` is ordered and a permutation of the values |
| DelaySummary.Ceil | check_delay_summary.py:13 | `math.ceil` is the least integer at or above `k`, equal to the floor exactly for an integral `k` |
| DelaySummary.RankBounds | check_delay_summary.py:11 | for `p` in `[0, 100]` the rank lies between the first and the last index |
| DelaySummary.Percentile | check_delay_summary.py:6-18 | `None` exactly for an empty list; otherwise the linear interpolation of the sorted values at the rank `p / 100 × (n − 1)` |
| DelaySummary.MulNonneg | check_delay_summary.py:16-17 | the two interpolation weights' products with non-negative values are non-negative |
| DelaySummary.Convex | check_delay_summary.py:16-18 | `d0 + d1` is a convex combination of the two neighbours and lies between them |
| DelaySummary.InterpolateBetween | check_delay_summary.py:14-18 | an integral rank reads the value at that index; any other lies between the two sorted values around it |
| DelaySummary.InterpolateLinear | check_delay_summary.py:16-18 | between two indices the result is `values[f] + (k − f) × (values[f+1] − values[f])` |
| DelaySummary.InterpolateMonotone | check_delay_summary.py:11-18 | on sorted values a higher rank never gives a smaller result |
| DelaySummary.SortedEnds | check_delay_summary.py:10 | the first sorted value is the minimum of the list and the last the maximum |
| DelaySummary.BetweenEnds | check_delay_summary.py:10 | a value of an ascending list lies between its first and its last |
| DelaySummary.PercentileBounds | check_delay_summary.py:6-18 | the percentile lies between the list's minimum and maximum |
| DelaySummary.PercentileEnds | check_delay_summary.py:6-18 | the 0th percentile is the minimum and the 100th the maximum |
| DelaySummary.PercentileMonotone | check_delay_summary.py:6-18 | a higher percentile is never smaller |
| RunBatch.RemoveColons | run_batch.py:45 | `replace(":", "")` leaves no colon and never lengthens the string |
| RunBatch.HhmmToMinutesAsWritten | run_batch.py:40-51 | the function as written: `None` for a missing or empty value or fewer than four characters after stripping and removing colons, else the last four characters read as HHMM |
| RunBatch.HhmmToMinutes | run_batch.py:40-51 | the corrected reader: the same `None` cases, then the first four compact characters read as HHMM, as the docstring describes |
| RunBatch.RemoveColonsAppend | run_batch.py:45 | removing colons distributes over concatenation |
| RunBatch.RemoveColonsOfDigits | run_batch.py:45 | a digit string has no colon to remove |
| RunBatch.StripOfTime | run_batch.py:44 | a time that starts and ends with a digit has nothing to strip |
| RunBatch.RemoveColonsJoin | run_batch.py:45 | removing colons around a colon joins the two sides |
| RunBatch.CompactHm | run_batch.py:44-45 | `HH:MM` compacts to `HHMM` |
| RunBatch.CompactHms | run_batch.py:44-45 | `HH:MM:SS` compacts to `HHMMSS` |
| RunBatch.CompactHhmm | run_batch.py:44-45 | `HHMM` compacts to itself |
| RunBatch.AsWrittenReadsSeconds | run_batch.py:48-51 | as written, an `HH:MM:SS` time is read as `MM × 60 + SS` |
| RunBatch.AsWrittenNoonExample | run_batch.py:48-51 | as written, `12:34:56` is read as minute 2096 |
| RunBatch.CorrectedNoonExample | run_batch.py:41 | corrected, `12:34:56` is read as minute 754 |
| RunBatch.CorrectedReadsHms | run_batch.py:41 | corrected, `HH:MM:SS` is read as `HH × 60 + MM` |
| RunBatch.CorrectedReadsHm | run_batch.py:41 | corrected, `HH:MM` is read as `HH × 60 + MM` |
| RunBatch.CorrectedReadsHhmm | run_batch.py:41 | corrected, `HHMM` is read as `HH × 60 + MM` |
| RunBatch.CorrectedReadsHoursMinutes | run_batch.py:41 | corrected, all three documented formats give the same `HH × 60 + MM` |
| RunBatch.ReadingsAgreeOnFour | run_batch.py:46-51 | on four compact characters the two readings agree, and a valid HHMM reads as its minutes of the day |
| RunBatch.ValidHhmmReads | run_batch.py:40-51 | a valid HHMM reads as its minutes of the day |
| RunBatch.ComputeDelayMinutes | run_batch.py:40-59 | both times read as written, from their last four compact characters: a delay exactly when both read, and then actual minus planned; an error exactly when either reading raises |
| RunBatch.SecondsTimesDelay | run_batch.py:40-59 | with `HH:MM:SS` times the delay is the difference of their `MM × 60 + SS` readings, the hours dropping out |
| RunBatch.AsWrittenReadsHhmm | run_batch.py:40-51 | as written, a four-digit `HHMM` is read as `HH × 60 + MM` |
| RunBatch.EarlyArrivalNegative | run_batch.py:53-59 | two times read as minutes `p` and `a` with `a < p` give the delay `a - p`, negative and unclamped |
| RunBatch.TextRidsCount | run_batch.py:88-90 | a service's list keeps each `str` RID as often as it occurs |
| RunBatch.StringRidsCount | run_batch.py:84-90 | every `str` RID is collected as often as the services hold it and nothing else is collected |
| RunBatch.CollectRids | run_batch.py:84-90 | the nested loops collect exactly the `str` RIDs of the services, in order |
| RunBatch.FetchRids | run_batch.py:79-97 | a non-200 answer raises with the status and text; a 200 answer gives the `str` RIDs |
| RunBatch.DestRow | run_batch.py:124 | the stop found is one whose `location` is the destination; none is found only when no stop has it |
| RunBatch.DetailsForRid | run_batch.py:99-138 | a failed call gives the row of `None`s; every row has its RID and the destination; a delay appears only when both times are truthy, and is then their as-written difference |
| RunBatch.RunRows | run_batch.py:150-155 | the loop of `main` computes the batch rows, one per RID in order, up to the first raise |
| RunBatch.BatchRowsErrSticks | run_batch.py:153-155 | a raise on a prefix is the result of the whole batch |
| RunBatch.BatchRowsShape | run_batch.py:153-155 | a successful batch has one row per RID, each carrying its RID |
| Sorting.Insert | check_delay_summary.py:10 | inserting keeps the list ordered by the key and adds exactly that element |
| Sorting.ConsSorted | check_delay_summary.py:10 | an element no greater than the head keeps the list ordered when put in front |
| Sorting.InsertedAbove | check_delay_summary.py:10 | what is inserted after the head of an ordered list has a key at least the head's |
| Sorting.SortBy | scripts/clean_state.py:187 | `sorted` by a key is ordered by the key and a permutation of its input |
| Sorting.SortBySameElements | scripts/clean_state.py:187 | the sorted list holds exactly the input's elements |
| Sorting.SortByExtremes | check_delay_summary.py:10 | the first sorted element has the least key and the last the greatest |
| Common.PyIntStrips | adaptive_metrics.py:22-23 | `int()` ignores surrounding whitespace, Python's whole whitespace set |
| Common.SeparatorsAreWhitespace | adaptive_metrics.py:22-23 | the ASCII separators and Unicode spaces count as whitespace for `int()` and `strip()` |
| Common.PyIntOfDigits | adaptive_metrics.py:22-23 | `int()` of a non-empty digit string is its decimal value |
| Common.Upper | routely-buffer-spike/pipeline.py:223 | `upper()` maps each character to its upper case, length preserved |
| Common.Lower | adaptive_metrics.py:134 | `lower()` maps each character to its lower case, length preserved |
| Common.Split | routely-buffer-spike/pipeline.py:223 | `split` on one character gives at least one part, exactly one when the separator is absent, and then the string itself |
| Common.FirstIndex | orchestrate_month.py:174 | the first position of a character present in the string |
| Common.NatToStringDigits | adaptive_metrics.py:31 | `str(n)` is a digit string denoting `n`, one character exactly below 10 |
| Common.Pad2Digits | adaptive_metrics.py:31 | `{n:02d}` of 0..99 writes the tens digit then the units digit |
| Common.Prefix | build_percentiles.py:61 | `s[:n]` has length `min(n, len(s))` |

## Left out

- Network I/O: the `requests` sessions, `HTTPAdapter` with urllib3 `Retry` and the JSON decoding of answers. The answers are oracles, so hidden retries under the manual loop are not represented.
- Concurrency: the thread pools that fetch details (orchestrator and hour-sliced ingester).
  - The orchestrator's slice task takes RIDs in a nondeterministic order.
  - The ingesters take them in record order.
  - Counts and row sets do not depend on the order.
- Sleeps and time: `time.sleep`, jittered backoff, the QPS throttle with its global timestamp, the every-N-request pause and `perf_counter` timings. The circuit breaker's 90 s cool-down is counted, not slept.
- Randomness:
  - `random.sample` seeded with `hash(task_key)` is modelled as any subset of the required size. Python salts string hashes per process, so no reproducibility is claimed.
  - pandas `sample(random_state=42)` is modelled as any admissible per-group sample. The day ingesters fix one admissible choice: the first records of each group.
- Files and formats:
  - JSON loading and saving of the state and of slice logs;
  - gzip CSV reading and writing, and per-day file appends;
  - `rids.json` and the batch CSV.
  - Files appear as values (`None` when missing or unreadable), and writes as returned values or a `persisted` field.
- `utils/ingest_log.py`: log formatting with float ratios, not part of this model.
- Dates: ISO parsing, `weekday()`, `now()` and `%Y-%m-%d` formatting. Dates are day numbers with a weekday number, and a date's text is a parameter.
- Floating point:
  - all percentile and interpolation arithmetic is on exact reals;
  - NaN is modelled as `None`;
  - pandas' dtype inference and `quantile` internals are left out.
- BuildPercentiles.GroupedCounts: the percentiles are exact, because the rounding to two decimals (`build_percentiles.py:102-103`) is float formatting.
- Reports and UI:
  - the QA report's HTML, sparklines, file name and timestamp;
  - `dashboard.py`;
  - the Streamlit page of `app.py`;
  - `print_summary` statistics and all printing and logging.
- CLI plumbing: argparse set-up, config loading, the interactive `input()` confirmations, and `clean_hard`'s `shutil.rmtree`.
- Diagnostics: `rdm_diagnose.py`, `quick_diagnose.py`, `healthcheck.py`, `scripts/self_check.py`, `scripts/rdm_probe.py`, `scripts/env_check.py`, `verify_pad_rdg_fix.py` and `check_fix.py`. They are live probes and `.env` editing.
- The API key check and the request headers.
- `check_delay_summary.main`: CSV reading and printing around `percentile`.
- Status values that are not strings, Unicode case mapping and Unicode digits (only ASCII letters and digits are modelled; whitespace is Python's full set), pandas group iteration order, and Python dict iteration order where the source prints, not returns.
- The unused `dates` parameter of `build_percentiles`.
- Common.PyInt: only the ASCII digits 0-9 are read. Python's `int()` also reads other Unicode decimal digits, such as `int("٠٦")`, where the model gives `None`.
- Common.PyIntStrips: states the stripping for the modelled digits only. With Unicode digits `int()` gives a value where the model gives `None`.
- PipelineArgs.TimeArgFault: `isdigit()` is read as ASCII digits. In the source `--from_time "٠٦٠٠"` passes the check and reads as 600, but the model reports it as not four digits. A superscript digit passes `isdigit()` and then makes `int()` raise, which the model also reports as not four digits.
- Orchestrator.MonthOrchestrator.Run: modelled only for tasks whose windows are well-formed HHMM times inside the day (`AllValid`).
  - The source never checks a window. `--override-windows` only strips and zero-pads.
  - A window end such as `2400` runs normally in the source.
  - A window such as `6:00` raises `ValueError` out of `run()` in `_time_to_minutes` on its first bisected timeout.
  - The model's `HandleTimeout` gives no sub-tasks where that raise happens.
  - The requirement bounds the bisection whose termination the model proves. In the source, re-formatting a midpoint above `99:59` (`10000`) reads back as a different time, so termination is not evident for arbitrary windows.
- Orchestrator.RunAccounts: the same well-formed-window requirement as `Run`.
- Orchestrator.RunKeepsOk: the same well-formed-window requirement as `Run`.
- Orchestrator.MainLoop: the same well-formed-window requirement as `Run`.
- Orchestrator.MainLoopAccounts: the same well-formed-window requirement as `Run`.
- RunBatch.DetailsForRid: a stop record does not tell an absent `location` key from a null one. When the first stop has no `location` key, the script's `locations[0]["location"]` raises `KeyError`; the model reads it as a null origin.
- Orchestrator.MonthOrchestrator.PlanOnly: the second metadata key `planned`, which holds the same count as `planned_tasks`, is not a separate field of the state.
- Sorting.SortBy: the contract states order and permutation, not stability. Stability would only matter for two QA reports with the same modification time.
- `route_stats` and the other statistics counters that the code only prints.

## Findings

| source | as written | input that shows it | evidently intended | confidence | as-written member | corrected member |
|---|---|---|---|---|---|---|
| routely-buffer-spike/pipeline.py:319-363 | the `consecutive_failures` dictionary is created afresh for each day, and a day visits each `(hour_from, toc)` key once, so no counter is ever 3 when it is checked and the cool-down never happens | `--from_time 0600 --to_time 0659 --toc gw` over 4 days on which that chunk fails with HTTP 503 each time | the counter keeps running across days, so the fourth consecutive failing attempt cools down first | not executed | SpikePipeline.AsWrittenNeverCools | SpikePipeline.CorrectedCoolsOnFourthDay |
| run_batch.py:40-51 | the reader takes the LAST four characters after removing colons, so `HH:MM:SS` is read as `MM * 60 + SS` | `hhmm_to_minutes("12:34:56")` gives 2096 | 754, i.e. `HH * 60 + MM`, as the docstring says for `HH:MM:SS` | not executed | RunBatch.AsWrittenNoonExample | RunBatch.CorrectedNoonExample |
