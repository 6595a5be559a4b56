/**
  The `run()` state machine of `MonthOrchestrator` (orchestrate_month.py):
  one pass over a task list that grows when a timed-out window is bisected,
  then at most two retry passes over the tasks that failed, then the exit
  code. The slice work is the oracle `outcome(n)`: the status of the `n`-th
  slice execution of the run.

  `MainStep`, `MainLoop`, `RetryPass`, `Retries` and `RunSpec` state what the
  run does; the class `MonthOrchestrator` does it against a `TaskState` and
  is proved to agree with them.
*/
module Orchestrator {
  import opened Common
  import opened Hhmm
  import opened Routes
  import opened Bisector
  import opened Planner
  import opened TaskStore
  import opened SliceTask

  /** The configuration keys `run()` reads: `bisection_on_timeout` and `fail_fast`. */
  datatype Config = Config(bisectionOnTimeout: bool, failFast: bool)

  /** `max_retries`. */
  const MAX_RETRIES := 2

  /** The slice result stored as metadata, reduced to its `status` entry. */
  function ResultInfo(o: Outcome): (m: Metadata)
    ensures |m| > 0
  {
    map["status" := OutcomeText(o)]
  }

  /** `set_slice_status(key, status, result)` on the state document (the result is never empty). */
  function Record(store: Snapshot, key: string, status: string, o: Outcome): Snapshot {
    store.(slices := store.slices[key := status], sliceMetadata := store.sliceMetadata[key := ResultInfo(o)])
  }

  /** The sub-task for window `w` of `task`: a copy with the window and its key replaced. */
  function ChildTask(task: Task, w: Window): Task {
    task.(fromTime := w.fromTime, toTime := w.toTime,
          key := TaskKey(task.date, task.origin, task.dest, w.fromTime, w.toTime))
  }

  /** `_handle_timeout_with_bisection`: the two sub-tasks, or none. */
  function HandleTimeout(cfg: Config, task: Task): seq<Task> {
    var w := WindowOf(task);
    if !cfg.bisectionOnTimeout || CanBisect(w) != Some(true) then []
    else
      match BisectWindow(w)
      case Some(h) => [ChildTask(task, h.first), ChildTask(task, h.second)]
      case None => []
  }

  /**
    With bisection enabled, a well-formed window of 60 minutes or more gives
    two sub-tasks of the same date and route whose windows split it; any other
    task gives none.
  */
  lemma HandleTimeoutFacts(cfg: Config, task: Task)
    requires ValidWindow(WindowOf(task))
    ensures var children := HandleTimeout(cfg, task);
            (|children| == 2 <==> cfg.bisectionOnTimeout && Duration(WindowOf(task)) >= 60) &&
            (|children| != 2 ==> children == [])
    ensures var children := HandleTimeout(cfg, task);
            |children| == 2 ==>
              SplitsInto(WindowOf(task), Halves(WindowOf(children[0]), WindowOf(children[1]))) &&
              forall c :: c in children ==>
                c.date == task.date && c.origin == task.origin && c.dest == task.dest &&
                c.key == TaskKey(c.date, c.origin, c.dest, c.fromTime, c.toTime)
  {
    var w := WindowOf(task);
    CanBisectIff(w);
    if Duration(w) >= 60 {
      BisectHalves(w);
    }
  }

  /** The number of sub-tasks alone: two when bisection is enabled and the window spans 60 minutes or more, else none. */
  lemma HandleTimeoutCount(cfg: Config, task: Task)
    requires ValidWindow(WindowOf(task))
    ensures var children := HandleTimeout(cfg, task);
            (|children| == 2 <==> cfg.bisectionOnTimeout && Duration(WindowOf(task)) >= 60) &&
            (|children| != 2 ==> children == [])
  {
    HandleTimeoutFacts(cfg, task);
  }

  // ---- The main loop ----

  /** Minutes of a task's window, doubled, plus one: what bisection shrinks. */
  function Weight(t: Task): nat {
    var w := WindowOf(t);
    if ValidWindow(w) && Duration(w) > 0 then 2 * Duration(w) + 1 else 1
  }

  /** The work left in a task list. */
  function Weights(ts: seq<Task>): nat {
    if ts == [] then 0 else Weight(ts[0]) + Weights(ts[1..])
  }

  lemma {:induction false} WeightsAppend(a: seq<Task>, b: seq<Task>)
    ensures Weights(a + b) == Weights(a) + Weights(b)
  {
    if a != [] {
      WeightsAppend(a[1..], b);
      assert (a + b)[0] == a[0] && (a + b)[1..] == a[1..] + b;
    } else {
      assert a + b == b;
    }
  }

  /** Every task of the list has a well-formed window. */
  predicate AllValid(ts: seq<Task>) {
    forall i :: 0 <= i < |ts| ==> ValidWindow(WindowOf(ts[i]))
  }

  /** The variables of `run()` between iterations. */
  datatype Progress = Progress(
    tasks: seq<Task>,     // `tasks`, with the sub-tasks appended so far
    next: nat,            // the index of the next task to visit
    store: Snapshot,      // the task state
    calls: nat,           // slice executions so far
    successful: int, failed: int, skipped: int,
    retry: seq<Task>)     // `retry_queue`

  /** The work left in the main loop. */
  function Remaining(p: Progress): nat
    requires p.next <= |p.tasks|
  {
    Weights(p.tasks[p.next..])
  }

  /**
    One iteration of the main loop. A task stored as `ok` or `skipped` is
    counted and not executed; any other stored status executes it. An `ok`
    result is recorded; a timeout with bisection on records `bisected` and
    appends the halves, or records `failed` when the window is too small;
    `skipped` is recorded; anything else records `failed` and queues the task
    for retry unless `fail_fast` is set.
  */
  function MainStep(cfg: Config, outcome: nat -> Outcome, p: Progress): Progress
    requires p.next < |p.tasks|
  {
    var task := p.tasks[p.next];
    var status := StatusIn(p.store.slices, task.key);
    var visited := p.(next := p.next + 1);
    if status == "ok" then visited.(successful := p.successful + 1)
    else if status == "skipped" then visited.(skipped := p.skipped + 1)
    else Executed(cfg, outcome(p.calls), task, visited.(calls := p.calls + 1))
  }

  /** The bookkeeping after `task` was executed with result `o`. */
  function Executed(cfg: Config, o: Outcome, task: Task, ran: Progress): Progress {
    if o == Succeeded then
      ran.(store := Record(ran.store, task.key, "ok", o), successful := ran.successful + 1)
    else if o == TimedOut && cfg.bisectionOnTimeout then
      var children := HandleTimeout(cfg, task);
      if |children| > 0 then
        ran.(tasks := ran.tasks + children, store := Record(ran.store, task.key, "bisected", o))
      else
        ran.(store := Record(ran.store, task.key, "failed", o), failed := ran.failed + 1)
    else if o == NoRids then
      ran.(store := Record(ran.store, task.key, "skipped", o), skipped := ran.skipped + 1)
    else
      ran.(retry := if cfg.failFast then ran.retry else ran.retry + [task],
           store := Record(ran.store, task.key, "failed", o), failed := ran.failed + 1)
  }

  /** A step visits one task and either keeps the task list or appends the two halves of that task. */
  lemma StepShape(cfg: Config, outcome: nat -> Outcome, p: Progress)
    requires p.next < |p.tasks| && AllValid(p.tasks)
    ensures Grows(p, MainStep(cfg, outcome, p), HandleTimeout(cfg, p.tasks[p.next]))
  {
    HandleTimeoutFacts(cfg, p.tasks[p.next]);
  }

  /** `r` is `p` one task further on, with the task list kept or extended by the halves of that task. */
  predicate Grows(p: Progress, r: Progress, children: seq<Task>)
    requires p.next < |p.tasks| && AllValid(p.tasks)
  {
    r.next == p.next + 1 &&
    (r.tasks == p.tasks ||
     (r.tasks == p.tasks + children && |children| == 2 &&
      SplitsInto(WindowOf(p.tasks[p.next]), Halves(WindowOf(children[0]), WindowOf(children[1])))))
  }

  /** Such a step leaves less work, keeps the windows well-formed and only appends. */
  lemma GrowsShrinks(p: Progress, r: Progress, children: seq<Task>)
    requires p.next < |p.tasks| && AllValid(p.tasks) && Grows(p, r, children)
    ensures r.next <= |r.tasks| && AllValid(r.tasks) &&
            |p.tasks| <= |r.tasks| && r.tasks[..|p.tasks|] == p.tasks &&
            Remaining(r) < Remaining(p)
  {
    if r.tasks == p.tasks {
      Advance(p.tasks, p.next);
    } else {
      AppendShrinks(p.tasks, p.next, children);
      assert r.tasks[..|p.tasks|] == p.tasks;
    }
  }

  /** Visiting a task leaves less work. */
  lemma Advance(tasks: seq<Task>, i: nat)
    requires i < |tasks|
    ensures Weights(tasks[i + 1..]) < Weights(tasks[i..])
  {
    assert tasks[i..][1..] == tasks[i + 1..];
  }

  /** Visiting a bisected task and appending its halves leaves less work and keeps the windows well-formed. */
  lemma AppendShrinks(tasks: seq<Task>, i: nat, children: seq<Task>)
    requires i < |tasks| && AllValid(tasks) && |children| == 2
    requires SplitsInto(WindowOf(tasks[i]), Halves(WindowOf(children[0]), WindowOf(children[1])))
    ensures AllValid(tasks + children)
    ensures Weights((tasks + children)[i + 1..]) < Weights(tasks[i..])
  {
    var rest := tasks[i + 1..];
    assert tasks[i..] == [tasks[i]] + rest;
    assert Weights(tasks[i..]) == Weight(tasks[i]) + Weights(rest) by {
      assert tasks[i..][0] == tasks[i] && tasks[i..][1..] == rest;
    }
    assert (tasks + children)[i + 1..] == rest + children;
    WeightsAppend(rest, children);
    ChildrenWeigh(tasks[i], children);
    forall k | 0 <= k < |tasks + children|
      ensures ValidWindow(WindowOf((tasks + children)[k]))
    {
      if k >= |tasks| {
        assert (tasks + children)[k] == children[k - |tasks|];
      }
    }
  }

  /** A step keeps the windows well-formed, only appends tasks, and leaves less work. */
  lemma StepShrinks(cfg: Config, outcome: nat -> Outcome, p: Progress)
    requires p.next < |p.tasks| && AllValid(p.tasks)
    ensures var r := MainStep(cfg, outcome, p);
            r.next == p.next + 1 && r.next <= |r.tasks| && AllValid(r.tasks) &&
            |p.tasks| <= |r.tasks| && r.tasks[..|p.tasks|] == p.tasks &&
            Remaining(r) < Remaining(p)
  {
    StepShape(cfg, outcome, p);
    GrowsShrinks(p, MainStep(cfg, outcome, p), HandleTimeout(cfg, p.tasks[p.next]));
  }

  /** The two halves of a bisected task weigh less than it. */
  lemma ChildrenWeigh(task: Task, children: seq<Task>)
    requires ValidWindow(WindowOf(task)) && |children| == 2
    requires SplitsInto(WindowOf(task), Halves(WindowOf(children[0]), WindowOf(children[1])))
    ensures Weights(children) < Weight(task)
  {
    var rest := children[1..];
    assert rest[0] == children[1] && rest[1..] == [];
    assert Weights(rest) == Weight(children[1]);
    assert Weights(children) == Weight(children[0]) + Weight(children[1]);
  }

  /** The main loop: steps until every task, including appended ones, has been visited. */
  function MainLoop(cfg: Config, outcome: nat -> Outcome, p: Progress): (r: Progress)
    requires p.next <= |p.tasks| && AllValid(p.tasks)
    ensures r.next == |r.tasks| && AllValid(r.tasks)
    ensures |p.tasks| <= |r.tasks| && r.tasks[..|p.tasks|] == p.tasks
    decreases Remaining(p)
  {
    if p.next == |p.tasks| then p
    else
      StepShrinks(cfg, outcome, p);
      var q := MainStep(cfg, outcome, p);
      var r := MainLoop(cfg, outcome, q);
      assert r.tasks[..|p.tasks|] == r.tasks[..|q.tasks|][..|p.tasks|];
      r
  }

  // ---- Retries ----

  /**
    One retry pass over `queue`: each task is executed again; a success is
    recorded as `ok` and moves one task from failed to successful; every
    other task is kept, in order, for the next pass.
  */
  function RetryPass(outcome: nat -> Outcome, p: Progress, queue: seq<Task>, kept: seq<Task>): Progress
    decreases |queue|
  {
    if queue == [] then p.(retry := kept)
    else
      var task := queue[0];
      var o := outcome(p.calls);
      var ran := p.(calls := p.calls + 1);
      if o == Succeeded then
        RetryPass(outcome, ran.(store := Record(p.store, task.key, "ok", o),
                                successful := p.successful + 1, failed := p.failed - 1), queue[1..], kept)
      else
        RetryPass(outcome, ran, queue[1..], kept + [task])
  }

  /** At most `rounds` retry passes, stopping early once the queue is empty. */
  function Retries(outcome: nat -> Outcome, p: Progress, rounds: nat): Progress
    decreases rounds
  {
    if rounds == 0 || p.retry == [] then p
    else Retries(outcome, RetryPass(outcome, p, p.retry, []), rounds - 1)
  }

  /** `sys.exit` code: 1 when QA fails or any task is still failed, else 0. */
  function ExitCode(qaPassed: bool, failed: int): (code: int)
    ensures code == 0 <==> qaPassed && failed <= 0
    ensures code == 0 || code == 1
  {
    if !qaPassed then 1 else if failed > 0 then 1 else 0
  }

  /**
    How `run()` ends: `sys.exit` with the exit code, or `None` when it
    counted no task at all, where the success rate `_print_summary` prints
    divides by zero and `ZeroDivisionError` escapes before any exit.
  */
  function RunExit(qaPassed: bool, failed: int, total: nat): Option<int> {
    if total == 0 then None else Some(ExitCode(qaPassed, failed))
  }

  /** The start of a run over the planned tasks. */
  function Start(plan: seq<Task>, store: Snapshot): Progress {
    Progress(plan, 0, store, 0, 0, 0, 0, [])
  }

  /** The whole run: the main loop, the retry passes and the exit code. */
  function RunSpec(cfg: Config, outcome: nat -> Outcome, plan: seq<Task>, store: Snapshot, qaPassed: bool): (Progress, Option<int>)
    requires AllValid(plan)
  {
    var done := Retries(outcome, MainLoop(cfg, outcome, Start(plan, store)), MAX_RETRIES);
    (done, RunExit(qaPassed, done.failed, |done.tasks|))
  }

  // ---- What the run promises ----

  /** Resume: a task stored as `ok` or `skipped` is counted without executing it; any other task runs once. */
  lemma ResumeSkips(cfg: Config, outcome: nat -> Outcome, p: Progress)
    requires p.next < |p.tasks|
    ensures var status := StatusIn(p.store.slices, p.tasks[p.next].key);
            var r := MainStep(cfg, outcome, p);
            (r.calls == p.calls <==> status == "ok" || status == "skipped") &&
            (r.calls != p.calls ==> r.calls == p.calls + 1) &&
            (status == "ok" ==> r == p.(next := p.next + 1, successful := p.successful + 1)) &&
            (status == "skipped" ==> r == p.(next := p.next + 1, skipped := p.skipped + 1))
  {
  }

  /**
    An executed task's new status: `ok` exactly on success, `bisected` exactly
    when it timed out with bisection on and its window spans 60 minutes or
    more (and then its halves are appended), `skipped` when no RIDs were
    found, and `failed` otherwise.
  */
  lemma ExecutedStatus(cfg: Config, outcome: nat -> Outcome, p: Progress)
    requires p.next < |p.tasks| && AllValid(p.tasks)
    requires StatusIn(p.store.slices, p.tasks[p.next].key) !in {"ok", "skipped"}
    ensures var task, o := p.tasks[p.next], outcome(p.calls);
            var r := MainStep(cfg, outcome, p);
            var bisect := o == TimedOut && cfg.bisectionOnTimeout && Duration(WindowOf(task)) >= 60;
            var status := StatusIn(r.store.slices, task.key);
            (status == "ok" <==> o == Succeeded) &&
            (status == "bisected" <==> bisect) &&
            (status == "skipped" <==> o == NoRids) &&
            (status == "failed" <==> o !in {Succeeded, NoRids} && !bisect) &&
            (r.tasks == if bisect then p.tasks + HandleTimeout(cfg, task) else p.tasks) &&
            (r.retry == if o !in {Succeeded, NoRids} && !cfg.failFast && !(o == TimedOut && cfg.bisectionOnTimeout)
                        then p.retry + [task] else p.retry)
  {
    HandleTimeoutCount(cfg, p.tasks[p.next]);
  }

  /**
    The counters account for every visited task: each one is successful,
    failed, skipped or bisected, and every bisected task appended two tasks.
    The retry queue holds only tasks counted as failed.
  */
  predicate Balanced(p: Progress, planned: int) {
    2 * (p.successful + p.failed + p.skipped) + |p.tasks| == 2 * p.next + planned &&
    |p.retry| <= p.failed
  }

  lemma StepBalanced(cfg: Config, outcome: nat -> Outcome, p: Progress, planned: int)
    requires p.next < |p.tasks| && AllValid(p.tasks) && Balanced(p, planned)
    ensures Balanced(MainStep(cfg, outcome, p), planned)
  {
    HandleTimeoutCount(cfg, p.tasks[p.next]);
  }

  lemma {:induction false} LoopBalanced(cfg: Config, outcome: nat -> Outcome, p: Progress, planned: int)
    requires p.next <= |p.tasks| && AllValid(p.tasks) && Balanced(p, planned)
    ensures Balanced(MainLoop(cfg, outcome, p), planned)
    decreases Remaining(p)
  {
    if p.next < |p.tasks| {
      StepShrinks(cfg, outcome, p);
      StepBalanced(cfg, outcome, p, planned);
      LoopBalanced(cfg, outcome, MainStep(cfg, outcome, p), planned);
    }
  }

  /**
    After the main loop every task, planned or appended, is accounted for:
    each one is counted once as successful, failed or skipped, except the
    bisected ones, which are not counted and appended two tasks each; so the
    counted tasks are the final list less the bisected ones, and
    twice their number is the final length plus the planned length.
  */
  lemma MainLoopAccounts(cfg: Config, outcome: nat -> Outcome, plan: seq<Task>, store: Snapshot)
    requires AllValid(plan)
    ensures var r := MainLoop(cfg, outcome, Start(plan, store));
            |r.tasks| >= |plan| &&
            2 * (r.successful + r.failed + r.skipped) == |r.tasks| + |plan| &&
            |r.retry| <= r.failed
  {
    LoopBalanced(cfg, outcome, Start(plan, store), |plan|);
  }

  /**
    A retry pass executes each queued task once, keeps only the ones that
    failed again, moves one task from failed to successful per success, and
    keeps the queue within the failed count.
  */
  lemma {:induction false} RetryPassFacts(outcome: nat -> Outcome, p: Progress, queue: seq<Task>, kept: seq<Task>)
    ensures var r := RetryPass(outcome, p, queue, kept);
            r.calls == p.calls + |queue| &&
            |kept| <= |r.retry| <= |kept| + |queue| &&
            r.successful + r.failed == p.successful + p.failed &&
            r.failed - |r.retry| == p.failed - |kept| - |queue| &&
            r.tasks == p.tasks && r.next == p.next && r.skipped == p.skipped
    decreases |queue|
  {
    if queue != [] {
      var o := outcome(p.calls);
      var ran := p.(calls := p.calls + 1);
      if o == Succeeded {
        var q := ran.(store := Record(p.store, queue[0].key, "ok", o), successful := p.successful + 1, failed := p.failed - 1);
        assert RetryPass(outcome, p, queue, kept) == RetryPass(outcome, q, queue[1..], kept);
        RetryPassFacts(outcome, q, queue[1..], kept);
      } else {
        assert RetryPass(outcome, p, queue, kept) == RetryPass(outcome, ran, queue[1..], kept + [queue[0]]);
        RetryPassFacts(outcome, ran, queue[1..], kept + [queue[0]]);
      }
    }
  }

  /**
    The retry passes execute at most `rounds` times the first queue's length,
    each pass over only the tasks that failed the previous one, and never
    count more tasks as retried than failed.
  */
  lemma {:induction false} RetriesBounded(outcome: nat -> Outcome, p: Progress, rounds: nat)
    requires |p.retry| <= p.failed
    ensures var r := Retries(outcome, p, rounds);
            p.calls <= r.calls <= p.calls + rounds * |p.retry| &&
            |r.retry| <= |p.retry| && |r.retry| <= r.failed &&
            r.successful + r.failed == p.successful + p.failed &&
            r.tasks == p.tasks && r.skipped == p.skipped
    decreases rounds
  {
    if rounds > 0 && p.retry != [] {
      var q := RetryPass(outcome, p, p.retry, []);
      RetryPassFacts(outcome, p, p.retry, []);
      RetriesBounded(outcome, q, rounds - 1);
      assert (rounds - 1) * |q.retry| <= (rounds - 1) * |p.retry| by {
        MulMono(|q.retry|, |p.retry|, rounds - 1);
      }
    }
  }

  /** A task recorded as `ok` stays `ok` for the rest of the main loop. */
  lemma StepKeepsOk(cfg: Config, outcome: nat -> Outcome, p: Progress, key: string)
    requires p.next < |p.tasks| && StatusIn(p.store.slices, key) == "ok"
    ensures StatusIn(MainStep(cfg, outcome, p).store.slices, key) == "ok"
  {
  }

  lemma {:induction false} LoopKeepsOk(cfg: Config, outcome: nat -> Outcome, p: Progress, key: string)
    requires p.next <= |p.tasks| && AllValid(p.tasks) && StatusIn(p.store.slices, key) == "ok"
    ensures StatusIn(MainLoop(cfg, outcome, p).store.slices, key) == "ok"
    decreases Remaining(p)
  {
    if p.next < |p.tasks| {
      StepShrinks(cfg, outcome, p);
      StepKeepsOk(cfg, outcome, p, key);
      LoopKeepsOk(cfg, outcome, MainStep(cfg, outcome, p), key);
    }
  }

  lemma {:induction false} RetryKeepsOk(outcome: nat -> Outcome, p: Progress, queue: seq<Task>, kept: seq<Task>, key: string)
    requires StatusIn(p.store.slices, key) == "ok"
    ensures StatusIn(RetryPass(outcome, p, queue, kept).store.slices, key) == "ok"
    decreases |queue|
  {
    if queue != [] {
      var o := outcome(p.calls);
      var ran := p.(calls := p.calls + 1);
      if o == Succeeded {
        RetryKeepsOk(outcome, ran.(store := Record(p.store, queue[0].key, "ok", o),
                                   successful := p.successful + 1, failed := p.failed - 1), queue[1..], kept, key);
      } else {
        RetryKeepsOk(outcome, ran, queue[1..], kept + [queue[0]], key);
      }
    }
  }

  lemma {:induction false} RetriesKeepOk(outcome: nat -> Outcome, p: Progress, rounds: nat, key: string)
    requires StatusIn(p.store.slices, key) == "ok"
    ensures StatusIn(Retries(outcome, p, rounds).store.slices, key) == "ok"
    decreases rounds
  {
    if rounds > 0 && p.retry != [] {
      RetryKeepsOk(outcome, p, p.retry, [], key);
      RetriesKeepOk(outcome, RetryPass(outcome, p, p.retry, []), rounds - 1, key);
    }
  }

  /**
    A resumed run never re-executes completed work: a key stored as `ok`
    before the run is still `ok` after it, and the run exits 0 exactly when
    QA passes and no task is left failed.
  */
  lemma RunKeepsOk(cfg: Config, outcome: nat -> Outcome, plan: seq<Task>, store: Snapshot, qaPassed: bool, key: string)
    requires AllValid(plan) && StatusIn(store.slices, key) == "ok"
    ensures StatusIn(RunSpec(cfg, outcome, plan, store, qaPassed).0.store.slices, key) == "ok"
  {
    LoopKeepsOk(cfg, outcome, Start(plan, store), key);
    RetriesKeepOk(outcome, MainLoop(cfg, outcome, Start(plan, store)), MAX_RETRIES, key);
  }

  /** The totals `run()` reports, and the number of tasks including sub-tasks. */
  lemma RunAccounts(cfg: Config, outcome: nat -> Outcome, plan: seq<Task>, store: Snapshot, qaPassed: bool)
    requires AllValid(plan)
    ensures var (r, code) := RunSpec(cfg, outcome, plan, store, qaPassed);
            |r.tasks| >= |plan| &&
            2 * (r.successful + r.failed + r.skipped) == |r.tasks| + |plan| &&
            r.failed >= 0 &&
            (code.None? <==> plan == []) &&
            (code == Some(0) <==> plan != [] && qaPassed && r.failed == 0) &&
            (code.Some? ==> code.value == 0 || code.value == 1)
  {
    var m := MainLoop(cfg, outcome, Start(plan, store));
    if plan == [] {
      assert m == Start(plan, store);
    }
    MainLoopAccounts(cfg, outcome, plan, store);
    RetriesBounded(outcome, m, MAX_RETRIES);
  }

  // ---- The orchestrator ----

  class MonthOrchestrator {
    var state: TaskState

    constructor (state: TaskState)
      ensures this.state == state
    {
      this.state := state;
    }

    /**
      `run()` without `plan_only`: the main loop over `tasks`, the retry
      passes and the exit code, `None` where `_print_summary` raises on an
      empty plan; QA's verdict is a parameter. The returned counters are
      those `_print_summary` reports.
    */
    method Run(tasks: seq<Task>, cfg: Config, outcome: nat -> Outcome, qaPassed: bool)
      returns (exitCode: Option<int>, total: nat, successful: int, failed: int, skipped: int)
      requires AllValid(tasks)
      modifies state
      ensures var (r, code) := RunSpec(cfg, outcome, tasks, old(state.Current()), qaPassed);
              exitCode == code && total == |r.tasks| &&
              successful == r.successful && failed == r.failed && skipped == r.skipped &&
              state.Current() == r.store
      ensures state.persisted == Some(state.Current()) || (state.persisted == old(state.persisted) && state.Current() == old(state.Current()))
    {
      var all := tasks;
      var i := 0;
      var calls := 0;
      successful, failed, skipped := 0, 0, 0;
      var retryQueue := [];
      ghost var start := Start(tasks, state.Current());
      while i < |all|
        invariant i <= |all| && AllValid(all)
        invariant var p := Progress(all, i, state.Current(), calls, successful, failed, skipped, retryQueue);
                  MainLoop(cfg, outcome, p) == MainLoop(cfg, outcome, start)
        invariant state.persisted == Some(state.Current()) || (state.persisted == old(state.persisted) && state.Current() == old(state.Current()))
        decreases Remaining(Progress(all, i, state.Current(), calls, successful, failed, skipped, retryQueue))
      {
        ghost var p := Progress(all, i, state.Current(), calls, successful, failed, skipped, retryQueue);
        StepShrinks(cfg, outcome, p);
        all, calls, successful, failed, skipped, retryQueue :=
          Visit(cfg, outcome, all, i, calls, successful, failed, skipped, retryQueue);
        i := i + 1;
      }
      ghost var afterLoop := Progress(all, i, state.Current(), calls, successful, failed, skipped, retryQueue);

      var attempt := 1;
      while attempt <= MAX_RETRIES && retryQueue != []
        invariant 1 <= attempt <= MAX_RETRIES + 1
        invariant var p := Progress(all, i, state.Current(), calls, successful, failed, skipped, retryQueue);
                  Retries(outcome, p, MAX_RETRIES + 1 - attempt) == Retries(outcome, afterLoop, MAX_RETRIES)
        invariant state.persisted == Some(state.Current()) || (state.persisted == old(state.persisted) && state.Current() == old(state.Current()))
        decreases MAX_RETRIES + 1 - attempt
      {
        calls, successful, failed, retryQueue :=
          RetryAll(outcome, all, i, calls, successful, failed, skipped, retryQueue);
        attempt := attempt + 1;
      }
      total := |all|;
      exitCode := RunExit(qaPassed, failed, total);
    }

    /** One iteration of the main loop of `run()`: visit `tasks[i]`. */
    method Visit(cfg: Config, outcome: nat -> Outcome, tasks: seq<Task>, i: nat, calls: nat,
                 successful: int, failed: int, skipped: int, retryQueue: seq<Task>)
      returns (tasks': seq<Task>, calls': nat, successful': int, failed': int, skipped': int, retryQueue': seq<Task>)
      requires i < |tasks|
      modifies state
      ensures Progress(tasks', i + 1, state.Current(), calls', successful', failed', skipped', retryQueue') ==
              MainStep(cfg, outcome, Progress(tasks, i, old(state.Current()), calls, successful, failed, skipped, retryQueue))
      ensures state.persisted == Some(state.Current()) || (state.persisted == old(state.persisted) && state.Current() == old(state.Current()))
    {
      var task := tasks[i];
      var status := state.Status(task.key);
      tasks', calls', successful', failed', skipped', retryQueue' := tasks, calls, successful, failed, skipped, retryQueue;
      if status == "ok" {
        successful' := successful + 1;
      } else if status == "skipped" {
        skipped' := skipped + 1;
      } else {
        var o := outcome(calls);
        tasks', successful', failed', skipped', retryQueue' :=
          RecordResult(cfg, o, task, tasks, i + 1, calls + 1, successful, failed, skipped, retryQueue);
        calls' := calls + 1;
      }
    }

    /** Record the result `o` of executing `task`, as the main loop does. */
    method RecordResult(cfg: Config, o: Outcome, task: Task, tasks: seq<Task>, ghost next: nat, ghost calls: nat,
                        successful: int, failed: int, skipped: int, retryQueue: seq<Task>)
      returns (tasks': seq<Task>, successful': int, failed': int, skipped': int, retryQueue': seq<Task>)
      modifies state
      ensures Progress(tasks', next, state.Current(), calls, successful', failed', skipped', retryQueue') ==
              Executed(cfg, o, task, Progress(tasks, next, old(state.Current()), calls, successful, failed, skipped, retryQueue))
      ensures state.persisted == Some(state.Current())
    {
      tasks', successful', failed', skipped', retryQueue' := tasks, successful, failed, skipped, retryQueue;
      ghost var ran := Progress(tasks, next, state.Current(), calls, successful, failed, skipped, retryQueue);
      var status: string;
      if o == Succeeded {
        status := "ok";
        successful' := successful + 1;
      } else if o == TimedOut && cfg.bisectionOnTimeout {
        var children := HandleTimeout(cfg, task);
        if |children| > 0 {
          tasks' := tasks + children;
          status := "bisected";
        } else {
          status := "failed";
          failed' := failed + 1;
        }
      } else if o == NoRids {
        status := "skipped";
        skipped' := skipped + 1;
      } else {
        if !cfg.failFast {
          retryQueue' := retryQueue + [task];
        }
        status := "failed";
        failed' := failed + 1;
      }
      Store(task.key, status, o);
    }

    /** `set_slice_status(key, status, result)` with the result of outcome `o`. */
    method Store(key: string, status: string, o: Outcome)
      modifies state
      ensures state.Current() == Record(old(state.Current()), key, status, o)
      ensures state.persisted == Some(state.Current())
    {
      state.SetStatus(key, status, ResultInfo(o));
    }

    /** One retry pass: execute every queued task again and keep the ones that fail. */
    method RetryAll(outcome: nat -> Outcome, tasks: seq<Task>, next: nat, calls: nat,
                    successful: int, failed: int, skipped: int, queue: seq<Task>)
      returns (calls': nat, successful': int, failed': int, kept: seq<Task>)
      modifies state
      ensures Progress(tasks, next, state.Current(), calls', successful', failed', skipped, kept) ==
              RetryPass(outcome, Progress(tasks, next, old(state.Current()), calls, successful, failed, skipped, queue), queue, [])
      ensures state.persisted == Some(state.Current()) || (state.persisted == old(state.persisted) && state.Current() == old(state.Current()))
    {
      ghost var before := Progress(tasks, next, state.Current(), calls, successful, failed, skipped, queue);
      calls', successful', failed', kept := calls, successful, failed, [];
      for j := 0 to |queue|
        invariant var p := Progress(tasks, next, state.Current(), calls', successful', failed', skipped, queue);
                  RetryPass(outcome, p, queue[j..], kept) == RetryPass(outcome, before, queue, [])
        invariant state.persisted == Some(state.Current()) || (state.persisted == old(state.persisted) && state.Current() == old(state.Current()))
      {
        var task := queue[j];
        var o := outcome(calls');
        calls' := calls' + 1;
        if o == Succeeded {
          state.SetStatus(task.key, "ok", ResultInfo(o));
          successful', failed' := successful' + 1, failed' - 1;
        } else {
          kept := kept + [task];
        }
        assert queue[j..][1..] == queue[j + 1..];
      }
      assert queue[|queue|..] == [];
    }

    /**
      `run(plan_only=True)`: record the task count in the run metadata and
      mark every task `pending`; each mark rewrites the state file.
    */
    method PlanOnly(tasks: seq<Task>)
      modifies state
      ensures state.slices == MarkPending(old(state.slices), tasks)
      ensures state.sliceMetadata == old(state.sliceMetadata)
      ensures state.plannedTasks == Some(|tasks|)
      ensures state.persisted == if tasks == [] then old(state.persisted) else Some(state.Current())
    {
      state.SetPlannedTasks(|tasks|);
      for k := 0 to |tasks|
        invariant state.slices == MarkPending(old(state.slices), tasks[..k])
        invariant state.sliceMetadata == old(state.sliceMetadata) && state.plannedTasks == Some(|tasks|)
        invariant state.persisted == if k == 0 then old(state.persisted) else Some(state.Current())
      {
        state.SetStatus(tasks[k].key, PENDING, map[]);
        assert tasks[..k + 1][..k] == tasks[..k];
      }
      assert tasks[..|tasks|] == tasks;
    }
  }

  /** The slices map after marking each task's key `pending` in order. */
  function MarkPending(slices: map<string, string>, tasks: seq<Task>): map<string, string> {
    if tasks == [] then slices
    else MarkPending(slices, tasks[..|tasks| - 1])[tasks[|tasks| - 1].key := PENDING]
  }

  /** After a plan-only run every planned key reads `pending` and every other key is unchanged. */
  lemma {:induction false} MarkPendingFacts(slices: map<string, string>, tasks: seq<Task>, key: string)
    ensures (exists t :: t in tasks && t.key == key) ==> StatusIn(MarkPending(slices, tasks), key) == PENDING
    ensures (forall t :: t in tasks ==> t.key != key) ==> StatusIn(MarkPending(slices, tasks), key) == StatusIn(slices, key)
  {
    if tasks != [] {
      var n := |tasks| - 1;
      MarkPendingFacts(slices, tasks[..n], key);
      if tasks[n].key != key {
        assert forall t :: t in tasks[..n] ==> t in tasks;
        if exists t :: t in tasks && t.key == key {
          var t :| t in tasks && t.key == key;
          assert t in tasks[..n] by {
            var m :| 0 <= m < |tasks| && tasks[m] == t;
            assert m < n;
            assert tasks[..n][m] == t;
          }
        }
      }
    }
  }
}
