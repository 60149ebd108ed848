/**
  Scheduling and executing jobs (src/wasm_runtime/job.rs, job_executor.rs, job_scheduler.rs).

  Tasks, the scheduler's own checks and cancellations all read a whole job record and write it
  back later, with nothing to keep others out in between.  Each step below is one such read or
  write, so a run is any interleaving of them.  Clocks and failures are free choices.
 */
module JobScheduler {
  type JobId = nat
  type TaskId = nat

  datatype JobStatus = Pending | Running | Completed | Failed | Cancelled | TimedOut | Expired

  datatype Record = Record(status: JobStatus, retryCount: nat, maxRetries: nat)

  predicate CanRetry(r: Record) {
    (r.status == Failed || r.status == TimedOut) && r.retryCount < r.maxRetries
  }

  predicate IsTerminal(r: Record) {
    r.status !in {Pending, Running} && !CanRetry(r)
  }

  datatype Result = Succeeded | Errored | RanOutOfTime

  /** The record an executor writes back, from the copy it has held since it started. */
  function Concluded(copy: Record, result: Result): (r: Record)
    ensures r.maxRetries == copy.maxRetries
    ensures r.status == Pending <==> result != Succeeded && copy.retryCount < copy.maxRetries
    ensures r.retryCount == copy.retryCount + if r.status == Pending then 1 else 0
    ensures r.status == Completed <==> result == Succeeded
    ensures r.status == Failed <==> result == Errored && copy.retryCount >= copy.maxRetries
    ensures r.status == TimedOut <==> result == RanOutOfTime && copy.retryCount >= copy.maxRetries
  {
    match result
    case Succeeded => copy.(status := Completed)
    case _ =>
      var ended := copy.(status := if result == Errored then Failed else TimedOut);
      if CanRetry(ended) then ended.(retryCount := ended.retryCount + 1, status := Pending) else ended
  }

  /** Where a spawned task is in `execute_job` and what follows it. */
  datatype Phase =
    | Spawned
    | Claimed
    | Holding(copy: Record)
    | Working(copy: Record)
    | Leaving(ok: bool)
    | Failing
    | Blaming(copy: Record)
    | Ended

  datatype Task = Task(job: JobId, phase: Phase)

  /** Reads that will be followed by a write: the scheduler's checks, and cancellation. */
  datatype Writer = ForceTimeout | Expire | Cancel

  datatype System = System(
    maxConcurrent: nat,
    store: map<JobId, Record>,
    active: set<JobId>,
    tasks: map<TaskId, Task>,
    nextTask: TaskId,
    queue: seq<JobId>,
    runningCount: nat,
    slots: nat,                         // still to fill in the current cycle
    prepared: seq<(JobId, Record)>,     // writes that are still to come
    starts: map<JobId, nat>)            // how often each job was started

  datatype Step =
    | Insert(job: JobId, status: JobStatus, maxRetries: nat)
    | Enqueue(job: JobId, unlessThere: bool)
    | Unqueue(job: JobId)
    | BeginCycle
    | Spawn
    | EndCycle
    | Claim(task: TaskId)
    | Read(task: TaskId)
    | Start(task: TaskId, stored: bool)
    | Finish(task: TaskId, result: Result)
    | Abort(task: TaskId)
    | Release(task: TaskId)
    | ReadForBlame(task: TaskId)
    | Blame(task: TaskId, stored: bool)
    | Exit(task: TaskId)
    | Prepare(writer: Writer, job: JobId)
    | Commit(index: nat)

  /** The record a check or a cancellation will write, if the one it reads qualifies. */
  function Rewritten(writer: Writer, r: Record): (w: Record)
    ensures w.status != Pending && w.retryCount == r.retryCount && w.maxRetries == r.maxRetries
    ensures w.status == TimedOut <==> writer == ForceTimeout
    ensures w.status == Expired <==> writer == Expire
    ensures w.status == Cancelled <==> writer == Cancel
  {
    match writer
    case ForceTimeout => r.(status := TimedOut)
    case Expire => r.(status := Expired)
    case Cancel => r.(status := Cancelled)
  }

  predicate Qualifies(writer: Writer, r: Record) {
    match writer
    case ForceTimeout => r.status == Running
    case Expire => r.status == Pending
    case Cancel => !IsTerminal(r)
  }

  predicate Enabled(s: System, step: Step) {
    match step
    case Insert(id, _, _) => id !in s.store
    case Enqueue(_, _) => true
    case Unqueue(_) => true
    case BeginCycle => s.slots == 0
    case Spawn => s.slots > 0 && s.queue != []
    case EndCycle => true
    case Claim(t) => t in s.tasks && s.tasks[t].phase.Spawned?
    case Read(t) => t in s.tasks && s.tasks[t].phase.Claimed?
    case Start(t, _) => t in s.tasks && s.tasks[t].phase.Holding?
    case Finish(t, _) => t in s.tasks && s.tasks[t].phase.Working?
    case Abort(t) => t in s.tasks && s.tasks[t].phase.Working?
    case Release(t) => t in s.tasks && s.tasks[t].phase.Leaving?
    case ReadForBlame(t) => t in s.tasks && s.tasks[t].phase.Failing?
    case Blame(t, _) => t in s.tasks && s.tasks[t].phase.Blaming?
    case Exit(t) => t in s.tasks && s.tasks[t].phase.Ended?
    case Prepare(w, id) => id in s.store && Qualifies(w, s.store[id])
    case Commit(i) => i < |s.prepared|
  }

  function Moved(s: System, t: TaskId, phase: Phase): (s': System)
    requires t in s.tasks
  {
    s.(tasks := s.tasks[t := s.tasks[t].(phase := phase)])
  }

  function Starts(starts: map<JobId, nat>, id: JobId): (n: nat) {
    if id in starts then starts[id] else 0
  }

  function Next(s: System, step: Step): (s': System)
    requires Enabled(s, step)
  {
    match step
    case Insert(id, status, max) => s.(store := s.store[id := Record(status, 0, max)])
    case Enqueue(id, unlessThere) => if unlessThere && id in s.queue then s else s.(queue := s.queue + [id])
    case Unqueue(id) => s.(queue := Without(s.queue, id))
    case BeginCycle => s.(slots := if s.runningCount < s.maxConcurrent then s.maxConcurrent - s.runningCount else 0)
    case Spawn =>
      s.(queue := s.queue[1..], slots := s.slots - 1, runningCount := s.runningCount + 1,
         nextTask := s.nextTask + 1, tasks := s.tasks[s.nextTask := Task(s.queue[0], Spawned)])
    case EndCycle => s.(slots := 0)
    case Claim(t) =>
      if s.tasks[t].job in s.active then Moved(s, t, Failing)
      else Moved(s, t, Claimed).(active := s.active + {s.tasks[t].job})
    case Read(t) =>
      var id := s.tasks[t].job;
      if id in s.store && s.store[id].status == Pending then Moved(s, t, Holding(s.store[id])) else Moved(s, t, Leaving(false))
    case Start(t, stored) =>
      var id, copy := s.tasks[t].job, s.tasks[t].phase.copy;
      if stored then
        Moved(s, t, Working(copy.(status := Running))).(store := s.store[id := copy.(status := Running)],
                                                         starts := s.starts[id := Starts(s.starts, id) + 1])
      else Moved(s, t, Leaving(false))
    case Finish(t, result) =>
      Moved(s, t, Leaving(true)).(store := s.store[s.tasks[t].job := Concluded(s.tasks[t].phase.copy, result)])
    case Abort(t) => Moved(s, t, Leaving(false))
    case Release(t) =>
      Moved(s, t, if s.tasks[t].phase.ok then Ended else Failing).(active := s.active - {s.tasks[t].job})
    case ReadForBlame(t) =>
      var id := s.tasks[t].job;
      if id in s.store then Moved(s, t, Blaming(s.store[id])) else Moved(s, t, Ended)
    case Blame(t, stored) =>
      if stored then Moved(s, t, Ended).(store := s.store[s.tasks[t].job := s.tasks[t].phase.copy.(status := Failed)])
      else Moved(s, t, Ended)
    case Exit(t) => s.(tasks := s.tasks - {t}, runningCount := if s.runningCount > 0 then s.runningCount - 1 else 0)
    case Prepare(w, id) => s.(prepared := s.prepared + [(id, Rewritten(w, s.store[id]))])
    case Commit(i) =>
      s.(store := s.store[s.prepared[i].0 := s.prepared[i].1], prepared := s.prepared[..i] + s.prepared[i + 1..])
  }

  function Without(queue: seq<JobId>, id: JobId): (r: seq<JobId>)
    ensures forall x :: x in r <==> x in queue && x != id
  {
    if queue == [] then []
    else if queue[0] == id then Without(queue[1..], id)
    else [queue[0]] + Without(queue[1..], id)
  }

  // ------------------------------------------------------------------------------------------
  // The invariant
  // ------------------------------------------------------------------------------------------

  /** A task between claiming its job and releasing it. */
  predicate Inside(task: Task) {
    task.phase.Claimed? || task.phase.Holding? || task.phase.Working? || task.phase.Leaving?
  }

  /** A record of a job: its retry bound is the stored one, and its count is within it. */
  ghost predicate RecordOf(store: map<JobId, Record>, id: JobId, r: Record) {
    id in store && r.maxRetries == store[id].maxRetries && r.retryCount <= r.maxRetries
  }

  /** A stored record: while the job is pending its count is the number of its starts. */
  ghost predicate StoredOk(store: map<JobId, Record>, starts: map<JobId, nat>, id: JobId) {
    && id in store && RecordOf(store, id, store[id])
    && (store[id].status == Pending ==> store[id].retryCount == Starts(starts, id))
    && Starts(starts, id) <= store[id].maxRetries + 1
  }

  ghost predicate TaskOk(store: map<JobId, Record>, starts: map<JobId, nat>, active: set<JobId>, task: Task) {
    && (Inside(task) ==> task.job in active)
    && (task.phase.Holding? ==> var copy := task.phase.copy;
                                RecordOf(store, task.job, copy) && copy.retryCount == Starts(starts, task.job))
    && (task.phase.Working? ==> var copy := task.phase.copy;
                                && RecordOf(store, task.job, copy) && copy.retryCount + 1 == Starts(starts, task.job)
                                && store[task.job].status != Pending)
    && (task.phase.Blaming? ==> RecordOf(store, task.job, task.phase.copy))
  }

  ghost predicate PreparedOk(store: map<JobId, Record>, w: (JobId, Record)) {
    RecordOf(store, w.0, w.1) && w.1.status != Pending
  }

  ghost predicate Exclusive(tasks: map<TaskId, Task>) {
    forall t, u :: t in tasks && u in tasks && Inside(tasks[t]) && Inside(tasks[u]) && tasks[t].job == tasks[u].job ==> t == u
  }

  ghost predicate SlotsOk(s: System) {
    && s.runningCount == |s.tasks| && |s.tasks| + s.slots <= s.maxConcurrent
    && forall t :: t in s.tasks ==> t < s.nextTask
  }

  ghost predicate Inv(s: System) {
    && SlotsOk(s)
    && Exclusive(s.tasks)
    && (forall id :: id in s.store ==> StoredOk(s.store, s.starts, id))
    && (forall id :: id in s.starts ==> id in s.store)
    && (forall t :: t in s.tasks ==> TaskOk(s.store, s.starts, s.active, s.tasks[t]))
    && (forall i :: 0 <= i < |s.prepared| ==> PreparedOk(s.store, s.prepared[i]))
  }

  function Initial(maxConcurrent: nat): (s: System) {
    System(maxConcurrent, map[], {}, map[], 0, [], 0, 0, [], map[])
  }

  // ------------------------------------------------------------------------------------------
  // Every step keeps it
  // ------------------------------------------------------------------------------------------

  lemma SameSize(tasks: map<TaskId, Task>, t: TaskId, task: Task)
    requires t in tasks
    ensures |tasks[t := task]| == |tasks|
  {
  }

  /** Writing a record that is not pending, under a job no one is about to start from it. */
  lemma StoreKeeps(s: System, id: JobId, r: Record)
    requires Inv(s) && RecordOf(s.store, id, r) && r.status != Pending
    ensures Inv(s.(store := s.store[id := r]))
  {
  }

  /** A task moves on, without writing, to a phase its invariant allows, and does not enter. */
  lemma MoveKeeps(s: System, t: TaskId, phase: Phase)
    requires Inv(s) && t in s.tasks && TaskOk(s.store, s.starts, s.active, s.tasks[t].(phase := phase))
    requires Inside(s.tasks[t].(phase := phase)) ==> Inside(s.tasks[t])
    ensures Inv(Moved(s, t, phase))
  {
  }

  lemma ClaimKeeps(s: System, t: TaskId)
    requires Inv(s) && Enabled(s, Claim(t))
    ensures Inv(Next(s, Claim(t)))
  {
    var id := s.tasks[t].job;
    if id in s.active {
      MoveKeeps(s, t, Failing);
    } else {
      var s' := Next(s, Claim(t));
      SameSize(s.tasks, t, s'.tasks[t]);
      forall u | u in s'.tasks
        ensures TaskOk(s'.store, s'.starts, s'.active, s'.tasks[u])
        ensures u != t && s'.tasks[u].job == id ==> !Inside(s'.tasks[u])
      {
        if u != t { assert TaskOk(s.store, s.starts, s.active, s.tasks[u]); }
      }
    }
  }

  lemma ReleaseKeeps(s: System, t: TaskId)
    requires Inv(s) && Enabled(s, Release(t))
    ensures Inv(Next(s, Release(t)))
  {
    var s' := Next(s, Release(t));
    SameSize(s.tasks, t, s'.tasks[t]);
    forall u | u in s'.tasks
      ensures TaskOk(s'.store, s'.starts, s'.active, s'.tasks[u])
    {
      if u != t { assert TaskOk(s.store, s.starts, s.active, s.tasks[u]); }
    }
  }

  lemma StartKeeps(s: System, t: TaskId)
    requires Inv(s) && Enabled(s, Start(t, true))
    ensures Inv(Next(s, Start(t, true)))
  {
    var s', id := Next(s, Start(t, true)), s.tasks[t].job;
    SameSize(s.tasks, t, s'.tasks[t]);
    assert TaskOk(s.store, s.starts, s.active, s.tasks[t]) && StoredOk(s.store, s.starts, id);
    forall j | j in s'.store
      ensures StoredOk(s'.store, s'.starts, j)
    {
      assert StoredOk(s.store, s.starts, j);
    }
    forall u | u in s'.tasks
      ensures TaskOk(s'.store, s'.starts, s'.active, s'.tasks[u])
    {
      assert TaskOk(s.store, s.starts, s.active, s.tasks[u]);
    }
    forall i | 0 <= i < |s'.prepared|
      ensures PreparedOk(s'.store, s'.prepared[i])
    {
      assert PreparedOk(s.store, s.prepared[i]);
    }
  }

  lemma FinishKeeps(s: System, t: TaskId, result: Result)
    requires Inv(s) && Enabled(s, Finish(t, result))
    ensures Inv(Next(s, Finish(t, result)))
  {
    var s', id := Next(s, Finish(t, result)), s.tasks[t].job;
    SameSize(s.tasks, t, s'.tasks[t]);
    assert TaskOk(s.store, s.starts, s.active, s.tasks[t]) && StoredOk(s.store, s.starts, id);
    forall j | j in s'.store
      ensures StoredOk(s'.store, s'.starts, j)
    {
      assert StoredOk(s.store, s.starts, j);
    }
    forall u | u in s'.tasks
      ensures TaskOk(s'.store, s'.starts, s'.active, s'.tasks[u])
    {
      assert TaskOk(s.store, s.starts, s.active, s.tasks[u]);
    }
    forall i | 0 <= i < |s'.prepared|
      ensures PreparedOk(s'.store, s'.prepared[i])
    {
      assert PreparedOk(s.store, s.prepared[i]);
    }
  }

  lemma InsertKeeps(s: System, id: JobId, status: JobStatus, maxRetries: nat)
    requires Inv(s) && id !in s.store
    ensures Inv(Next(s, Insert(id, status, maxRetries)))
  {
    var s' := Next(s, Insert(id, status, maxRetries));
    forall j | j in s'.store
      ensures StoredOk(s'.store, s'.starts, j)
    {
      if j != id { assert StoredOk(s.store, s.starts, j); }
    }
    forall u | u in s'.tasks
      ensures TaskOk(s'.store, s'.starts, s'.active, s'.tasks[u])
    {
      assert TaskOk(s.store, s.starts, s.active, s.tasks[u]);
    }
    forall i | 0 <= i < |s'.prepared|
      ensures PreparedOk(s'.store, s'.prepared[i])
    {
      assert PreparedOk(s.store, s.prepared[i]);
    }
  }

  lemma SpawnSlots(s: System)
    requires SlotsOk(s) && Enabled(s, Spawn)
    ensures SlotsOk(Next(s, Spawn)) && s.nextTask !in s.tasks
  {
  }

  lemma TasksKept(s: System, tasks: map<TaskId, Task>)
    requires Inv(s)
    requires forall u :: u in tasks ==> TaskOk(s.store, s.starts, s.active, tasks[u])
    requires forall u :: u in tasks && Inside(tasks[u]) ==> u in s.tasks && s.tasks[u] == tasks[u]
    ensures Exclusive(tasks)
  {
  }

  lemma SpawnKeeps(s: System)
    requires Inv(s) && Enabled(s, Spawn)
    ensures Inv(Next(s, Spawn))
  {
    var s' := Next(s, Spawn);
    SpawnSlots(s);
    forall u | u in s'.tasks
      ensures TaskOk(s.store, s.starts, s.active, s'.tasks[u])
    {
      if u != s.nextTask { assert TaskOk(s.store, s.starts, s.active, s.tasks[u]); }
    }
    TasksKept(s, s'.tasks);
  }

  lemma ExitKeeps(s: System, t: TaskId)
    requires Inv(s) && Enabled(s, Exit(t))
    ensures Inv(Next(s, Exit(t)))
  {
  }

  lemma ReadKeeps(s: System, t: TaskId)
    requires Inv(s) && Enabled(s, Read(t))
    ensures Inv(Next(s, Read(t)))
  {
    var id := s.tasks[t].job;
    assert TaskOk(s.store, s.starts, s.active, s.tasks[t]);
    if id in s.store && s.store[id].status == Pending {
      assert StoredOk(s.store, s.starts, id);
      MoveKeeps(s, t, Holding(s.store[id]));
    } else {
      MoveKeeps(s, t, Leaving(false));
    }
  }

  lemma BlameKeeps(s: System, t: TaskId, stored: bool)
    requires Inv(s) && Enabled(s, Blame(t, stored))
    ensures Inv(Next(s, Blame(t, stored)))
  {
    assert TaskOk(s.store, s.starts, s.active, s.tasks[t]);
    MoveKeeps(s, t, Ended);
    if stored {
      StoreKeeps(Moved(s, t, Ended), s.tasks[t].job, s.tasks[t].phase.copy.(status := Failed));
    }
  }

  lemma ReadForBlameKeeps(s: System, t: TaskId)
    requires Inv(s) && Enabled(s, ReadForBlame(t))
    ensures Inv(Next(s, ReadForBlame(t)))
  {
    var id := s.tasks[t].job;
    if id in s.store {
      assert StoredOk(s.store, s.starts, id);
      MoveKeeps(s, t, Blaming(s.store[id]));
    } else {
      MoveKeeps(s, t, Ended);
    }
  }

  lemma PrepareKeeps(s: System, w: Writer, id: JobId)
    requires Inv(s) && Enabled(s, Prepare(w, id))
    ensures Inv(Next(s, Prepare(w, id)))
  {
  }

  lemma DropPrepared(s: System, i: nat)
    requires Inv(s) && i < |s.prepared|
    ensures Inv(s.(prepared := s.prepared[..i] + s.prepared[i + 1..]))
  {
  }

  lemma CommitKeeps(s: System, i: nat)
    requires Inv(s) && Enabled(s, Commit(i))
    ensures Inv(Next(s, Commit(i)))
  {
    assert PreparedOk(s.store, s.prepared[i]);
    DropPrepared(s, i);
    StoreKeeps(s.(prepared := s.prepared[..i] + s.prepared[i + 1..]), s.prepared[i].0, s.prepared[i].1);
  }

  lemma StepKeepsInv(s: System, step: Step)
    requires Inv(s) && Enabled(s, step)
    ensures Inv(Next(s, step))
  {
    match step
    case Insert(id, status, max) => InsertKeeps(s, id, status, max);
    case Spawn => SpawnKeeps(s);
    case Claim(t) => ClaimKeeps(s, t);
    case Read(t) => ReadKeeps(s, t);
    case Start(t, stored) =>
      if stored { StartKeeps(s, t); } else { LeaveKeeps(s, t); }
    case Finish(t, result) => FinishKeeps(s, t, result);
    case Abort(t) => LeaveKeeps(s, t);
    case Release(t) => ReleaseKeeps(s, t);
    case ReadForBlame(t) => ReadForBlameKeeps(s, t);
    case Blame(t, stored) => BlameKeeps(s, t, stored);
    case Exit(t) => ExitKeeps(s, t);
    case Prepare(w, id) => PrepareKeeps(s, w, id);
    case Commit(i) => CommitKeeps(s, i);
    case _ =>
  }

  lemma LeaveKeeps(s: System, t: TaskId)
    requires Inv(s) && t in s.tasks && Inside(s.tasks[t])
    ensures Inv(Moved(s, t, Leaving(false)))
  {
  }

  // ------------------------------------------------------------------------------------------
  // Runs
  // ------------------------------------------------------------------------------------------

  ghost predicate IsStep(s: System, s': System) {
    exists step :: Enabled(s, step) && s' == Next(s, step)
  }

  ghost predicate IsRun(run: seq<System>, maxConcurrent: nat) {
    && run != [] && run[0] == Initial(maxConcurrent)
    && forall i, j {:trigger IsStep(run[i], run[j])} :: 0 <= i && j == i + 1 && j < |run| ==> IsStep(run[i], run[j])
  }

  lemma {:induction false} EveryRunKeepsInv(run: seq<System>, maxConcurrent: nat, n: nat)
    requires IsRun(run, maxConcurrent) && n < |run|
    ensures Inv(run[n]) && run[n].maxConcurrent == maxConcurrent
  {
    if n > 0 {
      EveryRunKeepsInv(run, maxConcurrent, n - 1);
      StepKeeps(run[n - 1], run[n]);
    }
  }

  lemma StepKeeps(s: System, s': System)
    requires Inv(s) && IsStep(s, s')
    ensures Inv(s') && s'.maxConcurrent == s.maxConcurrent
  {
    var step :| Enabled(s, step) && s' == Next(s, step);
    StepKeepsInv(s, step);
    LimitKept(s, step);
  }

  lemma LimitKept(s: System, step: Step)
    requires Enabled(s, step)
    ensures Next(s, step).maxConcurrent == s.maxConcurrent
  {
  }

  /**
    In every interleaving: no job is started more than `max_retries + 1` times, its retry count
    stays within `max_retries` and is, while it is pending, the number of its starts; no two tasks
    hold one job; and no more than `max_concurrent` tasks are alive.
   */
  lemma SchedulingIsBounded(run: seq<System>, maxConcurrent: nat, n: nat, id: JobId, t: TaskId, u: TaskId)
    requires IsRun(run, maxConcurrent) && n < |run|
    ensures var s := run[n];
            && |s.tasks| == s.runningCount <= maxConcurrent
            && (id in s.store ==>
                  && Starts(s.starts, id) <= s.store[id].maxRetries + 1
                  && s.store[id].retryCount <= s.store[id].maxRetries
                  && (s.store[id].status == Pending ==> s.store[id].retryCount == Starts(s.starts, id)))
            && (t in s.tasks && u in s.tasks && t != u && s.tasks[t].job == s.tasks[u].job ==>
                  !(s.tasks[t].phase.Working? && s.tasks[u].phase.Working?))
  {
    EveryRunKeepsInv(run, maxConcurrent, n);
    var s := run[n];
    if id in s.store { assert StoredOk(s.store, s.starts, id); }
  }

  predicate MayStart(task: Task, id: JobId) {
    task.job == id && (task.phase.Holding? || task.phase.Working?)
  }

  /** Nobody holds a copy of the job from which it could be started or made pending. */
  ghost predicate LetGo(s: System, id: JobId) {
    && id in s.store && s.store[id].status != Pending
    && forall t :: t in s.tasks ==> !MayStart(s.tasks[t], id)
  }

  lemma LetGoRecord(s: System, step: Step, id: JobId)
    requires Inv(s) && Enabled(s, step) && LetGo(s, id)
    ensures var s' := Next(s, step);
            id in s'.store && s'.store[id].status != Pending && Starts(s'.starts, id) == Starts(s.starts, id)
  {
    if step.Commit? { assert PreparedOk(s.store, s.prepared[step.index]); }
  }

  lemma LetGoTasks(s: System, step: Step, id: JobId, t: TaskId)
    requires Enabled(s, step) && LetGo(s, id) && t in Next(s, step).tasks
    ensures !MayStart(Next(s, step).tasks[t], id)
  {
    if t in s.tasks { assert !MayStart(s.tasks[t], id); }
  }

  /** A job that is no longer pending, and that no executor holds, is never started again. */
  lemma LetGoStays(s: System, step: Step, id: JobId)
    requires Inv(s) && Enabled(s, step) && LetGo(s, id)
    ensures LetGo(Next(s, step), id) && Starts(Next(s, step).starts, id) == Starts(s.starts, id)
  {
    LetGoRecord(s, step, id);
    forall t | t in Next(s, step).tasks
      ensures !MayStart(Next(s, step).tasks[t], id)
    {
      LetGoTasks(s, step, id, t);
    }
  }

  lemma StepLetsGo(s: System, s': System, id: JobId)
    requires Inv(s) && IsStep(s, s') && LetGo(s, id)
    ensures LetGo(s', id) && Starts(s'.starts, id) == Starts(s.starts, id)
  {
    var step :| Enabled(s, step) && s' == Next(s, step);
    LetGoStays(s, step, id);
  }

  lemma EveryStepLetsGo(run: seq<System>, maxConcurrent: nat, n: nat, id: JobId)
    requires IsRun(run, maxConcurrent) && 0 < n < |run| && LetGo(run[n - 1], id)
    ensures LetGo(run[n], id) && Starts(run[n].starts, id) == Starts(run[n - 1].starts, id)
  {
    EveryRunKeepsInv(run, maxConcurrent, n - 1);
    StepLetsGo(run[n - 1], run[n], id);
  }

  lemma {:induction false} LetGoForever(run: seq<System>, maxConcurrent: nat, i: nat, j: nat, id: JobId)
    requires IsRun(run, maxConcurrent) && i <= j < |run| && LetGo(run[i], id)
    ensures LetGo(run[j], id) && Starts(run[j].starts, id) == Starts(run[i].starts, id)
    decreases j
  {
    if i < j {
      LetGoForever(run, maxConcurrent, i, j - 1, id);
      EveryStepLetsGo(run, maxConcurrent, j, id);
    }
  }

  /** A cycle fills all free places: live tasks and slots make up the limit. */
  lemma CycleFillsUp(s: System)
    requires Inv(s) && Enabled(s, BeginCycle)
    ensures var s' := Next(s, BeginCycle); |s'.tasks| + s'.slots == s'.maxConcurrent && s'.tasks == s.tasks
  {
  }

  /** Jobs are spawned in the order in which they were queued, and one that was taken out of the queue is not. */
  lemma QueueIsInOrder(s: System, id: JobId, unlessThere: bool)
    ensures Next(s, Enqueue(id, unlessThere)).queue == if unlessThere && id in s.queue then s.queue else s.queue + [id]
    ensures id !in Next(s, Unqueue(id)).queue && forall x :: x != id ==> (x in Next(s, Unqueue(id)).queue <==> x in s.queue)
    ensures Enabled(s, Spawn) ==> var s' := Next(s, Spawn); s.queue == [s'.tasks[s.nextTask].job] + s'.queue
  {
  }

  /** What becomes of a task that failed, with nobody in between: it reads the record and marks it failed. */
  lemma FailingTaskBlames(s: System, t: TaskId)
    requires Enabled(s, ReadForBlame(t)) && s.tasks[t].job in s.store
    ensures var read := Next(s, ReadForBlame(t));
            && Enabled(read, Blame(t, true))
            && var id, blamed := s.tasks[t].job, Next(read, Blame(t, true));
               && blamed.store == s.store[id := s.store[id].(status := Failed)]
               && blamed.tasks[t].phase == Ended && Enabled(blamed, Exit(t)) && t !in Next(blamed, Exit(t)).tasks
  {
  }

  /** An execution that breaks off writes nothing itself, and ends as a failing task. */
  lemma AbortedTaskFails(s: System, t: TaskId)
    requires Enabled(s, Abort(t))
    ensures var aborted := Next(s, Abort(t));
            && Enabled(aborted, Release(t))
            && var released := Next(aborted, Release(t));
               Enabled(released, ReadForBlame(t)) && released.store == s.store && released.active == s.active - {s.tasks[t].job}
  {
  }

  /** So does a task whose job is taken, no longer pending, or cannot be stored as running. */
  lemma LateTaskFails(s: System, t: TaskId)
    ensures Enabled(s, Claim(t)) && s.tasks[t].job in s.active ==>
              Enabled(Next(s, Claim(t)), ReadForBlame(t)) && Next(s, Claim(t)).store == s.store
    ensures Enabled(s, Read(t)) && (s.tasks[t].job in s.store ==> s.store[s.tasks[t].job].status != Pending) ==>
              Enabled(Next(s, Read(t)), Release(t)) && Enabled(Next(Next(s, Read(t)), Release(t)), ReadForBlame(t))
    ensures Enabled(s, Start(t, false)) ==>
              && Enabled(Next(s, Start(t, false)), Release(t)) && Enabled(Next(Next(s, Start(t, false)), Release(t)), ReadForBlame(t))
              && Next(s, Start(t, false)).store == s.store
  {
  }

  /** A task that wrote its result back just ends. */
  lemma FinishedTaskEnds(s: System, t: TaskId, result: Result)
    requires Enabled(s, Finish(t, result))
    ensures var finished := Next(s, Finish(t, result));
            && Enabled(finished, Release(t))
            && var released := Next(finished, Release(t));
               && released.tasks[t].phase == Ended && !Enabled(released, ReadForBlame(t))
               && released.store == s.store[s.tasks[t].job := Concluded(s.tasks[t].phase.copy, result)]
  {
  }

  // ------------------------------------------------------------------------------------------
  // Where a status comes from
  // ------------------------------------------------------------------------------------------

  /** The step is taken by a task of this job. */
  predicate OfJob(s: System, t: TaskId, id: JobId) {
    t in s.tasks && s.tasks[t].job == id
  }

  /** A step that can give a job a status; checks and cancellations do so when they read the record. */
  predicate Gives(s: System, step: Step, id: JobId, status: JobStatus) {
    match step
    case Insert(job, inserted, _) => job == id && inserted == status
    case Start(t, stored) => OfJob(s, t, id) && stored && status == Running
    case Finish(t, result) =>
      && OfJob(s, t, id)
      && (match result
          case Succeeded => status == Completed
          case Errored => status == Failed || status == Pending
          case RanOutOfTime => status == TimedOut || status == Pending)
    case Blame(t, stored) => OfJob(s, t, id) && stored && status == Failed
    case Prepare(writer, job) =>
      && job == id && id in s.store
      && (match writer
          case ForceTimeout => status == TimedOut && s.store[id].status == Running
          case Expire => status == Expired && s.store[id].status == Pending
          case Cancel => status == Cancelled && !IsTerminal(s.store[id]))
    case _ => false
  }

  ghost predicate GivenAt(s: System, s': System, id: JobId, status: JobStatus) {
    exists step :: Enabled(s, step) && s' == Next(s, step) && Gives(s, step, id, status)
  }

  ghost predicate GivenBefore(run: seq<System>, n: nat, id: JobId, status: JobStatus)
    requires n < |run|
  {
    exists i, j {:trigger GivenAt(run[i], run[j], id, status)} ::
      0 <= i < n && j == i + 1 && GivenAt(run[i], run[j], id, status)
  }

  ghost predicate AllGiven(run: seq<System>, n: nat)
    requires n < |run|
  {
    && (forall id :: id in run[n].store ==> GivenBefore(run, n, id, run[n].store[id].status))
    && (forall i :: 0 <= i < |run[n].prepared| ==> GivenBefore(run, n, run[n].prepared[i].0, run[n].prepared[i].1.status))
  }

  /** What a step writes into the store is what it gives, unless it commits what was prepared. */
  lemma StoredByStep(s: System, step: Step, id: JobId)
    requires Enabled(s, step) && id in Next(s, step).store
    ensures var s' := Next(s, step);
            || (id in s.store && s'.store[id] == s.store[id])
            || Gives(s, step, id, s'.store[id].status)
            || (step.Commit? && s.prepared[step.index] == (id, s'.store[id]))
  {
  }

  lemma PreparedByStep(s: System, step: Step, i: nat)
    requires Enabled(s, step) && i < |Next(s, step).prepared|
    ensures var w := Next(s, step).prepared[i]; w in s.prepared || Gives(s, step, w.0, w.1.status)
  {
  }

  lemma GivenLater(run: seq<System>, n: nat, id: JobId, status: JobStatus)
    requires 0 < n < |run| && GivenBefore(run, n - 1, id, status)
    ensures GivenBefore(run, n, id, status)
  {
    var i, j :| 0 <= i < n - 1 && j == i + 1 && GivenAt(run[i], run[j], id, status);
  }

  lemma GivenNow(run: seq<System>, n: nat, step: Step, id: JobId, status: JobStatus)
    requires 0 < n < |run| && Enabled(run[n - 1], step) && run[n] == Next(run[n - 1], step) && Gives(run[n - 1], step, id, status)
    ensures GivenBefore(run, n, id, status)
  {
    assert GivenAt(run[n - 1], run[n], id, status);
  }

  lemma StoreGiven(run: seq<System>, n: nat, step: Step, id: JobId)
    requires 0 < n < |run| && Enabled(run[n - 1], step) && run[n] == Next(run[n - 1], step)
    requires AllGiven(run, n - 1) && id in run[n].store
    ensures GivenBefore(run, n, id, run[n].store[id].status)
  {
    var s, status := run[n - 1], run[n].store[id].status;
    StoredByStep(s, step, id);
    if Gives(s, step, id, status) {
      GivenNow(run, n, step, id, status);
    } else {
      assert GivenBefore(run, n - 1, id, status);
      GivenLater(run, n, id, status);
    }
  }

  lemma PreparedGiven(run: seq<System>, n: nat, step: Step, i: nat)
    requires 0 < n < |run| && Enabled(run[n - 1], step) && run[n] == Next(run[n - 1], step)
    requires AllGiven(run, n - 1) && i < |run[n].prepared|
    ensures GivenBefore(run, n, run[n].prepared[i].0, run[n].prepared[i].1.status)
  {
    var s, w := run[n - 1], run[n].prepared[i];
    PreparedByStep(s, step, i);
    if w in s.prepared {
      GivenLater(run, n, w.0, w.1.status);
    } else {
      GivenNow(run, n, step, w.0, w.1.status);
    }
  }

  /**
    In every interleaving a status means what it says: a job is `Completed` only if a task of it
    succeeded, `Failed` only if one failed, `Cancelled`, `Expired` or forced to time out only if
    that was asked for while it was still open, pending or running, unless it was inserted so.
   */
  lemma {:induction false} StatusIsGiven(run: seq<System>, maxConcurrent: nat, n: nat)
    requires IsRun(run, maxConcurrent) && n < |run|
    ensures AllGiven(run, n)
  {
    if n > 0 {
      StatusIsGiven(run, maxConcurrent, n - 1);
      assert IsStep(run[n - 1], run[n]);
      var step :| Enabled(run[n - 1], step) && run[n] == Next(run[n - 1], step);
      forall id | id in run[n].store
        ensures GivenBefore(run, n, id, run[n].store[id].status)
      {
        StoreGiven(run, n, step, id);
      }
      forall i | 0 <= i < |run[n].prepared|
        ensures GivenBefore(run, n, run[n].prepared[i].0, run[n].prepared[i].1.status)
      {
        PreparedGiven(run, n, step, i);
      }
    }
  }

  /** Running jobs can be timed out, pending ones expire, and a job is cancelled while it waits, runs or has a retry left. */
  lemma WhoQualifies(r: Record)
    ensures Qualifies(ForceTimeout, r) <==> r.status == Running
    ensures Qualifies(Expire, r) <==> r.status == Pending
    ensures Qualifies(Cancel, r) <==>
              || r.status in {Pending, Running}
              || (r.status in {Failed, TimedOut} && Concluded(r, if r.status == Failed then Errored else RanOutOfTime).status == Pending)
  {
  }

  // ------------------------------------------------------------------------------------------
  // The bound is reached
  // ------------------------------------------------------------------------------------------

  lemma TakeStep(run: seq<System>, maxConcurrent: nat, step: Step) returns (run': seq<System>)
    requires IsRun(run, maxConcurrent) && Enabled(run[|run| - 1], step)
    ensures IsRun(run', maxConcurrent) && run'[|run'| - 1] == Next(run[|run| - 1], step)
  {
    run' := run + [Next(run[|run| - 1], step)];
    forall i, j | 0 <= i && j == i + 1 && j < |run'|
      ensures IsStep(run'[i], run'[j])
    {
      if j < |run| { assert IsStep(run[i], run[j]); }
    }
  }

  /** One job, pending after `k` starts; nothing else going on. */
  ghost predicate Waiting(s: System, k: nat, maxRetries: nat) {
    && s.maxConcurrent == 1 && s.store == map[0 := Record(Pending, k, maxRetries)] && s.active == {} && s.tasks == map[]
    && s.queue == [] && s.runningCount == 0 && s.slots == 0 && s.prepared == [] && Starts(s.starts, 0) == k
  }

  /** Task `t` is at work on the job, for the `k + 1`st time. */
  ghost predicate AtWork(s: System, t: TaskId, k: nat, maxRetries: nat) {
    && s.tasks == map[t := Task(0, Working(Record(Running, k, maxRetries)))] && s.active == {0}
    && s.store == map[0 := Record(Running, k, maxRetries)] && s.maxConcurrent == 1
    && s.queue == [] && s.runningCount == 1 && s.slots == 0 && s.prepared == [] && Starts(s.starts, 0) == k + 1
  }

  lemma StartAgain(run: seq<System>, k: nat, maxRetries: nat) returns (run': seq<System>, t: TaskId)
    requires IsRun(run, 1) && Waiting(run[|run| - 1], k, maxRetries)
    ensures IsRun(run', 1) && AtWork(run'[|run'| - 1], t, k, maxRetries)
  {
    t := run[|run| - 1].nextTask;
    run' := TakeStep(run, 1, Enqueue(0, true));
    run' := TakeStep(run', 1, BeginCycle);
    run' := TakeStep(run', 1, Spawn);
    run' := TakeStep(run', 1, Claim(t));
    run' := TakeStep(run', 1, Read(t));
    run' := TakeStep(run', 1, Start(t, true));
  }

  lemma FailAndRetry(run: seq<System>, t: TaskId, k: nat, maxRetries: nat) returns (run': seq<System>)
    requires IsRun(run, 1) && AtWork(run[|run| - 1], t, k, maxRetries) && k < maxRetries
    ensures IsRun(run', 1) && Waiting(run'[|run'| - 1], k + 1, maxRetries)
  {
    run' := TakeStep(run, 1, Finish(t, Errored));
    run' := TakeStep(run', 1, Release(t));
    run' := TakeStep(run', 1, Exit(t));
  }

  lemma {:induction false} WaitAgain(k: nat, maxRetries: nat) returns (run: seq<System>)
    requires k <= maxRetries
    ensures IsRun(run, 1) && Waiting(run[|run| - 1], k, maxRetries)
  {
    if k == 0 {
      run := TakeStep([Initial(1)], 1, Insert(0, Pending, maxRetries));
    } else {
      run := WaitAgain(k - 1, maxRetries);
      var t;
      run, t := StartAgain(run, k - 1, maxRetries);
      run := FailAndRetry(run, t, k - 1, maxRetries);
    }
  }

  /** For every retry bound there is a run that starts a job `max_retries + 1` times. */
  lemma BoundIsReached(maxRetries: nat) returns (run: seq<System>)
    ensures IsRun(run, 1)
    ensures var s := run[|run| - 1]; 0 in s.store && s.store[0].maxRetries == maxRetries && Starts(s.starts, 0) == maxRetries + 1
  {
    run := WaitAgain(maxRetries, maxRetries);
    var t;
    run, t := StartAgain(run, maxRetries, maxRetries);
  }
}
