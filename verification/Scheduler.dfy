/** The store of tasks this machine runs for its peers, as a value. Every
    public operation is one function on that value; the laws of the scheduler
    are proved about these functions, and the class IncomingTasks is proved to
    compute them. */
module Scheduler {
  import opened Tasks
  import opened Sequences

  /** A task waiting for a free slot, with the run parameters it was given. */
  datatype Parked = Parked(id: TaskId, timeoutSecs: nat)

  /** Live stdout and stderr of an execution. */
  datatype Sink = Sink(stdout: Bytes, stderr: Bytes)

  /** What the sandbox reports when the process is gone. */
  datatype SandboxResult =
    | Exited(exitCode: int, stdout: Bytes, stderr: Bytes, artifacts: seq<Artifact>)
    | Broken(message: Bytes)

  /** `issued` is the set of all identifiers ever handed out; it only serves to
      say that identifiers are unique. */
  datatype Store = Store(
    tasks: map<TaskId, Task>,
    pids: map<TaskId, nat>,
    sinks: map<TaskId, Sink>,
    starts: map<TaskId, nat>,
    timeouts: map<TaskId, nat>,
    pending: seq<Parked>,
    cap: nat,
    issued: set<TaskId>
  )

  datatype Refusal = EmptyCommand | NotFound | AlreadyOver | StillActive

  // ---------------------------------------------------------------------
  // Operations
  // ---------------------------------------------------------------------

  predicate HasStatus(s: Store, id: TaskId, status: Status) {
    id in s.tasks && s.tasks[id].status == status
  }

  function RunningIds(tasks: map<TaskId, Task>): set<TaskId> {
    set id | id in tasks && tasks[id].status == Running
  }

  function RunningCount(s: Store): nat {
    |RunningIds(s.tasks)|
  }

  function SpawnExecution(s: Store, id: TaskId, timeoutSecs: nat, now: nat): Store {
    if id !in s.tasks then s
    else s.(sinks := s.sinks[id := Sink([], [])],
            starts := s.starts[id := now],
            timeouts := s.timeouts[id := timeoutSecs],
            tasks := s.tasks[id := s.tasks[id].(status := Running)])
  }

  /** Pull one task from the queue if a slot is free; the flag says whether
      one was started. */
  function TryStartPending(s: Store, now: nat): (r: (Store, bool))
    ensures |r.0.pending| <= |s.pending|
    ensures r.1 ==> |r.0.pending| < |s.pending|
    decreases |s.pending|
  {
    if RunningCount(s) >= s.cap then (s, false)
    else if s.pending == [] then (s, false)
    else
      var p := s.pending[0];
      var rest := s.(pending := s.pending[1..]);
      if HasStatus(s, p.id, Queued)
      then (SpawnExecution(rest, p.id, p.timeoutSecs, now), true)
      else TryStartPending(rest, now)
  }

  /** Pull until nothing more can be started. */
  function StartAll(s: Store, now: nat): (s': Store)
    decreases |s.pending|
  {
    var (s', started) := TryStartPending(s, now);
    if started then StartAll(s', now) else s'
  }

  function SetMaxConcurrent(s: Store, n: nat, now: nat): Store {
    StartAll(s.(cap := if n < 1 then 1 else n), now)
  }

  /** Add a task under the fresh identifier id, then start it or park it. */
  function CreateAndRun(s: Store, id: TaskId, args: seq<string>, timeoutSecs: nat, now: nat): Result<Store, Refusal> {
    if args == [] then Err(EmptyCommand)
    else
      var added := s.(tasks := s.tasks[id := NewTask(args, now)], issued := s.issued + {id});
      if RunningCount(added) < added.cap
      then Ok(SpawnExecution(added, id, timeoutSecs, now))
      else Ok(added.(pending := added.pending + [Parked(id, timeoutSecs)]))
  }

  /** The record of a task whose process has just gone. */
  function Conclude(t: Task, result: SandboxResult, now: nat): Task {
    var cancelled := t.status == Cancelled;
    var t' := match result
      case Exited(code, out, err, artifacts) =>
        t.(output := out, errorOutput := err, exitCode := Some(code), artifacts := artifacts,
           status := if cancelled then Cancelled else if code == 0 then Completed else Failed)
      case Broken(message) =>
        if cancelled then t else t.(errorOutput := message, status := Failed);
    t'.(endedAt := Stamp(t'.endedAt, now))
  }

  /** The completion handler stores the result. */
  function WriteRecord(s: Store, id: TaskId, result: SandboxResult, now: nat): Store {
    s.(pids := s.pids - {id},
       tasks := if id in s.tasks then s.tasks[id := Conclude(s.tasks[id], result, now)] else s.tasks)
  }

  /** Then it takes the execution out of the live tables. */
  function DropTables(s: Store, id: TaskId): Store {
    s.(sinks := s.sinks - {id}, starts := s.starts - {id}, timeouts := s.timeouts - {id})
  }

  /** Everything the completion handler does before it pulls from the queue. */
  function Release(s: Store, id: TaskId, result: SandboxResult, now: nat): Store {
    DropTables(WriteRecord(s, id, result, now), id)
  }

  function Finish(s: Store, id: TaskId, result: SandboxResult, now: nat): Store {
    TryStartPending(Release(s, id, result, now), now).0
  }

  function Cancel(s: Store, id: TaskId, now: nat): Result<Store, Refusal> {
    if id !in s.tasks then Err(NotFound)
    else
      var t := s.tasks[id];
      if t.status.Terminal() then Err(AlreadyOver)
      else Ok(s.(tasks := s.tasks[id := t.(status := Cancelled, endedAt := Stamp(t.endedAt, now))]))
  }

  function RemoveFinished(s: Store, id: TaskId): Result<Store, Refusal> {
    if id !in s.tasks then Err(NotFound)
    else if !s.tasks[id].status.Terminal() then Err(StillActive)
    else Ok(s.(tasks := s.tasks - {id}))
  }

  /** A poll first copies the stored record. */
  function Clone(s: Store, id: TaskId): Option<Task> {
    if id in s.tasks then Some(s.tasks[id]) else None
  }

  /** Then it looks for live output and puts it over the stored one. */
  function Overlay(sinks: map<TaskId, Sink>, id: TaskId, t: Task): Task {
    if id in sinks then t.(output := sinks[id].stdout, errorOutput := sinks[id].stderr) else t
  }

  /** What a peer that polls sees when nothing happens in between: the stored
      record, with the live output while the execution lasts. */
  function Get(s: Store, id: TaskId): Option<Task> {
    match Clone(s, id)
    case None => None
    case Some(t) => Some(Overlay(s.sinks, id, t))
  }

  /** A saved record as the next start of the application reads it. */
  function Revive(t: Task, note: Bytes, now: nat): Task {
    if t.status.Terminal() then t
    else t.(status := Cancelled,
            endedAt := Stamp(t.endedAt, now),
            errorOutput := if t.errorOutput == [] then note else t.errorOutput)
  }

  const DEFAULT_MAX_CONCURRENT: nat := 4

  function Reload(saved: map<TaskId, Task>, issued: set<TaskId>, note: Bytes, now: nat): Store {
    Store(map id | id in saved :: Revive(saved[id], note, now),
          map[], map[], map[], map[], [], DEFAULT_MAX_CONCURRENT, issued + saved.Keys)
  }

  /** One atomic step of the store. Pid and Stream are the sandbox reporting
      its process number and appending output. */
  datatype Op =
    | Submit(id: TaskId, args: seq<string>, timeoutSecs: nat, now: nat)
    | SetMax(n: nat, now: nat)
    | CancelTask(id: TaskId, now: nat)
    | Remove(id: TaskId)
    | Exit(id: TaskId, result: SandboxResult, now: nat)
    | Pid(id: TaskId, pid: nat)
    | Stream(id: TaskId, out: Bytes, err: Bytes)

  /** Identifiers are fresh; only live executions exit, report or print. */
  predicate Enabled(s: Store, op: Op) {
    match op
    case Submit(id, _, _, _) => id !in s.issued
    case Exit(id, _, _) => id in s.sinks
    case Pid(id, _) => id in s.sinks
    case Stream(id, _, _) => id in s.sinks
    case _ => true
  }

  function OrElse(r: Result<Store, Refusal>, s: Store): Store {
    if r.Ok? then r.value else s
  }

  /** A refused operation leaves the store as it was. */
  function Apply(s: Store, op: Op): Store
    requires Enabled(s, op)
  {
    match op
    case Submit(id, args, timeoutSecs, now) => OrElse(CreateAndRun(s, id, args, timeoutSecs, now), s)
    case SetMax(n, now) => SetMaxConcurrent(s, n, now)
    case CancelTask(id, now) => OrElse(Cancel(s, id, now), s)
    case Remove(id) => OrElse(RemoveFinished(s, id), s)
    case Exit(id, result, now) => Finish(s, id, result, now)
    case Pid(id, pid) => s.(pids := s.pids[id := pid])
    case Stream(id, out, err) =>
      var live := s.sinks[id];
      s.(sinks := s.sinks[id := Sink(live.stdout + out, live.stderr + err)])
  }

  predicate ValidRun(s: Store, ops: seq<Op>)
    decreases |ops|
  {
    ops == [] || (Enabled(s, ops[0]) && ValidRun(Apply(s, ops[0]), ops[1..]))
  }

  function Run(s: Store, ops: seq<Op>): Store
    requires ValidRun(s, ops)
    decreases |ops|
  {
    if ops == [] then s else Run(Apply(s, ops[0]), ops[1..])
  }

  // ---------------------------------------------------------------------
  // The invariant
  // ---------------------------------------------------------------------

  predicate InQueue(queue: seq<Parked>, id: TaskId) {
    exists i :: 0 <= i < |queue| && queue[i].id == id
  }

  /** Some task is still waiting to be started. */
  predicate HasQueued(s: Store) {
    exists id :: id in s.tasks && s.tasks[id].status == Queued
  }

  predicate TaskFits(s: Store, id: TaskId)
    requires id in s.tasks
  {
    var t := s.tasks[id];
    && id in s.issued
    && (t.status == Running ==> id in s.sinks)
    && (t.status == Queued ==> InQueue(s.pending, id))
    && (id in s.sinks ==> t.status == Running || t.status == Cancelled)
    && (t.endedAt.Some? <==> t.status.Terminal())
  }

  predicate TablesFit(s: Store) {
    && s.cap >= 1
    && s.starts.Keys == s.sinks.Keys
    && s.timeouts.Keys == s.sinks.Keys
    && s.pids.Keys <= s.sinks.Keys
    && s.sinks.Keys <= s.issued
  }

  predicate QueueFits(s: Store) {
    && (forall i, j :: 0 <= i < j < |s.pending| ==> s.pending[i].id != s.pending[j].id)
    && (forall i :: 0 <= i < |s.pending| ==>
          && s.pending[i].id in s.issued
          && s.pending[i].id !in s.sinks
          && (s.pending[i].id in s.tasks ==>
                s.tasks[s.pending[i].id].status == Queued || s.tasks[s.pending[i].id].status == Cancelled))
  }

  predicate TasksFit(s: Store) {
    forall id :: id in s.tasks ==> TaskFits(s, id)
  }

  /** The live tables have one domain that contains every Running task, each
      waiting task is parked exactly once, and the stamps match the statuses. */
  predicate Consistent(s: Store) {
    TablesFit(s) && QueueFits(s) && TasksFit(s)
  }

  /** A task waits only while as many executions are alive as the cap allows. */
  predicate WorkConserving(s: Store) {
    HasQueued(s) ==> |s.sinks| >= s.cap
  }

  predicate Inv(s: Store) {
    Consistent(s) && WorkConserving(s)
  }

  /** Running tasks are among the live executions. */
  lemma RunningAreLive(s: Store)
    requires Consistent(s)
    ensures RunningIds(s.tasks) <= s.sinks.Keys
    ensures RunningCount(s) <= |s.sinks|
  {
    forall id | id in RunningIds(s.tasks)
      ensures id in s.sinks
    {
      assert TaskFits(s, id);
    }
    SubsetSize(RunningIds(s.tasks), s.sinks.Keys);
  }

  // ---------------------------------------------------------------------
  // Pulling from the queue
  // ---------------------------------------------------------------------

  predicate QueuedAt(s: Store, i: nat)
    requires i < |s.pending|
  {
    HasStatus(s, s.pending[i].id, Queued)
  }

  /** What one pull does, said without recursion: if a slot is free, the first
      entry that is still queued starts with its own timeout, everything ahead
      of it is dropped, and nothing else changes. */
  ghost predicate Pulled(s: Store, s': Store, started: bool, now: nat) {
    var k := |s.pending| - |s'.pending|;
    && 0 <= k && s'.pending == s.pending[k..]
    && (started <==> RunningCount(s) < s.cap && HasQueued(s))
    && (forall i :: 0 <= i < k && !(started && i == k - 1) ==> !QueuedAt(s, i))
    && (if started
        then k > 0 && QueuedAt(s, k - 1)
             && var p := s.pending[k - 1];
                s' == SpawnExecution(s, p.id, p.timeoutSecs, now).(pending := s.pending[k..])
        else s' == s.(pending := s.pending[k..])
             && (RunningCount(s) < s.cap ==> s'.pending == []))
  }

  lemma PulledNothing(s: Store, now: nat)
    requires Consistent(s) && (RunningCount(s) >= s.cap || s.pending == [])
    ensures Pulled(s, s, false, now)
  {
    if s.pending == [] {
      forall id | id in s.tasks
        ensures s.tasks[id].status != Queued
      {
        assert TaskFits(s, id);
      }
    }
  }

  lemma PulledHead(s: Store, now: nat)
    requires Consistent(s) && RunningCount(s) < s.cap && s.pending != [] && QueuedAt(s, 0)
    ensures var p := s.pending[0];
      var s' := SpawnExecution(s.(pending := s.pending[1..]), p.id, p.timeoutSecs, now);
      Consistent(s') && Pulled(s, s', true, now)
  {
    SpawnHeadConsistent(s, now);
    hide Consistent, RunningCount;
    SpawnIgnoresQueue(s, s.pending[1..], s.pending[1..], s.pending[0], now);
  }

  lemma {:induction false} PullStartsFirstQueued(s: Store, now: nat)
    requires Consistent(s)
    ensures var (s', started) := TryStartPending(s, now);
      Consistent(s') && Pulled(s, s', started, now)
    decreases |s.pending|
  {
    hide Consistent, Pulled, SpawnExecution, RunningCount;
    if RunningCount(s) >= s.cap || s.pending == [] {
      PulledNothing(s, now);
    } else if QueuedAt(s, 0) {
      PulledHead(s, now);
    } else {
      var rest := s.(pending := s.pending[1..]);
      DropHeadConsistent(s);
      PullStartsFirstQueued(rest, now);
      var (s', started) := TryStartPending(rest, now);
      PulledPastHead(s, s', started, now);
      assert RunningCount(rest) == RunningCount(s) by { CountIgnoresQueue(s, s.pending[1..]); }
    }
  }

  lemma CountIgnoresQueue(s: Store, queue: seq<Parked>)
    ensures RunningCount(s.(pending := queue)) == RunningCount(s)
  {
  }

  lemma SpawnIgnoresQueue(s: Store, queue: seq<Parked>, rest: seq<Parked>, p: Parked, now: nat)
    requires p.id in s.tasks
    ensures SpawnExecution(s.(pending := queue), p.id, p.timeoutSecs, now).(pending := rest)
         == SpawnExecution(s, p.id, p.timeoutSecs, now).(pending := rest)
  {
  }

  lemma PulledPastHead(s: Store, s': Store, started: bool, now: nat)
    requires s.pending != [] && !QueuedAt(s, 0)
    requires Pulled(s.(pending := s.pending[1..]), s', started, now)
    ensures Pulled(s, s', started, now)
  {
    hide SpawnExecution;
    var rest := s.(pending := s.pending[1..]);
    var k := |s.pending| - |s'.pending|;
    assert rest.pending[k - 1..] == s.pending[k..];
    assert HasQueued(rest) <==> HasQueued(s);
    forall i | 0 < i < |s.pending|
      ensures QueuedAt(s, i) <==> QueuedAt(rest, i - 1)
    {
      assert rest.pending[i - 1] == s.pending[i];
    }
    if started {
      assert rest.pending[k - 2] == s.pending[k - 1];
      SpawnIgnoresQueue(s, rest.pending, s'.pending, s.pending[k - 1], now);
    }
  }

  lemma QueueTail(queue: seq<Parked>, id: TaskId)
    requires queue != [] && InQueue(queue, id) && queue[0].id != id
    ensures InQueue(queue[1..], id)
  {
    var i :| 0 <= i < |queue| && queue[i].id == id;
    assert queue[1..][i - 1].id == id;
  }

  lemma DropHeadConsistent(s: Store)
    requires Consistent(s) && s.pending != [] && !QueuedAt(s, 0)
    ensures Consistent(s.(pending := s.pending[1..]))
  {
    var rest := s.(pending := s.pending[1..]);
    forall id | id in rest.tasks ensures TaskFits(rest, id) {
      assert TaskFits(s, id);
      if s.tasks[id].status == Queued {
        QueueTail(s.pending, id);
      }
    }
  }

  lemma SpawnHeadConsistent(s: Store, now: nat)
    requires Consistent(s) && s.pending != [] && QueuedAt(s, 0)
    ensures var p := s.pending[0];
      Consistent(SpawnExecution(s.(pending := s.pending[1..]), p.id, p.timeoutSecs, now))
  {
    var p := s.pending[0];
    var s' := SpawnExecution(s.(pending := s.pending[1..]), p.id, p.timeoutSecs, now);
    assert TaskFits(s, p.id);
    forall id | id in s'.tasks ensures TaskFits(s', id) {
      assert TaskFits(s, id);
      if s'.tasks[id].status == Queued {
        QueueTail(s.pending, id);
      }
    }
  }
}
