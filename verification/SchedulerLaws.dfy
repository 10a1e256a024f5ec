/** Laws of the scheduler over one step and over whole runs, for methods that run
    without interruption. */
module SchedulerLaws {
  import opened Tasks
  import opened Sequences
  import opened Scheduler

  // ---------------------------------------------------------------------
  // Any number of pulls
  // ---------------------------------------------------------------------

  /** Finish steps that are still owed: one per live execution, one per entry
      of the queue. */
  function Measure(s: Store): nat {
    |s.pending| + |s.sinks|
  }

  /** Pulls only turn waiting records into running ones, and only those join
      the live tables. */
  ghost predicate PullsRecords(s: Store, s': Store) {
    && s'.tasks.Keys == s.tasks.Keys
    && (forall id :: id in s.tasks ==>
          s'.tasks[id] == s.tasks[id]
          || (s.tasks[id].status == Queued && s'.tasks[id] == s.tasks[id].(status := Running)))
    && s.sinks.Keys <= s'.sinks.Keys
    && (forall id :: id in s'.sinks && id !in s.sinks ==> HasStatus(s, id, Queued))
  }

  /** Pulls shorten the queue from the front and leave no waiting task behind
      the cut. */
  ghost predicate PullsQueue(s: Store, s': Store) {
    && |s'.pending| <= |s.pending|
    && s'.pending == s.pending[|s.pending| - |s'.pending|..]
    && (forall i :: 0 <= i < |s.pending| - |s'.pending| ==> !HasStatus(s', s.pending[i].id, Queued))
  }

  /** What any number of pulls may do. */
  ghost predicate Pulls(s: Store, s': Store) {
    && s'.cap == s.cap && s'.issued == s.issued && s'.pids == s.pids
    && PullsRecords(s, s')
    && PullsQueue(s, s')
    && Measure(s') <= Measure(s)
  }

  lemma PullsQueueTwice(s: Store, m: Store, s': Store)
    requires PullsQueue(s, m) && PullsQueue(m, s') && PullsRecords(m, s')
    ensures PullsQueue(s, s')
  {
    var k, k' := |s.pending| - |m.pending|, |s.pending| - |s'.pending|;
    assert s.pending[k..][k' - k..] == s.pending[k'..];
    forall i | 0 <= i < k'
      ensures !HasStatus(s', s.pending[i].id, Queued)
    {
      if i < k {
        assert !HasStatus(m, s.pending[i].id, Queued);
      } else {
        assert m.pending[i - k] == s.pending[i];
      }
    }
  }

  lemma PullsAfterPulls(s: Store, m: Store, s': Store)
    requires Pulls(s, m) && Pulls(m, s')
    ensures Pulls(s, s')
  {
    PullsQueueTwice(s, m, s');
  }

  lemma StartAddsOne(s: Store, p: Parked, now: nat)
    requires p.id in s.tasks && p.id !in s.sinks
    ensures |SpawnExecution(s, p.id, p.timeoutSecs, now).sinks| == |s.sinks| + 1
  {
    var sinks := SpawnExecution(s, p.id, p.timeoutSecs, now).sinks;
    assert sinks.Keys == s.sinks.Keys + {p.id};
    assert |sinks.Keys| == |s.sinks.Keys| + 1;
  }

  lemma StartIsPulls(s: Store, s': Store, k: nat, now: nat)
    requires QueueFits(s) && 0 < k <= |s.pending| && QueuedAt(s, k - 1)
    requires forall i :: 0 <= i < k - 1 ==> !QueuedAt(s, i)
    requires s' == SpawnExecution(s, s.pending[k - 1].id, s.pending[k - 1].timeoutSecs, now).(pending := s.pending[k..])
    ensures Pulls(s, s')
  {
    StartAddsOne(s, s.pending[k - 1], now);
    forall i | 0 <= i < k
      ensures !HasStatus(s', s.pending[i].id, Queued)
    {
      assert i == k - 1 || !QueuedAt(s, i);
    }
  }

  lemma DropIsPulls(s: Store, k: nat)
    requires k <= |s.pending|
    requires forall i :: 0 <= i < k ==> !QueuedAt(s, i)
    ensures Pulls(s, s.(pending := s.pending[k..]))
  {
    var s' := s.(pending := s.pending[k..]);
    forall i | 0 <= i < k
      ensures !HasStatus(s', s.pending[i].id, Queued)
    {
      assert !QueuedAt(s, i);
    }
  }

  lemma PulledIsPulls(s: Store, s': Store, started: bool, now: nat)
    requires Consistent(s) && Pulled(s, s', started, now)
    ensures Pulls(s, s')
    ensures started ==> |s'.sinks| == |s.sinks| + 1
  {
    var k := |s.pending| - |s'.pending|;
    if started {
      assert QueuedAt(s, k - 1);
      StartAddsOne(s, s.pending[k - 1], now);
      StartIsPulls(s, s', k, now);
    } else {
      DropIsPulls(s, k);
    }
  }

  /** One pull keeps the tables consistent; it starts something exactly when a
      slot is free and a task waits, and otherwise leaves no idle slot. */
  lemma OnePull(s: Store, now: nat)
    requires Consistent(s)
    ensures var (s', started) := TryStartPending(s, now);
      && Consistent(s') && Pulls(s, s')
      && (started <==> RunningCount(s) < s.cap && HasQueued(s))
      && (started ==> |s'.sinks| == |s.sinks| + 1)
      && (!started ==> s'.sinks == s.sinks && WorkConserving(s'))
  {
    PullStartsFirstQueued(s, now);
    var (s', started) := TryStartPending(s, now);
    PulledIsPulls(s, s', started, now);
    if !started {
      assert s'.tasks == s.tasks && s'.cap == s.cap;
      if RunningCount(s) >= s.cap {
        RunningAreLive(s);
      } else {
        forall id | id in s'.tasks ensures s'.tasks[id].status != Queued { assert TaskFits(s', id); }
      }
    }
  }

  lemma {:induction false} StartAllPulls(s: Store, now: nat)
    requires Consistent(s)
    ensures Inv(StartAll(s, now)) && Pulls(s, StartAll(s, now))
    decreases |s.pending|
  {
    OnePull(s, now);
    var (m, started) := TryStartPending(s, now);
    if started {
      StartAllPulls(m, now);
      PullsAfterPulls(s, m, StartAll(s, now));
    }
  }

  // ---------------------------------------------------------------------
  // Every step keeps the invariant
  // ---------------------------------------------------------------------

  lemma ConcludeEnds(t: Task, result: SandboxResult, now: nat)
    ensures var t' := Conclude(t, result, now);
      && t'.status == (if t.status == Cancelled then Cancelled
                       else if result.Exited? && result.exitCode == 0 then Completed
                       else Failed)
      && t'.endedAt == Stamp(t.endedAt, now)
      && t'.args == t.args && t'.createdAt == t.createdAt
  {
  }

  /** What the completion handler does to the store before it pulls: the
      execution leaves the live tables, and its record, if still there, ends. */
  ghost predicate Released(s: Store, r: Store, id: TaskId) {
    && r.cap == s.cap && r.issued == s.issued && r.pending == s.pending
    && r.pids.Keys == s.pids.Keys - {id}
    && r.sinks.Keys == s.sinks.Keys - {id}
    && r.starts.Keys == s.starts.Keys - {id}
    && r.timeouts.Keys == s.timeouts.Keys - {id}
    && r.tasks.Keys == s.tasks.Keys
    && (forall x :: x in s.tasks && x != id ==> r.tasks[x] == s.tasks[x])
    && (id in s.tasks ==>
          && r.tasks[id].status.Terminal()
          && (r.tasks[id].status == Cancelled <==> s.tasks[id].status == Cancelled)
          && r.tasks[id].endedAt.Some?
          && (s.tasks[id].endedAt.Some? ==> r.tasks[id].endedAt == s.tasks[id].endedAt)
          && r.tasks[id].args == s.tasks[id].args && r.tasks[id].createdAt == s.tasks[id].createdAt)
  }

  lemma ReleaseIsReleased(s: Store, id: TaskId, result: SandboxResult, now: nat)
    ensures Released(s, Release(s, id, result, now), id)
  {
    if id in s.tasks {
      ConcludeEnds(s.tasks[id], result, now);
    }
  }

  lemma ReleasedTasksFit(s: Store, r: Store, id: TaskId)
    requires Consistent(s) && id in s.sinks && Released(s, r, id)
    ensures TasksFit(r)
    ensures HasQueued(r) ==> HasQueued(s)
  {
    forall x | x in r.tasks
      ensures TaskFits(r, x) && (r.tasks[x].status == Queued ==> s.tasks[x].status == Queued)
    {
      assert TaskFits(s, x);
    }
  }

  lemma ReleasedQueueFits(s: Store, r: Store, id: TaskId)
    requires QueueFits(s) && id in s.sinks && Released(s, r, id)
    ensures QueueFits(r)
  {
    forall i | 0 <= i < |r.pending|
      ensures r.pending[i].id != id
    {
      assert s.pending[i].id !in s.sinks;
    }
  }

  lemma ReleasedConsistent(s: Store, r: Store, id: TaskId)
    requires Consistent(s) && id in s.sinks && Released(s, r, id)
    ensures Consistent(r)
    ensures |r.sinks| == |s.sinks| - 1
    ensures HasQueued(r) ==> HasQueued(s)
  {
    ReleasedTasksFit(s, r, id);
    ReleasedQueueFits(s, r, id);
    assert |r.sinks.Keys| == |s.sinks.Keys| - 1;
  }

  /** An exit is a release followed by one pull. */
  lemma ExitInSteps(s: Store, id: TaskId, result: SandboxResult, now: nat) returns (r: Store)
    requires Consistent(s) && id in s.sinks
    ensures var s' := Finish(s, id, result, now);
      && r == Release(s, id, result, now)
      && Released(s, r, id) && Consistent(r) && |r.sinks| == |s.sinks| - 1
      && (HasQueued(r) ==> HasQueued(s))
      && Pulls(r, s') && Consistent(s')
      && (WorkConserving(s') || |s'.sinks| == |s.sinks|)
  {
    r := Release(s, id, result, now);
    ReleaseIsReleased(s, id, result, now);
    ReleasedConsistent(s, r, id);
    OnePull(r, now);
  }

  lemma QueuedBeforePulls(s: Store, s': Store)
    requires Pulls(s, s') && HasQueued(s')
    ensures HasQueued(s)
  {
    var q :| q in s'.tasks && s'.tasks[q].status == Queued;
    assert s.tasks[q].status == Queued;
  }

  lemma FinishKeepsInv(s: Store, id: TaskId, result: SandboxResult, now: nat)
    requires Inv(s) && id in s.sinks
    ensures Inv(Finish(s, id, result, now))
  {
    var r := ExitInSteps(s, id, result, now);
    var s' := Finish(s, id, result, now);
    if HasQueued(s') {
      QueuedBeforePulls(r, s');
    }
  }

  lemma FreshIsUnknown(s: Store, id: TaskId)
    requires Consistent(s) && id !in s.issued
    ensures id !in s.tasks && id !in s.sinks && !InQueue(s.pending, id)
  {
    assert id in s.tasks ==> TaskFits(s, id);
  }

  lemma SubmitStartsKeepsInv(s: Store, id: TaskId, args: seq<string>, timeoutSecs: nat, now: nat)
    requires Inv(s) && id !in s.issued
    ensures var added := s.(tasks := s.tasks[id := NewTask(args, now)], issued := s.issued + {id});
      Inv(SpawnExecution(added, id, timeoutSecs, now))
  {
    FreshIsUnknown(s, id);
    var added := s.(tasks := s.tasks[id := NewTask(args, now)], issued := s.issued + {id});
    var s' := SpawnExecution(added, id, timeoutSecs, now);
    assert s'.sinks.Keys == s.sinks.Keys + {id};
    forall x | x in s'.tasks ensures TaskFits(s', x) {
      if x != id { assert TaskFits(s, x); }
    }
    if HasQueued(s') {
      var q :| q in s'.tasks && s'.tasks[q].status == Queued;
      assert s.tasks[q].status == Queued;
    }
  }

  lemma SubmitParksKeepsInv(s: Store, id: TaskId, args: seq<string>, timeoutSecs: nat, now: nat)
    requires Consistent(s) && id !in s.issued && RunningCount(s) >= s.cap
    ensures var added := s.(tasks := s.tasks[id := NewTask(args, now)], issued := s.issued + {id});
      Inv(added.(pending := added.pending + [Parked(id, timeoutSecs)]))
  {
    FreshIsUnknown(s, id);
    var entry := Parked(id, timeoutSecs);
    var s' := s.(tasks := s.tasks[id := NewTask(args, now)], issued := s.issued + {id}, pending := s.pending + [entry]);
    forall x | x in s'.tasks ensures TaskFits(s', x) {
      if x == id {
        assert s'.pending[|s.pending|].id == id;
      } else {
        assert TaskFits(s, x);
        if InQueue(s.pending, x) {
          var i :| 0 <= i < |s.pending| && s.pending[i].id == x;
          assert s'.pending[i].id == x;
        }
      }
    }
    RunningAreLive(s);
  }

  lemma SubmitKeepsInv(s: Store, id: TaskId, args: seq<string>, timeoutSecs: nat, now: nat)
    requires Inv(s) && id !in s.issued && args != []
    ensures Inv(CreateAndRun(s, id, args, timeoutSecs, now).value)
  {
    FreshIsUnknown(s, id);
    var added := s.(tasks := s.tasks[id := NewTask(args, now)], issued := s.issued + {id});
    assert RunningIds(added.tasks) == RunningIds(s.tasks);
    if RunningCount(added) < added.cap {
      SubmitStartsKeepsInv(s, id, args, timeoutSecs, now);
    } else {
      SubmitParksKeepsInv(s, id, args, timeoutSecs, now);
    }
  }

  lemma CancelKeepsInv(s: Store, id: TaskId, now: nat)
    requires Inv(s) && Cancel(s, id, now).Ok?
    ensures Inv(Cancel(s, id, now).value)
  {
    var s' := Cancel(s, id, now).value;
    forall x | x in s'.tasks ensures TaskFits(s', x) {
      assert TaskFits(s, x);
    }
    if HasQueued(s') {
      var q :| q in s'.tasks && s'.tasks[q].status == Queued;
      assert s.tasks[q].status == Queued;
    }
  }

  lemma RemoveKeepsInv(s: Store, id: TaskId)
    requires Inv(s) && RemoveFinished(s, id).Ok?
    ensures Inv(RemoveFinished(s, id).value)
  {
    var s' := RemoveFinished(s, id).value;
    forall x | x in s'.tasks ensures TaskFits(s', x) {
      assert TaskFits(s, x);
    }
    if HasQueued(s') {
      var q :| q in s'.tasks && s'.tasks[q].status == Queued;
      assert s.tasks[q].status == Queued;
    }
  }

  lemma SinkUpdateKeepsInv(s: Store, s': Store)
    requires Inv(s)
    requires s' == s.(pids := s'.pids, sinks := s'.sinks)
    requires s'.sinks.Keys == s.sinks.Keys && s'.pids.Keys <= s.sinks.Keys
    ensures Inv(s')
  {
    forall x | x in s'.tasks ensures TaskFits(s', x) {
      assert TaskFits(s, x);
    }
    assert |s'.sinks.Keys| == |s.sinks.Keys|;
  }

  lemma CapIsFree(s: Store, cap: nat)
    requires Consistent(s) && cap >= 1
    ensures Consistent(s.(cap := cap))
  {
    forall x | x in s.tasks ensures TaskFits(s.(cap := cap), x) { assert TaskFits(s, x); }
  }

  lemma SetMaxKeepsInv(s: Store, n: nat, now: nat)
    requires Inv(s)
    ensures Inv(SetMaxConcurrent(s, n, now))
  {
    var cap := if n < 1 then 1 else n;
    CapIsFree(s, cap);
    StartAllPulls(s.(cap := cap), now);
  }

  /** Every atomic step keeps the tables consistent, loses no waiting task,
      and conserves work. */
  lemma StepKeepsInv(s: Store, op: Op)
    requires Inv(s) && Enabled(s, op)
    ensures Inv(Apply(s, op))
  {
    match op
    case Submit(id, args, timeoutSecs, now) =>
      if args != [] { SubmitKeepsInv(s, id, args, timeoutSecs, now); }
    case SetMax(n, now) => SetMaxKeepsInv(s, n, now);
    case CancelTask(id, now) =>
      if Cancel(s, id, now).Ok? { CancelKeepsInv(s, id, now); }
    case Remove(id) =>
      if RemoveFinished(s, id).Ok? { RemoveKeepsInv(s, id); }
    case Exit(id, result, now) => FinishKeepsInv(s, id, result, now);
    case Pid(id, pid) => SinkUpdateKeepsInv(s, Apply(s, op));
    case Stream(id, out, err) => SinkUpdateKeepsInv(s, Apply(s, op));
  }

  /** The invariant holds in every state of every run. */
  lemma {:induction false} RunKeepsInv(s: Store, ops: seq<Op>)
    requires Inv(s) && ValidRun(s, ops)
    ensures Inv(Run(s, ops))
    decreases |ops|
  {
    if ops != [] {
      StepKeepsInv(s, ops[0]);
      RunKeepsInv(Apply(s, ops[0]), ops[1..]);
    }
  }

  // ---------------------------------------------------------------------
  // Lifecycle
  // ---------------------------------------------------------------------

  /** The moves one step may make. */
  predicate Edge(a: Status, b: Status) {
    || a == b
    || (a == Queued && (b == Running || b == Cancelled))
    || (a == Running && b.Terminal())
  }

  /** The moves any number of steps may make. */
  predicate Later(a: Status, b: Status) {
    || a == b
    || a == Queued
    || (a == Running && b.Terminal())
  }

  /** How one record may change over a run: the status moves forward, the end
      is stamped once, and a Completed or Failed record is final. */
  predicate Follows(t: Task, t': Task) {
    && t'.args == t.args && t'.createdAt == t.createdAt
    && Later(t.status, t'.status)
    && (t.status.Terminal() ==> t'.endedAt == t.endedAt)
    && (t.status == Completed || t.status == Failed ==> t' == t)
  }

  ghost predicate StoreFollows(s: Store, s': Store) {
    && s.issued <= s'.issued
    && (forall id :: id in s.tasks && id in s'.tasks ==> Follows(s.tasks[id], s'.tasks[id]))
    && (forall id :: id in s.issued && id !in s.tasks ==> id !in s'.tasks)
  }

  /** StoreFollows, with at most one edge per record. */
  ghost predicate StepFollows(s: Store, s': Store) {
    && StoreFollows(s, s')
    && forall id :: id in s.tasks && id in s'.tasks ==> Edge(s.tasks[id].status, s'.tasks[id].status)
  }

  lemma PullsFollow(s: Store, s': Store)
    requires Consistent(s) && Pulls(s, s')
    ensures StepFollows(s, s')
  {
    forall id | id in s.tasks
      ensures Follows(s.tasks[id], s'.tasks[id]) && Edge(s.tasks[id].status, s'.tasks[id].status)
    {
    }
  }

  /** A released record may still change only if it is another task's. */
  lemma ReleasedThenPulled(s: Store, r: Store, s': Store, id: TaskId, x: TaskId)
    requires id in s.sinks && Released(s, r, id) && Pulls(r, s')
    requires x in s.tasks && TaskFits(s, x)
    ensures Follows(s.tasks[x], s'.tasks[x]) && Edge(s.tasks[x].status, s'.tasks[x].status)
  {
    if x == id {
      assert s'.tasks[x] == r.tasks[x];
    } else {
      assert r.tasks[x] == s.tasks[x];
    }
  }

  lemma ReleasedThenPullsFollow(s: Store, r: Store, s': Store, id: TaskId)
    requires TasksFit(s) && id in s.sinks && Released(s, r, id) && Pulls(r, s')
    ensures StepFollows(s, s')
  {
    forall x | x in s.tasks
      ensures Follows(s.tasks[x], s'.tasks[x]) && Edge(s.tasks[x].status, s'.tasks[x].status)
    {
      ReleasedThenPulled(s, r, s', id, x);
    }
  }

  lemma ExitFollows(s: Store, id: TaskId, result: SandboxResult, now: nat)
    requires Inv(s) && id in s.sinks
    ensures StepFollows(s, Finish(s, id, result, now))
  {
    var r := ExitInSteps(s, id, result, now);
    ReleasedThenPullsFollow(s, r, Finish(s, id, result, now), id);
  }

  lemma SubmitFollows(s: Store, id: TaskId, args: seq<string>, timeoutSecs: nat, now: nat)
    requires Inv(s) && id !in s.issued && args != []
    ensures StepFollows(s, CreateAndRun(s, id, args, timeoutSecs, now).value)
  {
    FreshIsUnknown(s, id);
    hide Inv;
    var s' := CreateAndRun(s, id, args, timeoutSecs, now).value;
    assert forall x :: x in s.tasks ==> s'.tasks[x] == s.tasks[x];
  }

  lemma CancelFollows(s: Store, id: TaskId, now: nat)
    requires Inv(s) && Cancel(s, id, now).Ok?
    ensures StepFollows(s, Cancel(s, id, now).value)
  {
    assert TaskFits(s, id);
    var s' := Cancel(s, id, now).value;
    assert forall x :: x in s.tasks && x != id ==> s'.tasks[x] == s.tasks[x];
  }

  lemma SetMaxFollows(s: Store, n: nat, now: nat)
    requires Inv(s)
    ensures StepFollows(s, SetMaxConcurrent(s, n, now))
  {
    var s1 := s.(cap := if n < 1 then 1 else n);
    CapIsFree(s, s1.cap);
    StartAllPulls(s1, now);
    PullsFollow(s1, StartAll(s1, now));
  }

  /** The status of each record moves along one edge per step, a finished or
      cancelled record keeps its status and its end time even when its process
      exits afterwards, and a removed identifier never comes back. */
  lemma StepMovesForward(s: Store, op: Op)
    requires Inv(s) && Enabled(s, op)
    ensures StepFollows(s, Apply(s, op))
  {
    match op
    case Submit(id, args, timeoutSecs, now) =>
      if args != [] { SubmitFollows(s, id, args, timeoutSecs, now); }
    case SetMax(n, now) => SetMaxFollows(s, n, now);
    case Exit(id, result, now) => ExitFollows(s, id, result, now);
    case CancelTask(id, now) =>
      if Cancel(s, id, now).Ok? { CancelFollows(s, id, now); }
    case _ =>
  }

  /** Lifecycle over whole runs. */
  lemma {:induction false} RunMovesForward(s: Store, ops: seq<Op>)
    requires Inv(s) && ValidRun(s, ops)
    ensures StoreFollows(s, Run(s, ops))
    decreases |ops|
  {
    if ops != [] {
      var m := Apply(s, ops[0]);
      StepKeepsInv(s, ops[0]);
      StepMovesForward(s, ops[0]);
      RunMovesForward(m, ops[1..]);
    }
  }

  /** The stamp is there exactly when the task is over, in every reachable
      state. */
  lemma EndedExactlyWhenOver(s: Store, ops: seq<Op>, id: TaskId)
    requires Inv(s) && ValidRun(s, ops) && id in Run(s, ops).tasks
    ensures Run(s, ops).tasks[id].endedAt.Some? <==> Run(s, ops).tasks[id].status.Terminal()
  {
    RunKeepsInv(s, ops);
    assert TaskFits(Run(s, ops), id);
  }

  /** A restart yields a state that satisfies the invariant exactly when every
      record saved as over carries its end time; records saved as active come
      back Cancelled with one. */
  lemma ReloadFits(saved: map<TaskId, Task>, issued: set<TaskId>, note: Bytes, now: nat)
    ensures Inv(Reload(saved, issued, note, now))
       <==> (forall id :: id in saved && saved[id].status.Terminal() ==> saved[id].endedAt.Some?)
    ensures forall id :: id in saved ==>
              Reload(saved, issued, note, now).tasks[id].status
              == if saved[id].status.Terminal() then saved[id].status else Cancelled
  {
    var s := Reload(saved, issued, note, now);
    if Inv(s) {
      forall id | id in saved && saved[id].status.Terminal() ensures saved[id].endedAt.Some? {
        assert TaskFits(s, id);
      }
    }
  }

  // ---------------------------------------------------------------------
  // No deadlock
  // ---------------------------------------------------------------------

  lemma SetMaxUsesMeasure(s: Store, n: nat, now: nat)
    requires Inv(s)
    ensures Measure(SetMaxConcurrent(s, n, now)) <= Measure(s)
  {
    var cap := if n < 1 then 1 else n;
    CapIsFree(s, cap);
    StartAllPulls(s.(cap := cap), now);
  }

  lemma ExitUsesMeasure(s: Store, id: TaskId, result: SandboxResult, now: nat)
    requires Inv(s) && id in s.sinks
    ensures Measure(Finish(s, id, result, now)) < Measure(s)
  {
    var r := ExitInSteps(s, id, result, now);
    assert Measure(r) == Measure(s) - 1;
  }

  /** Without new submissions the measure never grows, and each exit uses up
      at least one unit of it. */
  lemma StepUsesMeasure(s: Store, op: Op)
    requires Inv(s) && Enabled(s, op) && !op.Submit?
    ensures Measure(Apply(s, op)) + (if op.Exit? then 1 else 0) <= Measure(s)
  {
    match op
    case SetMax(n, now) => SetMaxUsesMeasure(s, n, now);
    case Exit(id, result, now) => ExitUsesMeasure(s, id, result, now);
    case Stream(_, _, _) => SameKeysSameSize(s.sinks, Apply(s, op).sinks);
    case _ =>
  }

  lemma SameKeysSameSize<K, V>(a: map<K, V>, b: map<K, V>)
    requires a.Keys == b.Keys
    ensures |a| == |b|
  {
    assert |a.Keys| == |a| && |b.Keys| == |b|;
  }

  predicate NoSubmissions(ops: seq<Op>) {
    forall i :: 0 <= i < |ops| ==> !ops[i].Submit?
  }

  function Exits(ops: seq<Op>): nat {
    if ops == [] then 0 else (if ops[0].Exit? then 1 else 0) + Exits(ops[1..])
  }

  /** No deadlock: whatever else happens, once submissions stop a task can wait
      only while an execution is alive to exit, and only until as many exits
      have happened as there were parked entries and live executions. */
  lemma {:induction false} NoDeadlock(s: Store, ops: seq<Op>)
    requires Inv(s) && ValidRun(s, ops) && NoSubmissions(ops)
    ensures var s' := Run(s, ops);
      && Exits(ops) + Measure(s') <= Measure(s)
      && (HasQueued(s') ==> s'.sinks != map[] && Exits(ops) < Measure(s))
    decreases |ops|
  {
    if ops == [] {
      assert |s.sinks| >= s.cap > 0 || !HasQueued(s);
    } else {
      StepKeepsInv(s, ops[0]);
      StepUsesMeasure(s, ops[0]);
      assert NoSubmissions(ops[1..]);
      NoDeadlock(Apply(s, ops[0]), ops[1..]);
    }
  }

  /** No task is lost: when no execution is alive any more, a task that was
      waiting or running and was not itself cancelled or removed has been
      executed to its end, whatever was submitted, cancelled, removed, printed or
      reconfigured meanwhile. */
  lemma {:induction false} EveryTaskIsExecuted(s: Store, ops: seq<Op>, id: TaskId)
    requires Inv(s) && ValidRun(s, ops) && Run(s, ops).sinks == map[]
    requires forall i :: 0 <= i < |ops| ==> ops[i].CancelTask? ==> ops[i].id != id
    requires HasStatus(s, id, Queued) || HasStatus(s, id, Running)
    ensures id in Run(s, ops).tasks ==> HasStatus(Run(s, ops), id, Completed) || HasStatus(Run(s, ops), id, Failed)
  {
    RunKeepsInv(s, ops);
    var s' := Run(s, ops);
    assert TaskFits(s, id);
    RunNeverCancels(s, ops, id);
    if id in s'.tasks {
      assert TaskFits(s', id);
      assert |s'.sinks| == 0;
      assert s'.tasks[id].status == Queued ==> HasQueued(s');
    }
  }

  /** Known, and not Cancelled if the record is still there. */
  predicate NotCancelled(s: Store, id: TaskId) {
    id in s.issued && (id in s.tasks ==> s.tasks[id].status != Cancelled)
  }

  lemma PullsNeverCancel(s: Store, s': Store, id: TaskId)
    requires Pulls(s, s') && NotCancelled(s, id)
    ensures NotCancelled(s', id)
  {
  }

  lemma SubmitNeverCancels(s: Store, x: TaskId, args: seq<string>, timeoutSecs: nat, now: nat, id: TaskId)
    requires Inv(s) && x !in s.issued && args != [] && NotCancelled(s, id)
    ensures NotCancelled(CreateAndRun(s, x, args, timeoutSecs, now).value, id)
  {
    FreshIsUnknown(s, x);
  }

  lemma SetMaxNeverCancels(s: Store, n: nat, now: nat, id: TaskId)
    requires Inv(s) && NotCancelled(s, id)
    ensures NotCancelled(SetMaxConcurrent(s, n, now), id)
  {
    var s1 := s.(cap := if n < 1 then 1 else n);
    CapIsFree(s, s1.cap);
    StartAllPulls(s1, now);
    PullsNeverCancel(s1, StartAll(s1, now), id);
  }

  lemma ExitNeverCancels(s: Store, x: TaskId, result: SandboxResult, now: nat, id: TaskId)
    requires Inv(s) && x in s.sinks && NotCancelled(s, id)
    ensures NotCancelled(Finish(s, x, result, now), id)
  {
    var r := ExitInSteps(s, x, result, now);
    assert NotCancelled(r, id);
    PullsNeverCancel(r, Finish(s, x, result, now), id);
  }

  /** Only a cancel of the task itself cancels it. */
  lemma StepNeverCancels(s: Store, op: Op, id: TaskId)
    requires Inv(s) && Enabled(s, op) && NotCancelled(s, id)
    requires op.CancelTask? ==> op.id != id
    ensures NotCancelled(Apply(s, op), id)
  {
    hide Inv, CreateAndRun, SetMaxConcurrent, Finish;
    match op
    case Submit(x, args, timeoutSecs, now) =>
      if args != [] {
        SubmitNeverCancels(s, x, args, timeoutSecs, now, id);
      } else {
        RefusesEmpty(s, x, timeoutSecs, now);
      }
    case SetMax(n, now) => SetMaxNeverCancels(s, n, now, id);
    case Exit(x, result, now) => ExitNeverCancels(s, x, result, now, id);
    case _ =>
  }

  lemma RefusesEmpty(s: Store, x: TaskId, timeoutSecs: nat, now: nat)
    ensures CreateAndRun(s, x, [], timeoutSecs, now) == Err(EmptyCommand)
  {
  }

  lemma {:induction false} RunNeverCancels(s: Store, ops: seq<Op>, id: TaskId)
    requires Inv(s) && ValidRun(s, ops) && NotCancelled(s, id)
    requires forall i :: 0 <= i < |ops| ==> ops[i].CancelTask? ==> ops[i].id != id
    ensures NotCancelled(Run(s, ops), id)
    decreases |ops|
  {
    hide Inv, Apply, Enabled, NotCancelled;
    if ops != [] {
      StepKeepsInv(s, ops[0]);
      StepNeverCancels(s, ops[0], id);
      RunNeverCancels(Apply(s, ops[0]), ops[1..], id);
    }
  }

  // ---------------------------------------------------------------------
  // Order of starts
  // ---------------------------------------------------------------------

  ghost predicate Ahead(queue: seq<Parked>, a: TaskId, b: TaskId) {
    exists i, j :: 0 <= i < j < |queue| && queue[i].id == a && queue[j].id == b
  }

  /** While a waits, b is still behind it in the queue: b was not started. */
  ghost predicate StillBehind(s: Store, a: TaskId, b: TaskId) {
    HasStatus(s, a, Queued) ==> Ahead(s.pending, a, b)
  }

  lemma PullsKeepOrder(s: Store, s': Store, a: TaskId, b: TaskId)
    requires Pulls(s, s') && StillBehind(s, a, b)
    ensures StillBehind(s', a, b)
  {
    if HasStatus(s', a, Queued) {
      assert s'.tasks[a] == s.tasks[a];
      var i, j :| 0 <= i < j < |s.pending| && s.pending[i].id == a && s.pending[j].id == b;
      var k := |s.pending| - |s'.pending|;
      assert i >= k;
      assert s'.pending[i - k].id == a && s'.pending[j - k].id == b;
    }
  }

  lemma ExitKeepsOrder(s: Store, id: TaskId, result: SandboxResult, now: nat, a: TaskId, b: TaskId)
    requires Inv(s) && id in s.sinks && StillBehind(s, a, b)
    ensures StillBehind(Finish(s, id, result, now), a, b)
  {
    var r := ExitInSteps(s, id, result, now);
    assert HasStatus(r, a, Queued) ==> HasStatus(s, a, Queued);
    PullsKeepOrder(r, Finish(s, id, result, now), a, b);
  }

  lemma SetMaxKeepsOrder(s: Store, n: nat, now: nat, a: TaskId, b: TaskId)
    requires Inv(s) && StillBehind(s, a, b)
    ensures StillBehind(SetMaxConcurrent(s, n, now), a, b)
  {
    var s1 := s.(cap := if n < 1 then 1 else n);
    CapIsFree(s, s1.cap);
    StartAllPulls(s1, now);
    PullsKeepOrder(s1, StartAll(s1, now), a, b);
  }

  lemma SubmitKeepsOrder(s: Store, op: Op, a: TaskId, b: TaskId)
    requires Enabled(s, op) && op.Submit? && StillBehind(s, a, b) && a in s.issued
    ensures StillBehind(Apply(s, op), a, b)
  {
    var s' := Apply(s, op);
    if HasStatus(s', a, Queued) {
      var i, j :| 0 <= i < j < |s.pending| && s.pending[i].id == a && s.pending[j].id == b;
      assert s'.pending[i] == s.pending[i] && s'.pending[j] == s.pending[j];
    }
  }

  lemma StepKeepsOrder(s: Store, op: Op, a: TaskId, b: TaskId)
    requires Inv(s) && Enabled(s, op) && StillBehind(s, a, b) && a in s.issued
    ensures StillBehind(Apply(s, op), a, b)
  {
    match op
    case Submit(_, _, _, _) => SubmitKeepsOrder(s, op, a, b);
    case SetMax(n, now) => SetMaxKeepsOrder(s, n, now, a, b);
    case Exit(id, result, now) => ExitKeepsOrder(s, id, result, now, a, b);
    case _ =>
  }

  /** Parked tasks start in parking order: if a was parked before b and still
      waits at the end of a run, b has not been started, so it runs nowhere and
      has no result. */
  lemma {:induction false} FirstParkedFirstStarted(s: Store, ops: seq<Op>, a: TaskId, b: TaskId)
    requires Inv(s) && ValidRun(s, ops) && a in s.issued
    requires StillBehind(s, a, b)
    ensures HasStatus(Run(s, ops), a, Queued) ==>
              && b !in Run(s, ops).sinks
              && (b in Run(s, ops).tasks ==> HasStatus(Run(s, ops), b, Queued) || HasStatus(Run(s, ops), b, Cancelled))
    decreases |ops|
  {
    if ops != [] {
      StepKeepsInv(s, ops[0]);
      StepMovesForward(s, ops[0]);
      StepKeepsOrder(s, ops[0], a, b);
      FirstParkedFirstStarted(Apply(s, ops[0]), ops[1..], a, b);
    }
  }

  /** The live executions of tasks that are no longer Running: their process has
      outlived a cancel. */
  function Ghosts(s: Store): set<TaskId> {
    s.sinks.Keys - RunningIds(s.tasks)
  }

  /** The new task starts at once although another one is waiting. */
  predicate Overtakes(s: Store, op: Op)
    requires op.Submit? && Enabled(s, op)
  {
    HasQueued(s) && HasStatus(Apply(s, op), op.id, Running)
  }

  lemma GhostsAreTheRest(s: Store)
    requires Consistent(s)
    ensures |Ghosts(s)| == |s.sinks| - RunningCount(s)
  {
    RunningAreLive(s);
    var running := RunningIds(s.tasks);
    assert s.sinks.Keys == Ghosts(s) + running && Ghosts(s) !! running;
    assert |s.sinks.Keys| == |Ghosts(s)| + |running|;
  }

  lemma StartsAtOnceExactly(s: Store, op: Op)
    requires Inv(s) && op.Submit? && Enabled(s, op) && op.args != []
    ensures HasStatus(Apply(s, op), op.id, Running) <==> RunningCount(s) < s.cap
  {
    FreshIsUnknown(s, op.id);
    hide Inv;
    var added := s.(tasks := s.tasks[op.id := NewTask(op.args, op.now)], issued := s.issued + {op.id});
    assert RunningIds(added.tasks) == RunningIds(s.tasks);
  }

  /** Exactly when a submission overtakes: a task waits, and the live executions
      of cancelled tasks are more than those by which the cap is exceeded. Then
      there is at least one; at a full cap one is enough. */
  lemma OvertakingExactly(s: Store, op: Op)
    requires Inv(s) && op.Submit? && Enabled(s, op) && op.args != []
    ensures Overtakes(s, op) <==> HasQueued(s) && |Ghosts(s)| > |s.sinks| - s.cap
    ensures Overtakes(s, op) ==> Ghosts(s) != {}
  {
    hide Ghosts, Consistent, Apply, HasQueued, RunningCount;
    StartsAtOnceExactly(s, op);
    GhostsAreTheRest(s);
  }

  /** A submission that does not start at once waits behind every task that
      was already waiting. */
  lemma NewcomerParksLast(s: Store, op: Op, a: TaskId)
    requires Inv(s) && op.Submit? && Enabled(s, op) && op.args != [] && HasStatus(s, a, Queued)
    ensures HasStatus(Apply(s, op), op.id, Running) || HasStatus(Apply(s, op), op.id, Queued)
    ensures HasStatus(Apply(s, op), op.id, Queued) ==> StillBehind(Apply(s, op), a, op.id)
  {
    var s' := Apply(s, op);
    assert TaskFits(s, a);
    var i :| 0 <= i < |s.pending| && s.pending[i].id == a;
    if HasStatus(s', op.id, Queued) {
      assert s'.pending[i].id == a && s'.pending[|s.pending|].id == op.id;
    }
  }

  /** Order of arrival breaks in every state that fills the cap exactly and
      has a waiting task: cancelling any running task lets the next submission
      in first. */
  lemma CancelOpensOvertaking(s: Store, a: TaskId, now: nat, op: Op)
    requires Inv(s) && HasQueued(s) && |s.sinks| == s.cap && HasStatus(s, a, Running)
    requires op.Submit? && op.args != [] && op.id !in s.issued
    ensures Cancel(s, a, now).Ok? && Overtakes(Cancel(s, a, now).value, op)
  {
    assert TaskFits(s, a);
    CancelKeepsInv(s, a, now);
    var s' := Cancel(s, a, now).value;
    var q :| q in s.tasks && s.tasks[q].status == Queued;
    assert HasStatus(s', q, Queued) && a in Ghosts(s');
    OvertakingExactly(s', op);
  }

  // ---------------------------------------------------------------------
  // What a polling peer sees
  // ---------------------------------------------------------------------

  /** The record is over and its process is gone. */
  predicate Settled(s: Store, id: TaskId) {
    id in s.tasks && s.tasks[id].status.Terminal() && id !in s.sinks
  }

  lemma PullsKeepSettled(s: Store, s': Store, id: TaskId)
    requires Pulls(s, s') && Settled(s, id)
    ensures Settled(s', id) && s'.tasks[id] == s.tasks[id]
  {
    assert s'.tasks[id] == s.tasks[id];
  }

  lemma ExitKeepsSettled(s: Store, x: TaskId, result: SandboxResult, now: nat, id: TaskId)
    requires Inv(s) && x in s.sinks && Settled(s, id)
    ensures Settled(Finish(s, x, result, now), id) && Finish(s, x, result, now).tasks[id] == s.tasks[id]
  {
    var r := ExitInSteps(s, x, result, now);
    PullsKeepSettled(r, Finish(s, x, result, now), id);
  }

  lemma SetMaxKeepsSettled(s: Store, n: nat, now: nat, id: TaskId)
    requires Inv(s) && Settled(s, id)
    ensures Settled(SetMaxConcurrent(s, n, now), id) && SetMaxConcurrent(s, n, now).tasks[id] == s.tasks[id]
  {
    var s1 := s.(cap := if n < 1 then 1 else n);
    CapIsFree(s, s1.cap);
    StartAllPulls(s1, now);
    PullsKeepSettled(s1, StartAll(s1, now), id);
  }

  /** A settled record never changes again; it can only be removed. */
  lemma StepKeepsSettled(s: Store, op: Op, id: TaskId)
    requires Inv(s) && Enabled(s, op) && Settled(s, id)
    ensures id !in Apply(s, op).tasks || (Settled(Apply(s, op), id) && Apply(s, op).tasks[id] == s.tasks[id])
  {
    match op
    case Submit(x, _, _, _) => FreshIsUnknown(s, x);
    case SetMax(n, now) => SetMaxKeepsSettled(s, n, now, id);
    case Exit(x, result, now) => ExitKeepsSettled(s, x, result, now, id);
    case _ =>
  }

  /** A Completed or Failed answer to a poll is the settled record itself. */
  lemma FinalAnswerIsSettled(s: Store, id: TaskId)
    requires Inv(s) && Get(s, id).Some?
    requires Get(s, id).value.status == Completed || Get(s, id).value.status == Failed
    ensures Settled(s, id) && Get(s, id).value == s.tasks[id]
  {
    assert TaskFits(s, id);
  }

  lemma ExitRewritesOutput(s: Store, id: TaskId, now: nat)
    requires Inv(s) && id in s.tasks && id in s.sinks
    ensures var result := Exited(0, s.tasks[id].output + [0], [], []);
      && id in Finish(s, id, result, now).tasks
      && Finish(s, id, result, now).tasks[id].output == s.tasks[id].output + [0]
  {
    var r := ExitInSteps(s, id, Exited(0, s.tasks[id].output + [0], [], []), now);
    assert r.tasks[id].status != Queued;
  }

  /** Settled with this record, or removed for good. */
  predicate SettledAs(s: Store, id: TaskId, t: Task) {
    id in s.issued && (id in s.tasks ==> Settled(s, id) && s.tasks[id] == t)
  }

  lemma {:induction false} RunKeepsSettled(s: Store, ops: seq<Op>, id: TaskId, t: Task)
    requires Inv(s) && ValidRun(s, ops) && SettledAs(s, id, t)
    ensures SettledAs(Run(s, ops), id, t)
    decreases |ops|
  {
    hide Inv, Apply, Enabled, Settled;
    if ops != [] {
      var m := Apply(s, ops[0]);
      StepKeepsInv(s, ops[0]);
      StepMovesForward(s, ops[0]);
      if id in s.tasks {
        StepKeepsSettled(s, ops[0], id);
      }
      RunKeepsSettled(m, ops[1..], id, t);
    }
  }

  lemma OneStepRun(s: Store, op: Op)
    requires Enabled(s, op)
    ensures ValidRun(s, [op]) && Run(s, [op]) == Apply(s, op)
  {
    hide Enabled, Apply;
    assert [op][1..] == [];
  }

  /** A record that is over stays as it is in every run, until it is removed,
      exactly when its process is gone: the exit of a cancelled task still alive
      rewrites its output. */
  lemma CancelledRecordIsFinalExactly(s: Store, id: TaskId, now: nat)
    requires Inv(s) && id in s.tasks && s.tasks[id].status.Terminal()
    ensures (forall ops: seq<Op> :: ValidRun(s, ops) && id in Run(s, ops).tasks ==> Run(s, ops).tasks[id] == s.tasks[id])
       <==> Settled(s, id)
  {
    hide Finish, Run, ValidRun;
    if Settled(s, id) {
      assert TaskFits(s, id);
      forall ops: seq<Op> | ValidRun(s, ops) && id in Run(s, ops).tasks
        ensures Run(s, ops).tasks[id] == s.tasks[id]
      {
        RunKeepsSettled(s, ops, id, s.tasks[id]);
      }
    } else {
      var op := Exit(id, Exited(0, s.tasks[id].output + [0], [], []), now);
      ExitRewritesOutput(s, id, now);
      OneStepRun(s, op);
      assert |Run(s, [op]).tasks[id].output| != |s.tasks[id].output|;
    }
  }
}
