/** What a machine says about one task, over whole runs and whatever happens to the
    others: the operations that name the task determine every field of the answer
    to a poll. */
module TaskStory {
  import opened Tasks
  import opened Sequences
  import opened Scheduler
  import opened SchedulerLaws

  // ---------------------------------------------------------------------
  // The operations on one task
  // ---------------------------------------------------------------------

  /** What has been said to a task before its process is gone. */
  datatype Log = Log(
    args: seq<string>,
    createdAt: nat,
    timeoutSecs: nat,
    out: Bytes,                 // everything printed
    err: Bytes,
    pid: Option<nat>,           // last process number reported
    cancelledAt: Option<nat>    // first cancel
  )

  function Submitted(op: Op): Log
    requires op.Submit?
  {
    Log(op.args, op.now, op.timeoutSecs, [], [], None, None)
  }

  function Heard(log: Log, op: Op, id: TaskId): Log {
    match op
    case Stream(x, out, err) => if x == id then log.(out := log.out + out, err := log.err + err) else log
    case Pid(x, pid) => if x == id then log.(pid := Some(pid)) else log
    case CancelTask(x, now) => if x == id && log.cancelledAt.None? then log.(cancelledAt := Some(now)) else log
    case _ => log
  }

  function HeardAll(log: Log, ops: seq<Op>, id: TaskId): Log
    decreases |ops|
  {
    if ops == [] then log else HeardAll(Heard(log, ops[0], id), ops[1..], id)
  }

  predicate NoExit(ops: seq<Op>, id: TaskId) {
    forall i :: 0 <= i < |ops| ==> !(ops[i].Exit? && ops[i].id == id)
  }

  // ---------------------------------------------------------------------
  // What the store knows of the task
  // ---------------------------------------------------------------------

  /** The record, if it has not been removed. */
  predicate RecordSays(s: Store, id: TaskId, log: Log) {
    id in s.tasks ==>
      var t := s.tasks[id];
      && t == Task(log.args, t.status, [], [], None, log.createdAt, log.cancelledAt, [])
      && (if log.cancelledAt.Some? then t.status == Cancelled else t.status == Queued || t.status == Running)
  }

  /** The queue and the live tables. */
  predicate TablesSay(s: Store, id: TaskId, log: Log) {
    && (forall i :: 0 <= i < |s.pending| && s.pending[i].id == id ==> s.pending[i].timeoutSecs == log.timeoutSecs)
    && (id in s.sinks ==>
          && s.sinks[id] == Sink(log.out, log.err)
          && id in s.timeouts && s.timeouts[id] == log.timeoutSecs
          && (if log.pid.Some? then id in s.pids && s.pids[id] == log.pid.value else id !in s.pids))
    && (id !in s.sinks ==> log.out == [] && log.err == [] && log.pid.None?)
  }

  predicate Says(s: Store, id: TaskId, log: Log) {
    id in s.issued && RecordSays(s, id, log) && TablesSay(s, id, log)
  }

  // ---------------------------------------------------------------------
  // Pulls
  // ---------------------------------------------------------------------

  /** Executions that were alive are left alone; a new one starts with empty output
      and the parameters it was parked with. */
  ghost predicate PullsTables(s: Store, s': Store, now: nat) {
    && (forall id :: id in s.sinks && id in s.starts && id in s.timeouts ==>
          && id in s'.sinks && s'.sinks[id] == s.sinks[id]
          && id in s'.starts && s'.starts[id] == s.starts[id]
          && id in s'.timeouts && s'.timeouts[id] == s.timeouts[id])
    && (forall id :: id in s'.sinks && id !in s.sinks ==> StartedHere(s, s', id, now))
  }

  ghost predicate StartedHere(s: Store, s': Store, id: TaskId, now: nat) {
    && id in s'.sinks && s'.sinks[id] == Sink([], [])
    && id in s'.starts && s'.starts[id] == now
    && id in s'.timeouts && exists i :: 0 <= i < |s.pending| && s.pending[i] == Parked(id, s'.timeouts[id])
  }

  lemma PulledTables(s: Store, s': Store, started: bool, now: nat)
    requires Consistent(s) && Pulled(s, s', started, now)
    ensures PullsTables(s, s', now)
  {
    if started {
      var k := |s.pending| - |s'.pending|;
      assert s.pending[k - 1].id !in s.sinks;
      assert s.pending[k - 1] == Parked(s.pending[k - 1].id, s.pending[k - 1].timeoutSecs);
    }
  }

  lemma StartedEarlier(s: Store, m: Store, s': Store, now: nat, id: TaskId)
    requires PullsQueue(s, m) && StartedHere(m, s', id, now)
    ensures StartedHere(s, s', id, now)
  {
    var i :| 0 <= i < |m.pending| && m.pending[i] == Parked(id, s'.timeouts[id]);
    assert s.pending[|s.pending| - |m.pending| + i] == m.pending[i];
  }

  lemma StartedAndKept(s: Store, m: Store, s': Store, now: nat, id: TaskId)
    requires StartedHere(s, m, id, now) && PullsTables(m, s', now)
    ensures StartedHere(s, s', id, now)
  {
  }

  lemma PullsTablesTwice(s: Store, m: Store, s': Store, now: nat)
    requires PullsQueue(s, m) && PullsTables(s, m, now) && PullsTables(m, s', now)
    ensures PullsTables(s, s', now)
  {
    forall id | id in s'.sinks && id !in s.sinks
      ensures StartedHere(s, s', id, now)
    {
      if id in m.sinks {
        StartedAndKept(s, m, s', now, id);
      } else {
        StartedEarlier(s, m, s', now, id);
      }
    }
    hide StartedHere, PullsQueue;
  }

  lemma {:induction false} StartAllTables(s: Store, now: nat)
    requires Consistent(s)
    ensures PullsTables(s, StartAll(s, now), now)
    decreases |s.pending|
  {
    hide Pulled, PullsTables, PullsQueue, PullsRecords, Consistent;
    OnePull(s, now);
    PullStartsFirstQueued(s, now);
    var (m, started) := TryStartPending(s, now);
    PulledTables(s, m, started, now);
    if started {
      StartAllTables(m, now);
      PullsTablesTwice(s, m, StartAll(s, now), now);
    }
  }

  lemma TablesOf(s: Store)
    requires Consistent(s)
    ensures TablesFit(s)
  {
  }

  /** Pulls say nothing new about a task, except that it may be Running now. */
  lemma PullsSay(s: Store, s': Store, now: nat, id: TaskId, log: Log)
    requires Consistent(s) && TablesFit(s') && Pulls(s, s') && PullsTables(s, s', now) && Says(s, id, log)
    ensures Says(s', id, log)
  {
    if id in s'.sinks && id !in s.sinks {
      assert StartedHere(s, s', id, now);
    }
    forall i | 0 <= i < |s'.pending| && s'.pending[i].id == id
      ensures s'.pending[i].timeoutSecs == log.timeoutSecs
    {
      assert s'.pending[i] == s.pending[|s.pending| - |s'.pending| + i];
    }
  }

  // ---------------------------------------------------------------------
  // Every operation
  // ---------------------------------------------------------------------

  lemma SubmitSays(s: Store, op: Op, id: TaskId, log: Log)
    requires Inv(s) && Enabled(s, op) && op.Submit? && Says(s, id, log)
    ensures Says(Apply(s, op), id, log)
  {
    assert op.id != id;
  }

  lemma SetMaxSays(s: Store, n: nat, now: nat, id: TaskId, log: Log)
    requires Inv(s) && Says(s, id, log)
    ensures Says(SetMaxConcurrent(s, n, now), id, log)
  {
    var s1 := s.(cap := if n < 1 then 1 else n);
    CapIsFree(s, s1.cap);
    StartAllPulls(s1, now);
    StartAllTables(s1, now);
    hide Pulls, PullsTables;
    PullsSay(s1, StartAll(s1, now), now, id, log);
  }

  lemma ExitSays(s: Store, x: TaskId, result: SandboxResult, now: nat, id: TaskId, log: Log)
    requires Inv(s) && x in s.sinks && x != id && Says(s, id, log)
    ensures Says(Finish(s, x, result, now), id, log)
  {
    ReleaseSays(s, x, result, now, id, log);
    assert Consistent(s);
    hide Pulls, PullsTables, Pulled, Says, Inv, Released, Release, Consistent;
    var r := ExitInSteps(s, x, result, now);
    PullStartsFirstQueued(r, now);
    var (s', started) := TryStartPending(r, now);
    PulledTables(r, s', started, now);
    TablesOf(s');
    PullsSay(r, s', now, id, log);
  }

  /** The record and the live tables of another task. */
  lemma ReleaseSays(s: Store, x: TaskId, result: SandboxResult, now: nat, id: TaskId, log: Log)
    requires x != id && Says(s, id, log)
    ensures Says(Release(s, x, result, now), id, log)
  {
    hide Conclude;
  }

  lemma CancelSays(s: Store, op: Op, id: TaskId, log: Log)
    requires Inv(s) && (op.CancelTask? || op.Remove?) && Says(s, id, log)
    ensures Says(Apply(s, op), id, Heard(log, op, id))
  {
    if id in s.tasks {
      assert TaskFits(s, id);
    }
  }

  lemma ReportSays(s: Store, op: Op, id: TaskId, log: Log)
    requires Inv(s) && Enabled(s, op) && (op.Pid? || op.Stream?) && Says(s, id, log)
    ensures Says(Apply(s, op), id, Heard(log, op, id))
  {
  }

  lemma StepSays(s: Store, op: Op, id: TaskId, log: Log)
    requires Inv(s) && Enabled(s, op) && Says(s, id, log) && !(op.Exit? && op.id == id)
    ensures Says(Apply(s, op), id, Heard(log, op, id))
  {
    hide Says;
    match op
    case Submit(_, _, _, _) => SubmitSays(s, op, id, log);
    case SetMax(n, now) => SetMaxSays(s, n, now, id, log);
    case Exit(x, result, now) => ExitSays(s, x, result, now, id, log);
    case CancelTask(_, _) => CancelSays(s, op, id, log);
    case Remove(_) => CancelSays(s, op, id, log);
    case _ => ReportSays(s, op, id, log);
  }

  lemma {:induction false} RunSays(s: Store, ops: seq<Op>, id: TaskId, log: Log)
    requires Inv(s) && ValidRun(s, ops) && NoExit(ops, id) && Says(s, id, log)
    ensures Says(Run(s, ops), id, HeardAll(log, ops, id))
    decreases |ops|
  {
    hide Inv, Apply, Enabled, Says, Heard;
    if ops != [] {
      StepKeepsInv(s, ops[0]);
      StepSays(s, ops[0], id, log);
      RunSays(Apply(s, ops[0]), ops[1..], id, Heard(log, ops[0], id));
    }
  }

  // ---------------------------------------------------------------------
  // From the submission to the answers
  // ---------------------------------------------------------------------

  lemma SubmissionSays(s: Store, op: Op)
    requires Inv(s) && Enabled(s, op) && op.Submit? && op.args != []
    ensures Says(Apply(s, op), op.id, Submitted(op))
  {
    FreshIsUnknown(s, op.id);
  }

  /** The answer to a poll, until the process is gone, whatever happens to the other
      tasks: the arguments submitted, everything printed so far, and Cancelled
      exactly since the first cancel. */
  lemma PollsAreWhatWasSaid(s: Store, op: Op, ops: seq<Op>)
    requires Inv(s) && Enabled(s, op) && op.Submit? && op.args != []
    requires ValidRun(Apply(s, op), ops) && NoExit(ops, op.id)
    ensures var s', log := Run(Apply(s, op), ops), HeardAll(Submitted(op), ops, op.id);
      match Get(s', op.id)
      case None => log.cancelledAt.Some?
      case Some(t) =>
        && t == Task(op.args, t.status, log.out, log.err, None, op.now, log.cancelledAt, [])
        && (t.status == Cancelled <==> log.cancelledAt.Some?)
        && (t.status == Running <==> log.cancelledAt.None? && op.id in s'.sinks)
        && (t.status == Queued <==> log.cancelledAt.None? && op.id !in s'.sinks)
  {
    var m, log := Apply(s, op), HeardAll(Submitted(op), ops, op.id);
    SubmissionSays(s, op);
    StepKeepsInv(s, op);
    RunSays(m, ops, op.id, Submitted(op));
    RunKeepsInv(m, ops);
    LogKeepsSubmission(Submitted(op), ops, op.id);
    StaysUntilCancelled(m, ops, op.id, Submitted(op));
    var s' := Run(m, ops);
    hide Run, HeardAll, ValidRun, Apply;
    if op.id in s'.tasks {
      assert TaskFits(s', op.id);
    }
  }

  lemma {:induction false} LogKeepsSubmission(log: Log, ops: seq<Op>, id: TaskId)
    ensures var l := HeardAll(log, ops, id);
      && l.args == log.args && l.createdAt == log.createdAt && l.timeoutSecs == log.timeoutSecs
      && (log.cancelledAt.Some? ==> l.cancelledAt == log.cancelledAt)
    decreases |ops|
  {
    if ops != [] {
      LogKeepsSubmission(Heard(log, ops[0], id), ops[1..], id);
    }
  }

  /** Only a cancelled task can be removed while its process has not exited. */
  lemma {:induction false} StaysUntilCancelled(s: Store, ops: seq<Op>, id: TaskId, log: Log)
    requires Inv(s) && ValidRun(s, ops) && NoExit(ops, id) && Says(s, id, log)
    requires id !in s.tasks ==> log.cancelledAt.Some?
    ensures id !in Run(s, ops).tasks ==> HeardAll(log, ops, id).cancelledAt.Some?
    decreases |ops|
  {
    hide Inv, Apply, Enabled, Says;
    if ops != [] {
      StepKeepsInv(s, ops[0]);
      StepSays(s, ops[0], id, log);
      if id in s.tasks && id !in Apply(s, ops[0]).tasks {
        GoneWasCancelled(s, ops[0], id, log);
      }
      StaysUntilCancelled(Apply(s, ops[0]), ops[1..], id, Heard(log, ops[0], id));
    }
  }

  lemma GoneWasCancelled(s: Store, op: Op, id: TaskId, log: Log)
    requires Inv(s) && Enabled(s, op) && Says(s, id, log) && id in s.tasks && id !in Apply(s, op).tasks
    ensures log.cancelledAt.Some?
  {
    match op
    case SetMax(n, now) => SetMaxTables(s, n, now);
    case Exit(x, result, now) => ExitTables(s, x, result, now);
    case _ =>
  }

  lemma SetMaxTables(s: Store, n: nat, now: nat)
    requires Inv(s)
    ensures var s' := SetMaxConcurrent(s, n, now); s'.tasks.Keys == s.tasks.Keys && PullsTables(s, s', now)
  {
    var s1 := s.(cap := if n < 1 then 1 else n);
    CapIsFree(s, s1.cap);
    StartAllPulls(s1, now);
    StartAllTables(s1, now);
    hide Inv, StartAll;
    SameTables(s, s1, StartAll(s1, now), now);
  }

  lemma SameTables(s: Store, s1: Store, s': Store, now: nat)
    requires s1 == s.(cap := s1.cap) && PullsTables(s1, s', now)
    ensures PullsTables(s, s', now)
  {
  }

  lemma ExitTables(s: Store, x: TaskId, result: SandboxResult, now: nat)
    requires Inv(s) && x in s.sinks
    ensures var r, s' := Release(s, x, result, now), Finish(s, x, result, now);
      s'.tasks.Keys == s.tasks.Keys && PullsTables(r, s', now)
  {
    var r := ExitInSteps(s, x, result, now);
    PullStartsFirstQueued(r, now);
    hide Inv, Released, Pulled, PullsTables, Release;
    var (s', started) := TryStartPending(r, now);
    PulledTables(r, s', started, now);
  }

  /** A poll after the exit of the process, whatever happens afterwards and until the
      record is removed: the result with its exit code and artifacts, or the error;
      a cancelled task stays Cancelled and keeps the time of its cancel. */
  lemma ResultIsReported(s: Store, id: TaskId, log: Log, result: SandboxResult, now: nat, ops: seq<Op>)
    requires Inv(s) && id in s.sinks && id in s.tasks && Says(s, id, log)
    requires ValidRun(Finish(s, id, result, now), ops) && id in Run(Finish(s, id, result, now), ops).tasks
    ensures Get(Run(Finish(s, id, result, now), ops), id) == Some(
      match result
      case Exited(code, out, err, artifacts) =>
        if log.cancelledAt.Some?
        then Task(log.args, Cancelled, out, err, Some(code), log.createdAt, log.cancelledAt, artifacts)
        else if code == 0
        then Task(log.args, Completed, out, err, Some(code), log.createdAt, Some(now), artifacts)
        else Task(log.args, Failed, out, err, Some(code), log.createdAt, Some(now), artifacts)
      case Broken(message) =>
        if log.cancelledAt.Some?
        then Task(log.args, Cancelled, [], [], None, log.createdAt, log.cancelledAt, [])
        else Task(log.args, Failed, [], message, None, log.createdAt, Some(now), []))
  {
    var m := Finish(s, id, result, now);
    var r := ExitInSteps(s, id, result, now);
    PullsKeepSettled(r, m, id);
    assert TaskFits(s, id);
    FinishKeepsInv(s, id, result, now);
    RunKeepsSettled(m, ops, id, m.tasks[id]);
    hide Run, ValidRun, Finish, Inv;
  }

  /** So from its submission on, an execution that exits is reported with what it was
      submitted with and what came out of it. */
  lemma SubmittedResultIsReported(s: Store, op: Op, before: seq<Op>, result: SandboxResult, now: nat, ops: seq<Op>)
    requires Inv(s) && Enabled(s, op) && op.Submit? && op.args != []
    requires ValidRun(Apply(s, op), before) && NoExit(before, op.id)
    requires var m := Run(Apply(s, op), before);
      && op.id in m.sinks && op.id in m.tasks && ValidRun(Finish(m, op.id, result, now), ops)
      && op.id in Run(Finish(m, op.id, result, now), ops).tasks
    ensures var z, cancelled := Run(Finish(Run(Apply(s, op), before), op.id, result, now), ops),
                                HeardAll(Submitted(op), before, op.id).cancelledAt;
      match Get(z, op.id)
      case None => false
      case Some(t) =>
        && t.args == op.args && t.createdAt == op.now
        && t.endedAt == Some(if cancelled.Some? then cancelled.value else now)
        && t.exitCode == (match result case Exited(code, _, _, _) => Some(code) case Broken(_) => None)
        && (t.status == Cancelled <==> cancelled.Some?)
        && (t.status == Completed <==> cancelled.None? && result.Exited? && result.exitCode == 0)
        && (result.Exited? ==> t.output == result.stdout && t.errorOutput == result.stderr && t.artifacts == result.artifacts)
  {
    var m := Run(Apply(s, op), before);
    SubmissionSays(s, op);
    StepKeepsInv(s, op);
    RunSays(Apply(s, op), before, op.id, Submitted(op));
    RunKeepsInv(Apply(s, op), before);
    LogKeepsSubmission(Submitted(op), before, op.id);
    ResultIsReported(m, op.id, HeardAll(Submitted(op), before, op.id), result, now, ops);
    hide Run, HeardAll, ValidRun, Apply, Finish, Get, Inv;
  }

  /** An execution has the timeout it was submitted with. */
  lemma ExecutionHasItsTimeout(s: Store, op: Op, ops: seq<Op>)
    requires Inv(s) && Enabled(s, op) && op.Submit? && op.args != []
    requires ValidRun(Apply(s, op), ops) && NoExit(ops, op.id)
    ensures var s' := Run(Apply(s, op), ops);
      op.id in s'.sinks ==> op.id in s'.timeouts && s'.timeouts[op.id] == op.timeoutSecs
  {
    SubmissionSays(s, op);
    StepKeepsInv(s, op);
    RunSays(Apply(s, op), ops, op.id, Submitted(op));
    LogKeepsSubmission(Submitted(op), ops, op.id);
    hide Run, HeardAll, ValidRun, Apply;
  }

  /** A cancel stops the process reported last. */
  lemma CancelStopsTheProcess(s: Store, op: Op, ops: seq<Op>)
    requires Inv(s) && Enabled(s, op) && op.Submit? && op.args != []
    requires ValidRun(Apply(s, op), ops) && NoExit(ops, op.id)
    ensures var s', log := Run(Apply(s, op), ops), HeardAll(Submitted(op), ops, op.id);
      (if op.id in s'.pids then Some(s'.pids[op.id]) else None) == log.pid
  {
    SubmissionSays(s, op);
    StepKeepsInv(s, op);
    RunSays(Apply(s, op), ops, op.id, Submitted(op));
    RunKeepsInv(Apply(s, op), ops);
    hide Run, HeardAll, ValidRun, Apply;
  }

  /** The time at which an operation happens; the others start nothing. */
  function TimeOf(op: Op): nat {
    match op
    case Submit(_, _, _, now) => now
    case SetMax(_, now) => now
    case Exit(_, _, now) => now
    case _ => 0
  }

  /** The start of an execution is the time of the operation that started it, as
      long as the execution lasts. */
  lemma StartIsStamped(s: Store, op: Op, id: TaskId)
    requires Inv(s) && Enabled(s, op) && id in Apply(s, op).sinks
    ensures var s' := Apply(s, op);
      && id in s'.starts
      && (id !in s.sinks ==> s'.starts[id] == TimeOf(op))
      && (id in s.sinks ==> id in s.starts && s'.starts[id] == s.starts[id])
  {
    match op
    case SetMax(n, now) => SetMaxTables(s, n, now);
    case Exit(x, result, now) => ExitStamps(s, x, result, now, id);
    case _ =>
  }

  lemma ExitStamps(s: Store, x: TaskId, result: SandboxResult, now: nat, id: TaskId)
    requires Inv(s) && x in s.sinks && id in Finish(s, x, result, now).sinks
    ensures var s' := Finish(s, x, result, now);
      && id in s'.starts
      && (id !in s.sinks ==> s'.starts[id] == now)
      && (id in s.sinks ==> id in s.starts && s'.starts[id] == s.starts[id])
  {
    ExitTables(s, x, result, now);
    hide Finish;
    var r := Release(s, x, result, now);
    if id !in r.sinks {
      assert StartedHere(r, Finish(s, x, result, now), id, now);
      assert exists i :: 0 <= i < |s.pending| && s.pending[i].id == id;
    }
  }

  // ---------------------------------------------------------------------
  // The cap, removals and restarts
  // ---------------------------------------------------------------------

  /** The cap after a run: the last one set, or 1 if that was 0. */
  function LastCap(cap: nat, ops: seq<Op>): nat {
    if ops == [] then cap
    else
      match Last(ops)
      case SetMax(n, _) => if n == 0 then 1 else n
      case _ => LastCap(cap, Front(ops))
  }

  lemma SetMaxSets(s: Store, n: nat, now: nat)
    requires Consistent(s)
    ensures var s' := SetMaxConcurrent(s, n, now);
      && s'.cap == (if n == 0 then 1 else n)
      && (HasQueued(s') ==> |s'.sinks| >= n)
  {
    var cap := if n < 1 then 1 else n;
    CapIsFree(s, cap);
    StartAllPulls(s.(cap := cap), now);
  }

  lemma StepSetsCap(s: Store, op: Op)
    requires Inv(s) && Enabled(s, op)
    ensures Apply(s, op).cap == match op case SetMax(n, _) => (if n == 0 then 1 else n) case _ => s.cap
  {
    match op
    case SetMax(n, now) => SetMaxSets(s, n, now);
    case Exit(id, result, now) => var r := ExitInSteps(s, id, result, now);
    case _ =>
  }

  lemma {:induction false} CapIsTheLastSet(s: Store, ops: seq<Op>)
    requires Inv(s) && ValidRun(s, ops)
    ensures Run(s, ops).cap == LastCap(s.cap, ops)
    decreases |ops|
  {
    hide Inv, Apply, Enabled;
    if ops != [] {
      StepKeepsInv(s, ops[0]);
      StepSetsCap(s, ops[0]);
      CapIsTheLastSet(Apply(s, ops[0]), ops[1..]);
      LastCapCons(s.cap, ops);
    }
  }

  lemma {:induction false} LastCapCons(cap: nat, ops: seq<Op>)
    requires ops != []
    ensures LastCap(cap, ops) == LastCap(match ops[0] case SetMax(n, _) => (if n == 0 then 1 else n) case _ => cap, ops[1..])
    decreases |ops|
  {
    if |ops| > 1 {
      assert Front(ops)[1..] == Front(ops[1..]) && Last(ops[1..]) == Last(ops);
      LastCapCons(cap, Front(ops));
    } else {
      assert Front(ops) == [] && ops[1..] == [];
    }
  }

  /** A removed record is gone for good. */
  lemma RemovedIsGone(s: Store, id: TaskId, ops: seq<Op>)
    requires Inv(s) && id in s.tasks && s.tasks[id].status.Terminal() && ValidRun(Apply(s, Remove(id)), ops)
    ensures Get(Run(Apply(s, Remove(id)), ops), id).None?
  {
    assert TaskFits(s, id);
    StepKeepsInv(s, Remove(id));
    RunMovesForward(Apply(s, Remove(id)), ops);
    hide Run, ValidRun, Inv;
  }

  /** Which requests are refused, and as what. */
  lemma RefusalsSay(s: Store, id: TaskId, args: seq<string>, timeoutSecs: nat, now: nat)
    ensures Get(s, id).None? <==> Cancel(s, id, now) == Err(NotFound)
    ensures Get(s, id).None? <==> RemoveFinished(s, id) == Err(NotFound)
    ensures Get(s, id).Some? ==>
      var active := Get(s, id).value.status == Queued || Get(s, id).value.status == Running;
      && (active <==> Cancel(s, id, now).Ok?) && (!active <==> Cancel(s, id, now) == Err(AlreadyOver))
      && (!active <==> RemoveFinished(s, id).Ok?) && (active <==> RemoveFinished(s, id) == Err(StillActive))
    ensures args == [] <==> CreateAndRun(s, id, args, timeoutSecs, now) == Err(EmptyCommand)
  {
  }

  /** After a restart nothing runs or waits, the cap is the default, and a poll says
      what was saved, with a task that was under way now Cancelled. */
  lemma RestartSays(saved: map<TaskId, Task>, issued: set<TaskId>, note: Bytes, now: nat, id: TaskId)
    ensures var s := Reload(saved, issued, note, now);
      && s.sinks == map[] && s.pending == [] && s.cap == 4
      && (Get(s, id).Some? <==> id in saved)
      && (id in saved ==>
            var t, u := saved[id], Get(s, id).value;
            if t.status == Queued || t.status == Running
            then u == Task(t.args, Cancelled, t.output, if t.errorOutput == [] then note else t.errorOutput, t.exitCode,
                           t.createdAt, Some(if t.endedAt.Some? then t.endedAt.value else now), t.artifacts)
            else u == t)
  {
  }
}
