/** The store of incoming tasks as the application keeps it: tables, a queue
    and a cap that the methods update in place. Each public method is one
    atomic step; it is proved to compute the function of the same name on the
    abstract state, and to keep the scheduler's invariant. */
module Incoming {
  import opened Tasks
  import S = Scheduler
  import Laws = SchedulerLaws

  class IncomingTasks {
    var tasks: map<TaskId, Task>
    /** Process number per execution, known once the sandbox has spawned. */
    var pids: map<TaskId, nat>
    var sinks: map<TaskId, S.Sink>
    var taskStarts: map<TaskId, nat>
    var taskTimeouts: map<TaskId, nat>
    var pending: seq<S.Parked>
    var maxConcurrent: nat
    /** All identifiers ever handed out. */
    ghost var issued: set<TaskId>

    ghost function State(): S.Store
      reads this
    {
      S.Store(tasks, pids, sinks, taskStarts, taskTimeouts, pending, maxConcurrent, issued)
    }

    /** Start from the records a previous session saved. */
    constructor LoadFromDisk(saved: map<TaskId, Task>, ghost known: set<TaskId>, note: Bytes, now: nat)
      ensures State() == S.Reload(saved, known, note, now)
    {
      tasks, pids, sinks, taskStarts, taskTimeouts := map[], map[], map[], map[], map[];
      pending, maxConcurrent, issued := [], S.DEFAULT_MAX_CONCURRENT, known + saved.Keys;
      new;
      var remaining := saved.Keys;
      while remaining != {}
        invariant remaining <= saved.Keys
        invariant tasks == map id | id in saved && id !in remaining :: S.Revive(saved[id], note, now)
        invariant State() == S.Reload(saved, known, note, now).(tasks := tasks)
        decreases remaining
      {
        var id :| id in remaining;
        tasks := tasks[id := S.Revive(saved[id], note, now)];
        remaining := remaining - {id};
      }
    }

    method RunningCount() returns (n: nat)
      ensures n == S.RunningCount(State())
    {
      n := |S.RunningIds(tasks)|;
    }

    method SpawnExecution(id: TaskId, timeoutSecs: nat, now: nat)
      modifies this
      ensures State() == S.SpawnExecution(old(State()), id, timeoutSecs, now)
    {
      if id !in tasks {
        return;
      }
      sinks := sinks[id := S.Sink([], [])];
      taskStarts := taskStarts[id := now];
      taskTimeouts := taskTimeouts[id := timeoutSecs];
      tasks := tasks[id := tasks[id].(status := Running)];
    }

    /** If a slot is free, start the first parked task that still waits. */
    method TryStartPending(now: nat) returns (started: bool)
      modifies this
      ensures (State(), started) == S.TryStartPending(old(State()), now)
      decreases |pending|
    {
      var running := RunningCount();
      if running >= maxConcurrent || pending == [] {
        return false;
      }
      var p := pending[0];
      pending := pending[1..];
      if !(p.id in tasks && tasks[p.id].status == Queued) {
        started := TryStartPending(now);
        return;
      }
      SpawnExecution(p.id, p.timeoutSecs, now);
      return true;
    }

    method SetMaxConcurrent(n: nat, now: nat)
      modifies this
      ensures State() == S.SetMaxConcurrent(old(State()), n, now)
      ensures old(S.Inv(State())) ==> S.Inv(State())
    {
      if S.Inv(State()) {
        Laws.StepKeepsInv(State(), S.SetMax(n, now));
      }
      maxConcurrent := if n < 1 then 1 else n;
      ghost var goal := S.StartAll(State(), now);
      var more := true;
      while more
        invariant goal == if more then S.StartAll(State(), now) else State()
        decreases more, |pending|
      {
        more := TryStartPending(now);
      }
    }

    /** Accept a task under a fresh identifier: start it if a slot is free,
        else park it. */
    method CreateAndRun(id: TaskId, args: seq<string>, timeoutSecs: nat, now: nat) returns (r: Result<Task, S.Refusal>)
      requires id !in issued
      modifies this
      ensures r == (if args == [] then Err(S.EmptyCommand) else Ok(NewTask(args, now)))
      ensures State() == S.OrElse(S.CreateAndRun(old(State()), id, args, timeoutSecs, now), old(State()))
      ensures old(S.Inv(State())) ==> S.Inv(State())
    {
      if S.Inv(State()) {
        Laws.StepKeepsInv(State(), S.Submit(id, args, timeoutSecs, now));
      }
      if args == [] {
        return Err(S.EmptyCommand);
      }
      var task := NewTask(args, now);
      tasks := tasks[id := task];
      issued := issued + {id};
      var running := RunningCount();
      if running < maxConcurrent {
        SpawnExecution(id, timeoutSecs, now);
      } else {
        pending := pending + [S.Parked(id, timeoutSecs)];
      }
      return Ok(task);
    }

    /** The record of a task once the sandbox has returned. */
    static method RecordResult(task: Task, result: S.SandboxResult, now: nat) returns (t: Task)
      ensures t == S.Conclude(task, result, now)
    {
      t := task;
      var alreadyCancelled := task.status == Cancelled;
      match result {
        case Exited(code, out, err, artifacts) =>
          t := t.(output := out, errorOutput := err, exitCode := Some(code), artifacts := artifacts);
          if !alreadyCancelled {
            t := t.(status := if code == 0 then Completed else Failed);
          }
        case Broken(message) =>
          if !alreadyCancelled {
            t := t.(errorOutput := message, status := Failed);
          }
      }
      if t.endedAt.None? {
        t := t.(endedAt := Some(now));
      }
    }

    /** The first half of a completion: store the result. */
    method WriteRecord(id: TaskId, result: S.SandboxResult, now: nat)
      modifies this
      ensures State() == S.WriteRecord(old(State()), id, result, now)
    {
      pids := pids - {id};
      if id in tasks {
        var task := RecordResult(tasks[id], result, now);
        tasks := tasks[id := task];
      }
    }

    /** The second half: leave the live tables. */
    method DropTables(id: TaskId)
      modifies this
      ensures State() == S.DropTables(old(State()), id)
    {
      sinks := sinks - {id};
      taskStarts := taskStarts - {id};
      taskTimeouts := taskTimeouts - {id};
    }

    /** The execution thread of id, once the sandbox has returned. */
    method Finish(id: TaskId, result: S.SandboxResult, now: nat)
      modifies this
      ensures State() == S.Finish(old(State()), id, result, now)
      ensures old(S.Inv(State())) && id in old(sinks) ==> S.Inv(State())
    {
      if S.Inv(State()) && id in sinks {
        Laws.StepKeepsInv(State(), S.Exit(id, result, now));
      }
      WriteRecord(id, result, now);
      DropTables(id);
      var _ := TryStartPending(now);
    }

    /** Mark a task Cancelled; victim is the process to be told to stop. */
    method Cancel(id: TaskId, now: nat) returns (r: Result<Option<nat>, S.Refusal>)
      modifies this
      ensures State() == S.OrElse(S.Cancel(old(State()), id, now), old(State()))
      ensures r.Ok? <==> id in old(tasks) && !old(tasks)[id].status.Terminal()
      ensures r.Ok? ==> r.value == if id in old(pids) then Some(old(pids)[id]) else None
      ensures r.Err? ==> r.error == if id in old(tasks) then S.AlreadyOver else S.NotFound
      ensures old(S.Inv(State())) ==> S.Inv(State())
    {
      if S.Inv(State()) {
        Laws.StepKeepsInv(State(), S.CancelTask(id, now));
      }
      if id !in tasks {
        return Err(S.NotFound);
      }
      var task := tasks[id];
      if task.status.Terminal() {
        return Err(S.AlreadyOver);
      }
      task := task.(status := Cancelled);
      if task.endedAt.None? {
        task := task.(endedAt := Some(now));
      }
      tasks := tasks[id := task];
      return Ok(if id in pids then Some(pids[id]) else None);
    }

    method RemoveFinished(id: TaskId) returns (r: Result<(), S.Refusal>)
      modifies this
      ensures State() == S.OrElse(S.RemoveFinished(old(State()), id), old(State()))
      ensures r.Ok? <==> id in old(tasks) && old(tasks)[id].status.Terminal()
      ensures r.Err? ==> r.error == if id in old(tasks) then S.StillActive else S.NotFound
      ensures old(S.Inv(State())) ==> S.Inv(State())
    {
      if S.Inv(State()) {
        Laws.StepKeepsInv(State(), S.Remove(id));
      }
      if id !in tasks {
        return Err(S.NotFound);
      }
      if tasks[id].status == Queued || tasks[id].status == Running {
        return Err(S.StillActive);
      }
      tasks := tasks - {id};
      return Ok(());
    }

    /** The first lookup of a poll. */
    method Clone(id: TaskId) returns (r: Option<Task>)
      ensures r == S.Clone(State(), id)
    {
      return if id in tasks then Some(tasks[id]) else None;
    }

    /** The second lookup of a poll. */
    method Overlay(id: TaskId, task: Task) returns (t: Task)
      ensures t == S.Overlay(sinks, id, task)
    {
      t := task;
      if id in sinks {
        t := t.(output := sinks[id].stdout, errorOutput := sinks[id].stderr);
      }
    }

    /** The answer to a poll that nothing interrupts. */
    method Get(id: TaskId) returns (r: Option<Task>)
      ensures r == S.Get(State(), id)
    {
      var cloned := Clone(id);
      if cloned.None? {
        return None;
      }
      var task := Overlay(id, cloned.value);
      return Some(task);
    }
  }
}
