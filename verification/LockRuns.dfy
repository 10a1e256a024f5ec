/** How the two models of the scheduler fit together: an operation that is not
    interrupted between its lock sections does what the atomic model says, so
    every run of the atomic scheduler is a run of the lock sections. */
module LockRuns {
  import opened Tasks
  import S = Scheduler
  import Laws = SchedulerLaws
  import L = SchedulerLocks
  import P = LockProgress

  /** Same records, same queue. */
  ghost predicate Matches(s: S.Store, l: L.State) {
    && l.tasks.Keys == s.tasks.Keys
    && (forall id :: id in s.tasks ==> l.tasks[id] == s.tasks[id].status)
    && |l.pending| == |s.pending|
    && (forall i :: 0 <= i < |s.pending| ==> l.pending[i] == s.pending[i].id)
    && l.issued == s.issued
  }

  /** One thread per live execution, and no other. */
  ghost predicate ThreadsMatch(live: set<TaskId>, threads: map<L.Tid, L.Pc>) {
    && (forall t :: t in threads ==> threads[t].Executing? && threads[t].id in live)
    && (forall id :: id in live ==> exists t :: t in threads && threads[t] == L.Executing(id))
    && (forall t, u :: t in threads && u in threads && threads[t] == threads[u] ==> t == u)
  }

  /** No operation is under way. */
  ghost predicate AtRest(s: S.Store, l: L.State) {
    Matches(s, l) && ThreadsMatch(s.sinks.Keys, l.threads)
  }

  /** Only thread t is under way, at pc. */
  ghost predicate Busy(s: S.Store, l: L.State, t: L.Tid, pc: L.Pc) {
    && Matches(s, l) && ThreadsMatch(s.sinks.Keys, l.threads - {t})
    && t in l.threads && l.threads[t] == pc
  }

  /** es leads from l to l'. */
  predicate Leads(l: L.State, cap: nat, es: seq<L.Event>, l': L.State) {
    L.ValidRun(l, cap, es) && L.Run(l, cap, es) == l'
  }

  lemma LeadsOn(l: L.State, cap: nat, e: L.Event, es: seq<L.Event>, l': L.State)
    requires L.Enabled(l, e) && Leads(L.Step(l, cap, e), cap, es, l')
    ensures Leads(l, cap, [e] + es, l')
  {
    L.RunCons(l, cap, e, es);
  }

  lemma SameCount(s: S.Store, l: L.State)
    requires Matches(s, l)
    ensures L.RunningCount(l) == S.RunningCount(s)
  {
    assert L.RunningIds(l) == S.RunningIds(s.tasks);
  }

  // ---------------------------------------------------------------------
  // Starting one task
  // ---------------------------------------------------------------------

  lemma MarkMatches(s: S.Store, l: L.State, t: L.Tid, id: TaskId, again: bool, child: L.Tid, cap: nat, timeoutSecs: nat, now: nat)
    requires Matches(s, l) && t in l.threads && l.threads[t] == L.Marking(id, again)
    requires id in s.tasks && child !in l.threads
    ensures var s' := S.SpawnExecution(s, id, timeoutSecs, now);
      var l' := L.Step(l, cap, L.Turn(t, child, 0));
      && Matches(s', l')
      && s'.sinks.Keys == s.sinks.Keys + {id}
      && l'.threads - {t} == (l.threads - {t})[child := L.Executing(id)]
      && (if again then t in l'.threads && l'.threads[t] == L.Pulling(true) else t !in l'.threads)
  {
  }

  lemma MarkStarts(s: S.Store, l: L.State, t: L.Tid, id: TaskId, again: bool, child: L.Tid, cap: nat, timeoutSecs: nat, now: nat)
    requires Busy(s, l, t, L.Marking(id, again)) && id in s.tasks && id !in s.sinks && child !in l.threads
    ensures var s' := S.SpawnExecution(s, id, timeoutSecs, now);
      var l' := L.Step(l, cap, L.Turn(t, child, 0));
      if again then Busy(s', l', t, L.Pulling(true)) else t !in l'.threads && AtRest(s', l')
  {
    hide S.SpawnExecution, Matches, L.Step, ThreadsMatch;
    MarkMatches(s, l, t, id, again, child, cap, timeoutSecs, now);
    var l' := L.Step(l, cap, L.Turn(t, child, 0));
    OneMoreThread(s.sinks.Keys, l.threads - {t}, id, child);
    assert !again ==> l'.threads == l'.threads - {t};
  }

  lemma OneMoreThread(live: set<TaskId>, threads: map<L.Tid, L.Pc>, id: TaskId, child: L.Tid)
    requires ThreadsMatch(live, threads) && id !in live && child !in threads
    ensures ThreadsMatch(live + {id}, threads[child := L.Executing(id)])
  {
    var more := threads[child := L.Executing(id)];
    forall x | x in live + {id}
      ensures exists t :: t in more && more[t] == L.Executing(x)
    {
      if x == id {
        assert more[child] == L.Executing(x);
      } else {
        var t :| t in threads && threads[t] == L.Executing(x);
        assert more[t] == L.Executing(x);
      }
    }
  }

  lemma OneThreadLess(live: set<TaskId>, threads: map<L.Tid, L.Pc>, t: L.Tid)
    requires ThreadsMatch(live, threads) && t in threads
    ensures ThreadsMatch(live - {threads[t].id}, threads - {t})
  {
    var id, fewer := threads[t].id, threads - {t};
    assert threads[t] == L.Executing(id);
    forall x | x in live - {id}
      ensures exists u :: u in fewer && fewer[u] == L.Executing(x)
    {
      var u :| u in threads && threads[u] == L.Executing(x);
      assert fewer[u] == L.Executing(x);
    }
  }

  lemma StartRuns(s: S.Store, l: L.State, t: L.Tid, id: TaskId, again: bool, cap: nat, timeoutSecs: nat, now: nat)
    returns (es: seq<L.Event>, l': L.State)
    requires Busy(s, l, t, L.Starting(id, again)) && id in s.tasks && id !in s.sinks
    ensures Leads(l, cap, es, l')
    ensures var s' := S.SpawnExecution(s, id, timeoutSecs, now);
      if again then Busy(s', l', t, L.Pulling(true)) else t !in l'.threads && AtRest(s', l')
  {
    var first := L.Turn(t, 0, 0);
    var m := L.Step(l, cap, first);
    assert m.threads - {t} == l.threads - {t};
    var child := L.FreshThread(m);
    var second := L.Turn(t, child, 0);
    MarkStarts(s, m, t, id, again, child, cap, timeoutSecs, now);
    l' := L.Step(m, cap, second);
    assert Leads(l', cap, [], l');
    LeadsOn(m, cap, second, [], l');
    LeadsOn(l, cap, first, [second] + [], l');
    es := [first] + ([second] + []);
  }

  // ---------------------------------------------------------------------
  // Pulling
  // ---------------------------------------------------------------------

  /** What one pull by thread t comes to. */
  ghost predicate PullEnds(s: S.Store, l: L.State, t: L.Tid, again: bool, now: nat) {
    var (s', started) := S.TryStartPending(s, now);
    if started && again then Busy(s', l, t, L.Pulling(true)) else t !in l.threads && AtRest(s', l)
  }

  lemma LeavesOff(s: S.Store, l: L.State, t: L.Tid, pc: L.Pc)
    requires Busy(s, l, t, pc)
    ensures AtRest(s, L.Done(l, t, false)) && t !in L.Done(l, t, false).threads
  {
  }

  lemma {:induction false} PullRuns(s: S.Store, l: L.State, t: L.Tid, again: bool, now: nat)
    returns (es: seq<L.Event>, l': L.State)
    requires S.QueueFits(s) && Busy(s, l, t, L.Pulling(again))
    ensures Leads(l, s.cap, es, l') && PullEnds(s, l', t, again, now)
    decreases |s.pending|
  {
    hide S.SpawnExecution, ThreadsMatch;
    SameCount(s, l);
    var check := L.Turn(t, 0, 0);
    var m := L.Step(l, s.cap, check);
    if S.RunningCount(s) >= s.cap {
      LeavesOff(s, l, t, L.Pulling(again));
      assert Leads(m, s.cap, [], m);
      es, l' := [check] + [], m;
    } else {
      assert m.threads - {t} == l.threads - {t};
      var more;
      more, l' := PopRuns(s, m, t, again, now);
      es := [check] + more;
    }
    LeadsOn(l, s.cap, check, es[1..], l');
    assert es == [check] + es[1..];
  }

  lemma {:induction false} PopRuns(s: S.Store, l: L.State, t: L.Tid, again: bool, now: nat)
    returns (es: seq<L.Event>, l': L.State)
    requires S.QueueFits(s) && S.RunningCount(s) < s.cap && Busy(s, l, t, L.Popping(again))
    ensures Leads(l, s.cap, es, l') && PullEnds(s, l', t, again, now)
    decreases |s.pending|, 2
  {
    hide S.SpawnExecution, ThreadsMatch, S.RunningCount;
    var pop := L.Turn(t, 0, 0);
    var m := L.Step(l, s.cap, pop);
    if s.pending == [] {
      LeavesOff(s, l, t, L.Popping(again));
      assert Leads(m, s.cap, [], m);
      es, l' := [pop] + [], m;
    } else {
      assert m.threads - {t} == l.threads - {t};
      var more;
      more, l' := TestRuns(s, m, t, again, now);
      es := [pop] + more;
    }
    LeadsOn(l, s.cap, pop, es[1..], l');
    assert es == [pop] + es[1..];
  }

  lemma TailFits(s: S.Store)
    requires S.QueueFits(s) && s.pending != []
    ensures S.QueueFits(s.(pending := s.pending[1..])) && s.pending[0].id !in s.sinks
  {
  }

  lemma {:induction false} TestRuns(s: S.Store, l: L.State, t: L.Tid, again: bool, now: nat)
    returns (es: seq<L.Event>, l': L.State)
    requires S.QueueFits(s) && S.RunningCount(s) < s.cap && s.pending != []
    requires Busy(s.(pending := s.pending[1..]), l, t, L.Testing(s.pending[0].id, again))
    ensures Leads(l, s.cap, es, l') && PullEnds(s, l', t, again, now)
    decreases |s.pending|, 1
  {
    hide S.SpawnExecution, ThreadsMatch, S.RunningCount, S.QueueFits;
    var p, rest := s.pending[0], s.(pending := s.pending[1..]);
    var test := L.Turn(t, 0, 0);
    var m := L.Step(l, s.cap, test);
    TailFits(s);
    assert m.threads - {t} == l.threads - {t};
    assert L.Has(l, p.id, Queued) <==> S.HasStatus(s, p.id, Queued);
    var more;
    if S.HasStatus(s, p.id, Queued) {
      more, l' := StartRuns(rest, m, t, p.id, again, s.cap, p.timeoutSecs, now);
    } else {
      more, l' := PullRuns(rest, m, t, again, now);
    }
    es := [test] + more;
    LeadsOn(l, s.cap, test, more, l');
  }

  lemma {:induction false} PullAllRuns(s: S.Store, l: L.State, t: L.Tid, now: nat)
    returns (es: seq<L.Event>, l': L.State)
    requires S.Consistent(s) && Busy(s, l, t, L.Pulling(true))
    ensures Leads(l, s.cap, es, l') && AtRest(S.StartAll(s, now), l')
    decreases |s.pending|
  {
    assert S.QueueFits(s);
    hide S.SpawnExecution, S.TryStartPending, AtRest, Busy, S.Consistent, L.Run, L.ValidRun;
    Laws.OnePull(s, now);
    var (m, started) := S.TryStartPending(s, now);
    var es1, l1 := PullRuns(s, l, t, true, now);
    if started {
      var es2;
      es2, l' := PullAllRuns(m, l1, t, now);
      L.RunAppend(l, s.cap, es1, es2);
      es := es1 + es2;
    } else {
      es, l' := es1, l1;
    }
  }

  // ---------------------------------------------------------------------
  // The operations
  // ---------------------------------------------------------------------

  /** A submission up to the outcome of its cap check. */
  lemma ArriveDecides(s: S.Store, l: L.State, n: L.Tid, id: TaskId, args: seq<string>, now: nat)
    requires AtRest(s, l) && id !in s.issued && n !in l.threads
    ensures var added := s.(tasks := s.tasks[id := NewTask(args, now)], issued := s.issued + {id});
      var l1 := L.Step(l, s.cap, L.Arrive(n, id));
      && L.Enabled(l1, L.Turn(n, 0, 0))
      && Busy(added, L.Step(l1, s.cap, L.Turn(n, 0, 0)), n,
              if S.RunningCount(added) < s.cap then L.Starting(id, false) else L.Parking(id))
  {
    hide ThreadsMatch;
    var added := s.(tasks := s.tasks[id := NewTask(args, now)], issued := s.issued + {id});
    var l1 := L.Step(l, s.cap, L.Arrive(n, id));
    SameCount(added, l1);
    assert l1.threads - {n} == l.threads;
    assert L.Step(l1, s.cap, L.Turn(n, 0, 0)).threads - {n} == l.threads;
  }

  lemma ParkRuns(s: S.Store, l: L.State, n: L.Tid, p: S.Parked, cap: nat)
    requires Busy(s, l, n, L.Parking(p.id))
    ensures AtRest(s.(pending := s.pending + [p]), L.Step(l, cap, L.Turn(n, 0, 0)))
  {
    hide ThreadsMatch;
    assert L.Step(l, cap, L.Turn(n, 0, 0)).threads == l.threads - {n};
  }

  lemma SubmitRuns(s: S.Store, l: L.State, id: TaskId, args: seq<string>, timeoutSecs: nat, now: nat)
    returns (es: seq<L.Event>, l': L.State)
    requires S.Inv(s) && id !in s.issued && args != [] && AtRest(s, l)
    ensures Leads(l, s.cap, es, l') && AtRest(S.CreateAndRun(s, id, args, timeoutSecs, now).value, l')
  {
    assert id !in s.sinks by { Laws.FreshIsUnknown(s, id); }
    assert id !in l.issued;
    hide S.Inv, S.RunningCount, S.SpawnExecution, L.Step, Matches, ThreadsMatch, AtRest;
    var added := s.(tasks := s.tasks[id := NewTask(args, now)], issued := s.issued + {id});
    var n := L.FreshThread(l);
    var arrive, turn := L.Arrive(n, id), L.Turn(n, 0, 0);
    ArriveDecides(s, l, n, id, args, now);
    var l1 := L.Step(l, s.cap, arrive);
    var l2 := L.Step(l1, s.cap, turn);
    var more;
    if S.RunningCount(added) < s.cap {
      more, l' := StartRuns(added, l2, n, id, false, s.cap, timeoutSecs, now);
    } else {
      ParkRuns(added, l2, n, S.Parked(id, timeoutSecs), s.cap);
      l' := L.Step(l2, s.cap, turn);
      Nothing(l', s.cap);
      LeadsOn(l2, s.cap, turn, [], l');
      more := [turn] + [];
    }
    LeadsOn(l1, s.cap, turn, more, l');
    LeadsOn(l, s.cap, arrive, [turn] + more, l');
    es := [arrive] + ([turn] + more);
  }

  lemma ReleasedRecords(s: S.Store, l: L.State, t: L.Tid, id: TaskId, result: S.SandboxResult, now: nat, code: int)
    requires Matches(s, l) && t in l.threads && l.threads[t] == L.Executing(id)
    requires code == if result.Exited? then result.exitCode else 1
    ensures Matches(S.Release(s, id, result, now), L.Step(l, s.cap, L.Turn(t, 0, code)))
  {
    if id in s.tasks {
      Laws.ConcludeEnds(s.tasks[id], result, now);
    }
  }

  lemma ReleaseMatches(s: S.Store, l: L.State, t: L.Tid, id: TaskId, result: S.SandboxResult, now: nat) returns (code: int)
    requires AtRest(s, l) && t in l.threads && l.threads[t] == L.Executing(id)
    ensures Busy(S.Release(s, id, result, now), L.Step(l, s.cap, L.Turn(t, 0, code)), t, L.Pulling(false))
  {
    hide Matches, ThreadsMatch;
    code := if result.Exited? then result.exitCode else 1;
    ReleasedRecords(s, l, t, id, result, now, code);
    OneThreadLess(s.sinks.Keys, l.threads, t);
    var r, m := S.Release(s, id, result, now), L.Step(l, s.cap, L.Turn(t, 0, code));
    assert m.threads - {t} == l.threads - {t};
    assert r.sinks.Keys == s.sinks.Keys - {id};
  }

  lemma ThreadOf(s: S.Store, l: L.State, id: TaskId) returns (t: L.Tid)
    requires AtRest(s, l) && id in s.sinks
    ensures t in l.threads && l.threads[t] == L.Executing(id)
  {
    t :| t in l.threads && l.threads[t] == L.Executing(id);
  }

  lemma ReleasedFits(s: S.Store, id: TaskId, result: S.SandboxResult, now: nat)
    requires S.Inv(s) && id in s.sinks
    ensures S.QueueFits(S.Release(s, id, result, now)) && S.Release(s, id, result, now).cap == s.cap
  {
    var r := Laws.ExitInSteps(s, id, result, now);
  }

  lemma ExitRuns(s: S.Store, l: L.State, id: TaskId, result: S.SandboxResult, now: nat)
    returns (es: seq<L.Event>, l': L.State)
    requires S.Inv(s) && id in s.sinks && AtRest(s, l)
    ensures Leads(l, s.cap, es, l') && AtRest(S.Finish(s, id, result, now), l')
  {
    hide S.Inv, S.Release, S.TryStartPending, S.QueueFits, Busy, AtRest, Leads, L.Step;
    var t := ThreadOf(s, l, id);
    var code := ReleaseMatches(s, l, t, id, result, now);
    ReleasedFits(s, id, result, now);
    var more;
    more, l' := PullRuns(S.Release(s, id, result, now), L.Step(l, s.cap, L.Turn(t, 0, code)), t, false, now);
    LeadsOn(l, s.cap, L.Turn(t, 0, code), more, l');
    es := [L.Turn(t, 0, code)] + more;
  }

  lemma ReapplyRuns(s: S.Store, l: L.State, now: nat)
    returns (es: seq<L.Event>, l': L.State)
    requires S.Inv(s) && AtRest(s, l)
    ensures Leads(l, s.cap, es, l') && AtRest(S.StartAll(s, now), l')
  {
    var n := L.FreshThread(l);
    var again := L.Reapply(n);
    var m := L.Step(l, s.cap, again);
    assert m.threads - {n} == l.threads;
    var more;
    more, l' := PullAllRuns(s, m, n, now);
    LeadsOn(l, s.cap, again, more, l');
    es := [again] + more;
  }

  lemma OneEventRuns(s: S.Store, l: L.State, op: S.Op, e: L.Event)
    requires AtRest(s, l)
    requires (op.CancelTask? && e == L.CancelTask(op.id)) || (op.Remove? && e == L.Remove(op.id))
    ensures AtRest(S.Apply(s, op), L.Step(l, s.cap, e))
  {
    hide ThreadsMatch;
  }

  lemma NoEventRuns(s: S.Store, l: L.State, op: S.Op)
    requires S.Enabled(s, op) && AtRest(s, l) && (op.Pid? || op.Stream?)
    ensures AtRest(S.Apply(s, op), l)
  {
    hide ThreadsMatch;
    assert S.Apply(s, op).sinks.Keys == s.sinks.Keys;
  }

  /** The cap stays what it is. */
  predicate KeepsCap(s: S.Store, op: S.Op) {
    op.SetMax? ==> s.cap == if op.n < 1 then 1 else op.n
  }

  /** Each atomic operation is an uninterrupted sequence of lock sections. */
  lemma StepRuns(s: S.Store, l: L.State, op: S.Op) returns (es: seq<L.Event>, l': L.State)
    requires S.Inv(s) && S.Enabled(s, op) && KeepsCap(s, op) && AtRest(s, l)
    ensures Leads(l, s.cap, es, l') && AtRest(S.Apply(s, op), l') && S.Apply(s, op).cap == s.cap
  {
    assert S.Consistent(s);
    hide S.Inv, AtRest, L.Run, L.ValidRun, S.StartAll, S.Finish, S.Consistent;
    es, l' := [], l;
    match op {
      case Submit(id, args, timeoutSecs, now) =>
        if args != [] {
          es, l' := SubmitRuns(s, l, id, args, timeoutSecs, now);
        } else {
          Nothing(l, s.cap);
        }
      case SetMax(n, now) =>
        es, l' := ReapplyRuns(s, l, now);
        Laws.StartAllPulls(s, now);
      case Exit(id, result, now) =>
        es, l' := ExitRuns(s, l, id, result, now);
        var r := Laws.ExitInSteps(s, id, result, now);
      case CancelTask(id, _) =>
        OneEventRuns(s, l, op, L.CancelTask(id));
        es, l' := OneEvent(l, s.cap, L.CancelTask(id));
      case Remove(id) =>
        OneEventRuns(s, l, op, L.Remove(id));
        es, l' := OneEvent(l, s.cap, L.Remove(id));
      case _ =>
        NoEventRuns(s, l, op);
        Nothing(l, s.cap);
    }
  }

  lemma OneEvent(l: L.State, cap: nat, e: L.Event) returns (es: seq<L.Event>, l': L.State)
    requires L.Enabled(l, e)
    ensures Leads(l, cap, es, l') && l' == L.Step(l, cap, e)
  {
    l' := L.Step(l, cap, e);
    Nothing(l', cap);
    LeadsOn(l, cap, e, [], l');
    es := [e] + [];
  }

  lemma Nothing(l: L.State, cap: nat)
    ensures Leads(l, cap, [], l)
  {
  }

  predicate AllKeepCap(s: S.Store, ops: seq<S.Op>) {
    forall i :: 0 <= i < |ops| ==> KeepsCap(s, ops[i])
  }

  /** Every run of the atomic scheduler with a fixed cap is a run of the lock
      sections, ending in the matching state. */
  lemma {:induction false} AtomicRunIsLockRun(s: S.Store, l: L.State, ops: seq<S.Op>) returns (es: seq<L.Event>)
    requires S.Inv(s) && S.ValidRun(s, ops) && AllKeepCap(s, ops) && AtRest(s, l)
    ensures L.ValidRun(l, s.cap, es) && AtRest(S.Run(s, ops), L.Run(l, s.cap, es))
    decreases |ops|
  {
    hide S.Inv, AtRest, S.Apply, S.Enabled, L.Step, L.Enabled;
    if ops == [] {
      es := [];
    } else {
      var es1, l1 := StepRuns(s, l, ops[0]);
      Laws.StepKeepsInv(s, ops[0]);
      var s1 := S.Apply(s, ops[0]);
      assert forall i :: 0 <= i < |ops[1..]| ==> ops[1..][i] == ops[i + 1];
      var es2 := AtomicRunIsLockRun(s1, l1, ops[1..]);
      L.RunAppend(l, s.cap, es1, es2);
      es := es1 + es2;
    }
  }

  /** Between two operations the lock model is at rest, with enough threads at hand
      to fill the cap while a task waits. */
  lemma RestIsAwake(s: S.Store, l: L.State)
    requires S.Inv(s) && AtRest(s, l)
    ensures P.AtRest(l) && P.AtHand(l, s.cap) && P.Awake(l)
  {
    RestIsSound(s, l);
    assert s.cap >= 1 && (S.HasQueued(s) ==> |s.sinks.Keys| >= s.cap);
    hide S.Inv, P.RunningHaveThreads, P.QueuedAreHeld, P.IdsAreKnown;
    ThreadsPerExecution(s, l);
    if P.Waiting(l) {
      var w :| w in l.tasks && P.WaitsFor(l, w);
      assert s.tasks[w].status == Queued;
    }
  }

  lemma ThreadsPerExecution(s: S.Store, l: L.State)
    requires AtRest(s, l) && P.OneHolder(l)
    ensures |P.Actives(l)| == |s.sinks.Keys|
  {
    assert P.Actives(l) == l.threads.Keys;
    P.OneThreadEach(l, l.threads.Keys, s.sinks.Keys);
  }

  lemma RestIsSound(s: S.Store, l: L.State)
    requires S.Inv(s) && AtRest(s, l)
    ensures P.Sound(l)
  {
    forall id | L.Has(l, id, Running)
      ensures exists t :: t in l.threads && l.threads[t] == L.Executing(id)
    {
      assert S.TaskFits(s, id);
    }
    forall id | L.Has(l, id, Queued)
      ensures P.Carried(l, id)
    {
      assert S.TaskFits(s, id);
      var i :| 0 <= i < |s.pending| && s.pending[i].id == id;
      assert l.pending[i] == id;
    }
    forall id | id in l.tasks
      ensures id in l.issued
    {
      assert S.TaskFits(s, id);
    }
  }

  // ---------------------------------------------------------------------
  // Wake-ups lost, from the empty application
  // ---------------------------------------------------------------------

  const EMPTY: L.State := L.State(map[], [], map[], {})

  /** An application that has just started with a cap of 1. */
  const FRESH: S.Store := S.Store(map[], map[], map[], map[], map[], [], 1, {})

  lemma FreshIsSound()
    ensures S.Inv(FRESH) && AtRest(FRESH, EMPTY)
  {
  }

  function Submission(id: TaskId): S.Op {
    S.Submit(id, ["command"], 60, 0)
  }

  lemma FirstStarts(x: TaskId)
    ensures var s := S.Apply(FRESH, Submission(x));
      && s.sinks.Keys == {x} && S.RunningIds(s.tasks) == {x} && s.pending == [] && s.issued == {x} && s.cap == 1
      && s.tasks.Keys == {x}
  {
    assert S.RunningIds(map[x := NewTask(["command"], 0)]) == {};
  }

  lemma NextParks(s: S.Store, id: TaskId)
    requires id !in s.issued && id !in s.tasks && S.RunningCount(s) >= s.cap
    ensures S.Apply(s, Submission(id))
         == s.(tasks := s.tasks[id := NewTask(["command"], 0)], issued := s.issued + {id}, pending := s.pending + [S.Parked(id, 60)])
    ensures S.RunningIds(S.Apply(s, Submission(id)).tasks) == S.RunningIds(s.tasks)
  {
    var added := s.(tasks := s.tasks[id := NewTask(["command"], 0)], issued := s.issued + {id});
    assert S.RunningIds(added.tasks) == S.RunningIds(s.tasks);
  }

  lemma StoreAtRest(s: S.Store, l: L.State)
    requires S.Inv(s) && AtRest(s, l)
    ensures P.AtRest(l) && L.RunningCount(l) == S.RunningCount(s)
    ensures |l.pending| == |s.pending| && forall i :: 0 <= i < |s.pending| ==> l.pending[i] == s.pending[i].id
    ensures forall id, status :: L.Has(l, id, status) <==> S.HasStatus(s, id, status)
    ensures ThreadsMatch(s.sinks.Keys, l.threads)
  {
    RestIsAwake(s, l);
    SameCount(s, l);
  }

  /** One more submission is parked. */
  lemma OneMore(s: S.Store, l: L.State, id: TaskId) returns (es: seq<L.Event>, s': S.Store)
    requires S.Inv(s) && AtRest(s, l) && S.RunningCount(s) >= s.cap && id !in s.issued
    ensures L.ValidRun(l, s.cap, es) && S.Inv(s') && AtRest(s', L.Run(l, s.cap, es))
    ensures s'.pending == s.pending + [S.Parked(id, 60)] && s'.sinks == s.sinks && s'.cap == s.cap
    ensures s'.issued == s.issued + {id} && S.RunningCount(s') == S.RunningCount(s)
    ensures S.HasStatus(s', id, Queued) && forall x :: x != id && S.HasStatus(s, x, Queued) ==> S.HasStatus(s', x, Queued)
  {
    hide S.Inv, S.Apply, S.RunningCount, S.HasStatus, AtRest, L.ValidRun, L.Run;
    ParkEffects(s, id);
    s' := S.Apply(s, Submission(id));
    es := OneRun(s, l, Submission(id));
  }

  lemma ParkEffects(s: S.Store, id: TaskId)
    requires S.Inv(s) && S.RunningCount(s) >= s.cap && id !in s.issued
    ensures var s' := S.Apply(s, Submission(id));
      && s'.pending == s.pending + [S.Parked(id, 60)] && s'.sinks == s.sinks
      && s'.issued == s.issued + {id} && S.RunningCount(s') == S.RunningCount(s)
      && S.HasStatus(s', id, Queued) && forall x :: x != id && S.HasStatus(s, x, Queued) ==> S.HasStatus(s', x, Queued)
  {
    Laws.FreshIsUnknown(s, id);
    hide S.Inv, S.Apply;
    NextParks(s, id);
  }

  /** A second and a third submission are parked. */
  lemma TwoMore(s: S.Store, l: L.State, a: TaskId, b: TaskId) returns (es: seq<L.Event>, s': S.Store)
    requires S.Inv(s) && AtRest(s, l) && S.RunningCount(s) >= s.cap && s.pending == []
    requires a != b && a !in s.issued && b !in s.issued
    ensures L.ValidRun(l, s.cap, es) && S.Inv(s') && AtRest(s', L.Run(l, s.cap, es))
    ensures s'.pending == [S.Parked(a, 60), S.Parked(b, 60)] && s'.sinks == s.sinks
    ensures S.HasStatus(s', a, Queued) && S.HasStatus(s', b, Queued)
  {
    hide S.Inv, AtRest, S.RunningCount, S.HasStatus, L.ValidRun, L.Run;
    var es1, m := OneMore(s, l, a);
    var es2;
    es2, s' := OneMore(m, L.Run(l, s.cap, es1), b);
    L.RunAppend(l, s.cap, es1, es2);
    es := es1 + es2;
  }

  /** After one submission the cap is full. */
  lemma OneSubmission(x: TaskId) returns (es: seq<L.Event>, s: S.Store)
    ensures L.ValidRun(EMPTY, 1, es) && S.Inv(s) && AtRest(s, L.Run(EMPTY, 1, es))
    ensures s.sinks.Keys == {x} && S.RunningCount(s) == 1 == s.cap && s.pending == [] && s.issued == {x}
  {
    FreshIsSound();
    FirstStarts(x);
    es := OneRun(FRESH, EMPTY, Submission(x));
    s := S.Apply(FRESH, Submission(x));
  }

  /** The same, seen from the lock sections. */
  lemma OneRunning(x: TaskId) returns (es: seq<L.Event>, t: L.Tid)
    ensures L.ValidRun(EMPTY, 1, es)
    ensures var l := L.Run(EMPTY, 1, es);
      P.AtRest(l) && l.pending == [] && L.RunningCount(l) == 1 && l.threads.Keys == {t}
  {
    hide S.Inv, AtRest, L.Step, L.Enabled, L.ValidRun, L.Run, P.AtRest, ThreadsMatch, L.RunningCount, S.RunningCount;
    var s;
    es, s := OneSubmission(x);
    var l := L.Run(EMPTY, 1, es);
    StoreAtRest(s, l);
    OneThread(x, l.threads, s.sinks.Keys);
    t :| l.threads.Keys == {t};
  }

  /** After one submission the cap is full; after two more, two tasks are parked. */
  lemma ThreeSubmissions(x: TaskId, a: TaskId, b: TaskId) returns (es: seq<L.Event>, fs: seq<L.Event>)
    requires x != a && x != b && a != b
    ensures L.ValidRun(EMPTY, 1, es) && P.AtRest(L.Run(EMPTY, 1, es))
    ensures var l := L.Run(EMPTY, 1, es); l.pending == [] && L.RunningCount(l) == 1
    ensures L.ValidRun(EMPTY, 1, fs) && P.AtRest(L.Run(EMPTY, 1, fs))
    ensures var l := L.Run(EMPTY, 1, fs);
      l.pending == [a, b] && L.Has(l, a, Queued) && L.Has(l, b, Queued) && exists t :: l.threads.Keys == {t}
  {
    hide S.Inv, AtRest, L.Step, L.Enabled, L.ValidRun, L.Run, P.AtRest, L.Has, S.HasStatus, ThreadsMatch, L.RunningCount, S.RunningCount;
    var s1, s2, more;
    es, s1 := OneSubmission(x);
    var l1 := L.Run(EMPTY, 1, es);
    StoreAtRest(s1, l1);
    more, s2 := TwoMore(s1, l1, a, b);
    L.RunAppend(EMPTY, 1, es, more);
    fs := es + more;
    StoreAtRest(s2, L.Run(EMPTY, 1, fs));
    OneThread(x, L.Run(EMPTY, 1, fs).threads, s2.sinks.Keys);
  }

  lemma OneThread(x: TaskId, threads: map<L.Tid, L.Pc>, live: set<TaskId>)
    requires ThreadsMatch(live, threads) && live == {x}
    ensures exists t :: threads.Keys == {t}
  {
    var t :| t in threads && threads[t] == L.Executing(x);
    forall u | u in threads
      ensures u == t
    {
      assert threads[u].id in live;
    }
    assert threads.Keys == {t};
  }

  lemma OneRun(s: S.Store, l: L.State, op: S.Op) returns (es: seq<L.Event>)
    requires S.Inv(s) && S.Enabled(s, op) && op.Submit? && AtRest(s, l)
    ensures L.ValidRun(l, s.cap, es) && AtRest(S.Apply(s, op), L.Run(l, s.cap, es))
    ensures S.Inv(S.Apply(s, op)) && S.Apply(s, op).cap == s.cap
  {
    hide S.Inv, AtRest, L.Step, L.Section, L.Enabled;
    var l';
    es, l' := StepRuns(s, l, op);
    Laws.StepKeepsInv(s, op);
  }

  /** From the empty application both interleavings end with a task that waits for
      ever: the late parking, and the selection that is removed. */
  lemma WakeupsAreLostFromEmpty(x: TaskId, a: TaskId, b: TaskId) returns (late: seq<L.Event>, removed: seq<L.Event>)
    requires x != a && x != b && a != b
    ensures L.ValidRun(EMPTY, 1, late) && L.ValidRun(EMPTY, 1, removed)
    ensures var s' := L.Run(EMPTY, 1, late); s'.threads == map[] && exists w :: L.Has(s', w, Queued)
    ensures var s' := L.Run(EMPTY, 1, removed); s'.threads == map[] && L.Has(s', b, Queued)
    ensures !P.NothingLost(EMPTY, 1, late) && !P.NothingLost(EMPTY, 1, removed)
  {
    hide L.Step, L.Enabled, P.AtRest, P.Awake, P.NothingLost;
    var es, fs := ThreeSubmissions(x, a, b);
    var lost, w := P.LateParkingIsLost(L.Run(EMPTY, 1, es), 1);
    L.RunAppend(EMPTY, 1, es, lost);
    late := es + lost;
    var t :| L.Run(EMPTY, 1, fs).threads.Keys == {t};
    var lost' := P.RemovedSelectionIsLost(L.Run(EMPTY, 1, fs), 1, t, a, b);
    L.RunAppend(EMPTY, 1, fs, lost');
    removed := fs + lost';
    FreshIsSound();
    RestIsAwake(FRESH, EMPTY);
    LeftBehind(late, w);
    LeftBehind(removed, b);
  }

  lemma LeftBehind(es: seq<L.Event>, w: TaskId)
    requires L.ValidRun(EMPTY, 1, es) && P.Awake(EMPTY) && L.Run(EMPTY, 1, es).threads == map[]
    requires L.Has(L.Run(EMPTY, 1, es), w, Queued)
    ensures !P.NothingLost(EMPTY, 1, es)
  {
    hide P.Awake, L.Run, L.ValidRun, P.NothingLost;
    if P.NothingLost(EMPTY, 1, es) {
      P.NoTaskLeftBehind(EMPTY, 1, es);
    }
  }
}
