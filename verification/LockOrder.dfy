/** Order of arrival at the grain of the locks: what the queue keeps, when a
    submission passes its check beside a waiting task, and three histories
    without a cancel that no run of whole methods shows: a submission that
    overtakes, a later parked task that ends first, and a slot that stays idle. */
module LockOrder {
  import opened Tasks
  import opened Sequences
  import opened SchedulerLocks
  import opened LockProgress
  import LR = LockRuns

  // ---------------------------------------------------------------------
  // The queue
  // ---------------------------------------------------------------------

  function PoppedBy(s: State, e: Event): seq<TaskId> {
    if e.Turn? && e.t in s.threads && s.threads[e.t].Popping? && s.pending != [] then [s.pending[0]] else []
  }

  function ParkedBy(s: State, e: Event): seq<TaskId> {
    if e.Turn? && e.t in s.threads && s.threads[e.t].Parking? then [s.threads[e.t].id] else []
  }

  /** The tasks popped during a run, in order. */
  function Popped(s: State, cap: nat, es: seq<Event>): seq<TaskId>
    requires ValidRun(s, cap, es)
    decreases |es|
  {
    if es == [] then [] else PoppedBy(s, es[0]) + Popped(Step(s, cap, es[0]), cap, es[1..])
  }

  function Parked(s: State, cap: nat, es: seq<Event>): seq<TaskId>
    requires ValidRun(s, cap, es)
    decreases |es|
  {
    if es == [] then [] else ParkedBy(s, es[0]) + Parked(Step(s, cap, es[0]), cap, es[1..])
  }

  lemma QueueStep(s: State, cap: nat, e: Event)
    requires Enabled(s, e)
    ensures s.pending + ParkedBy(s, e) == PoppedBy(s, e) + Step(s, cap, e).pending
  {
  }

  /** However the lock sections interleave, tasks are popped in the order in which
      they were parked, each once, and none is lost on the way. */
  lemma {:induction false} FirstParkedFirstPopped(s: State, cap: nat, es: seq<Event>)
    requires ValidRun(s, cap, es)
    ensures s.pending + Parked(s, cap, es) == Popped(s, cap, es) + Run(s, cap, es).pending
    decreases |es|
  {
    hide Step, Enabled, ParkedBy, PoppedBy;
    if es != [] {
      var m := Step(s, cap, es[0]);
      QueueStep(s, cap, es[0]);
      FirstParkedFirstPopped(m, cap, es[1..]);
      calc {
        s.pending + Parked(s, cap, es);
        (s.pending + ParkedBy(s, es[0])) + Parked(m, cap, es[1..]);
        PoppedBy(s, es[0]) + (m.pending + Parked(m, cap, es[1..]));
      }
    }
  }

  predicate ToPark(pc: Pc, id: TaskId) {
    (pc.Deciding? || pc.Parking?) && pc.id == id
  }

  /** a does not come back to the queue, and while it is there b is behind it and
      has not been started. */
  ghost predicate StillBehind(s: State, a: TaskId, b: TaskId) {
    && a in s.issued && b in s.issued
    && (forall t :: t in s.threads ==> !ToPark(s.threads[t], a))
    && (a in s.pending ==>
          && (exists i, j :: 0 <= i < j < |s.pending| && s.pending[i] == a && s.pending[j] == b)
          && (b in s.tasks ==> s.tasks[b] == Queued || s.tasks[b] == Cancelled))
  }

  lemma StepKeepsOut(s: State, cap: nat, e: Event, a: TaskId)
    requires Enabled(s, e) && a in s.issued && (forall t :: t in s.threads ==> !ToPark(s.threads[t], a))
    ensures var s' := Step(s, cap, e);
      && (forall t :: t in s'.threads ==> !ToPark(s'.threads[t], a))
      && (a in s'.pending ==> a in s.pending)
  {
    assert e.Turn? ==> !ToPark(s.threads[e.t], a);
  }

  lemma StepKeepsPlaces(s: State, cap: nat, e: Event, i: nat, j: nat)
    requires Enabled(s, e) && OneHolder(s) && i < j < |s.pending| && s.pending[i] in Step(s, cap, e).pending
    requires forall t :: t in s.threads ==> !ToPark(s.threads[t], s.pending[i])
    ensures var s' := Step(s, cap, e);
      exists k, l :: 0 <= k < l < |s'.pending| && s'.pending[k] == s.pending[i] && s'.pending[l] == s.pending[j]
  {
    var s' := Step(s, cap, e);
    QueueStep(s, cap, e);
    hide Step;
    if PoppedBy(s, e) == [] {
      assert s'.pending[i] == s.pending[i] && s'.pending[j] == s.pending[j];
    } else {
      assert s'.pending == s.pending[1..];
      assert i > 0;
      assert s'.pending[i - 1] == s.pending[i] && s'.pending[j - 1] == s.pending[j];
    }
  }

  lemma StepKeepsUnstarted(s: State, cap: nat, e: Event, j: nat)
    requires Enabled(s, e) && OneHolder(s) && j < |s.pending| && s.pending[j] in s.issued
    requires var b := s.pending[j]; b in s.tasks ==> s.tasks[b] == Queued || s.tasks[b] == Cancelled
    ensures var s', b := Step(s, cap, e), s.pending[j]; b in s'.tasks ==> s'.tasks[b] == Queued || s'.tasks[b] == Cancelled
  {
    assert e.Turn? && HasTask(s.threads[e.t]) ==> s.threads[e.t].id != s.pending[j];
  }

  lemma StepKeepsBehind(s: State, cap: nat, e: Event, a: TaskId, b: TaskId)
    requires Enabled(s, e) && OneHolder(s) && StillBehind(s, a, b)
    ensures StillBehind(Step(s, cap, e), a, b)
  {
    StepKeepsOut(s, cap, e, a);
    IssuedGrows(s, cap, e);
    hide Step, Enabled, OneHolder;
    if a in Step(s, cap, e).pending {
      var i, j :| 0 <= i < j < |s.pending| && s.pending[i] == a && s.pending[j] == b;
      StepKeepsPlaces(s, cap, e, i, j);
      StepKeepsUnstarted(s, cap, e, j);
    }
  }

  lemma IssuedGrows(s: State, cap: nat, e: Event)
    requires Enabled(s, e)
    ensures s.issued <= Step(s, cap, e).issued
  {
  }

  lemma {:induction false} RunKeepsBehind(s: State, cap: nat, es: seq<Event>, a: TaskId, b: TaskId)
    requires ValidRun(s, cap, es) && Sound(s) && StillBehind(s, a, b)
    ensures StillBehind(Run(s, cap, es), a, b)
    decreases |es|
  {
    hide Step, Enabled, StillBehind;
    if es != [] {
      StepKeepsBehind(s, cap, es[0], a, b);
      SoundStep(s, cap, es[0]);
      RunKeepsBehind(Step(s, cap, es[0]), cap, es[1..], a, b);
    }
  }

  /** While a task is in the queue no task parked behind it is in the hands of a
      thread, Running, or over with a result. */
  lemma BehindIsNotStarted(s: State, cap: nat, es: seq<Event>, i: nat, j: nat)
    requires ValidRun(s, cap, es) && Sound(s) && i < j < |s.pending| && Has(s, s.pending[j], Queued)
    ensures var s', a, b := Run(s, cap, es), s.pending[i], s.pending[j];
      a in s'.pending ==>
        && b in s'.pending
        && (forall t :: t in s'.threads ==> !Holds(s'.threads[t], b))
        && (b in s'.tasks ==> s'.tasks[b] == Queued || s'.tasks[b] == Cancelled)
  {
    var a, b := s.pending[i], s.pending[j];
    assert StillBehind(s, a, b) by {
      assert forall t :: t in s.threads && HasTask(s.threads[t]) ==> s.threads[t].id != s.pending[i];
    }
    RunKeepsBehind(s, cap, es, a, b);
    SoundRun(s, cap, es);
    var s' := Run(s, cap, es);
    hide Run, ValidRun;
    if a in s'.pending {
      var k, l :| 0 <= k < l < |s'.pending| && s'.pending[k] == a && s'.pending[l] == b;
      assert forall t :: t in s'.threads && HasTask(s'.threads[t]) ==> s'.threads[t].id != s'.pending[l];
    }
  }

  // ---------------------------------------------------------------------
  // Overtaking
  // ---------------------------------------------------------------------

  /** The thread has ended an execution and not yet started the next, or is starting
      a task, or executes one that was cancelled. */
  predicate Idles(s: State, pc: Pc) {
    pc.Pulling? || pc.Popping? || pc.Testing? || pc.Starting? || pc.Marking? || (pc.Executing? && !Has(s, pc.id, Running))
  }

  /** The threads at hand without a Running task. */
  function Between(s: State): set<Tid> {
    set t | t in s.threads && Idles(s, s.threads[t])
  }

  /** Exactly when a submission starts although a task waits, between lock sections:
      the threads without a Running task are more than those by which the threads
      at hand exceed the cap. While no slot has been lost there is such a thread. */
  lemma PassesCheckExactly(s: State, cap: nat, n: Tid, b: TaskId)
    requires Sound(s) && n in s.threads && s.threads[n] == Deciding(b)
    ensures var s' := Step(s, cap, Turn(n, 0, 0));
      n in s'.threads && (s'.threads[n] == Starting(b, false) <==> |Between(s)| > |Actives(s)| - cap)
    ensures AtHand(s, cap) && Waiting(s) && |Between(s)| > |Actives(s)| - cap ==> Between(s) != {}
  {
    BetweenCount(s);
    CheckIs(s, cap, n, b);
    hide Sound, Waiting, Actives, Executors, Between, RunningCount, Step;
  }

  lemma BetweenCount(s: State)
    requires Sound(s)
    ensures |Between(s)| == |Actives(s)| - RunningCount(s)
  {
    ExecutorsCount(s);
    BetweenIsTheRest(s);
    hide Sound, RunningCount, Between, Actives, Executors;
    assert |Between(s) + Executors(s)| == |Between(s)| + |Executors(s)|;
  }

  lemma BetweenIsTheRest(s: State)
    ensures Actives(s) == Between(s) + Executors(s) && Between(s) !! Executors(s)
  {
    forall t
      ensures t in Actives(s) <==> t in Between(s) || t in Executors(s)
    {
      if t in s.threads && Active(s.threads[t]) {
        assert Idles(s, s.threads[t]) || (s.threads[t].Executing? && Has(s, s.threads[t].id, Running));
      }
    }
  }

  lemma CheckIs(s: State, cap: nat, n: Tid, b: TaskId)
    requires n in s.threads && s.threads[n] == Deciding(b)
    ensures var s' := Step(s, cap, Turn(n, 0, 0));
      n in s'.threads && (s'.threads[n] == Starting(b, false) <==> RunningCount(s) < cap)
  {
  }

  // ---------------------------------------------------------------------
  // Histories without cancels
  // ---------------------------------------------------------------------

  /** Only arrivals and turns, and no wake-up lost. */
  predicate Smooth(s: State, cap: nat, es: seq<Event>)
    requires ValidRun(s, cap, es)
  {
    NothingLost(s, cap, es) && forall i :: 0 <= i < |es| ==> es[i].Arrive? || es[i].Turn?
  }

  ghost predicate Leads(s: State, cap: nat, z: State) {
    exists es :: ValidRun(s, cap, es) && Smooth(s, cap, es) && Run(s, cap, es) == z
  }

  lemma LeadsNowhere(s: State, cap: nat)
    ensures Leads(s, cap, s)
  {
    assert ValidRun(s, cap, []) && Smooth(s, cap, []) && Run(s, cap, []) == s;
  }

  lemma LeadsFirst(s: State, cap: nat, e: Event, z: State)
    requires Enabled(s, e) && !LosesWakeup(s, e) && (e.Arrive? || e.Turn?) && Leads(Step(s, cap, e), cap, z)
    ensures Leads(s, cap, z)
  {
    hide Step, Enabled, LosesHand;
    var es :| ValidRun(Step(s, cap, e), cap, es) && Smooth(Step(s, cap, e), cap, es) && Run(Step(s, cap, e), cap, es) == z;
    RunCons(s, cap, e, es);
    assert ([e] + es)[1..] == es;
    assert KeepsHands(s, cap, 1, [e] + es);
    assert Smooth(s, cap, [e] + es);
  }

  lemma LeadsByOne(s: State, cap: nat, e: Event)
    requires Enabled(s, e) && !LosesWakeup(s, e) && (e.Arrive? || e.Turn?)
    ensures Leads(s, cap, Step(s, cap, e))
  {
    hide Step, Enabled, LosesWakeup, Leads;
    LeadsNowhere(Step(s, cap, e), cap);
    LeadsFirst(s, cap, e, Step(s, cap, e));
  }

  lemma {:induction false} LeadsAlong(s: State, cap: nat, es: seq<Event>, z: State)
    requires ValidRun(s, cap, es) && Smooth(s, cap, es) && Leads(Run(s, cap, es), cap, z)
    ensures Leads(s, cap, z)
    decreases |es|
  {
    hide Step, Enabled, LosesHand, Leads;
    if es != [] {
      LeadsAlong(Step(s, cap, es[0]), cap, es[1..], z);
      LeadsFirst(s, cap, es[0], z);
    }
  }

  lemma LeadsThrough(s: State, cap: nat, m: State, z: State)
    requires Leads(s, cap, m) && Leads(m, cap, z)
    ensures Leads(s, cap, z)
  {
    var es :| ValidRun(s, cap, es) && Smooth(s, cap, es) && Run(s, cap, es) == m;
    hide Leads, Smooth, ValidRun, Run;
    LeadsAlong(s, cap, es, z);
  }

  lemma LeadsSoundly(s: State, cap: nat, z: State)
    requires Sound(s) && Leads(s, cap, z)
    ensures Sound(z)
  {
    var es :| ValidRun(s, cap, es) && Smooth(s, cap, es) && Run(s, cap, es) == z;
    hide Sound, Smooth, Run, ValidRun;
    SoundRun(s, cap, es);
  }

  /** A section that does not leave loses nothing. */
  lemma LeadsByTurn(s: State, cap: nat, t: Tid, child: Tid)
    requires t in s.threads && (s.threads[t].Marking? ==> child !in s.threads) && !Leaves(s, Turn(t, child, 0))
    ensures Leads(s, cap, Step(s, cap, Turn(t, child, 0)))
  {
    LeadsByOne(s, cap, Turn(t, child, 0));
  }

  lemma LeadsByTwo(s: State, cap: nat, t: Tid, m: State)
    requires t in s.threads && !s.threads[t].Marking? && !Leaves(s, Turn(t, 0, 0)) && m == Step(s, cap, Turn(t, 0, 0))
    requires t in m.threads && !m.threads[t].Marking? && !Leaves(m, Turn(t, 0, 0))
    ensures Leads(s, cap, Step(m, cap, Turn(t, 0, 0)))
  {
    LeadsByTurn(s, cap, t, 0);
    LeadsByTurn(m, cap, t, 0);
    hide Step, Leads;
    LeadsThrough(s, cap, m, Step(m, cap, Turn(t, 0, 0)));
  }

  /** An execution of a Running task ends. */
  lemma Completes(s: State, cap: nat, t: Tid, x: TaskId) returns (m: State)
    requires t in s.threads && s.threads[t] == Executing(x) && Has(s, x, Running)
    ensures Leads(s, cap, m) && RunningCount(m) == RunningCount(s) - 1
    ensures m == s.(tasks := s.tasks[x := Completed], threads := s.threads[t := Pulling(false)])
  {
    m := Step(s, cap, Turn(t, 0, 0));
    LeadsByTurn(s, cap, t, 0);
    assert RunningIds(m) == RunningIds(s) - {x} && x in RunningIds(s);
  }

  /** A thread passes the check and pops. */
  lemma Pops(s: State, cap: nat, t: Tid) returns (m: State)
    requires t in s.threads && s.threads[t] == Pulling(false) && RunningCount(s) < cap && s.pending != []
    ensures Leads(s, cap, m)
    ensures m == s.(pending := s.pending[1..], threads := s.threads[t := Testing(s.pending[0], false)])
  {
    var m1 := Step(s, cap, Turn(t, 0, 0));
    m := Step(m1, cap, Turn(t, 0, 0));
    LeadsByTwo(s, cap, t, m1);
    hide Leads;
  }

  /** A claimed task is switched to Running. */
  lemma Switches(s: State, cap: nat, t: Tid, b: TaskId) returns (child: Tid, m: State)
    requires t in s.threads && s.threads[t] == Starting(b, false) && Has(s, b, Queued)
    ensures Leads(s, cap, m) && child !in s.threads && RunningCount(m) == RunningCount(s) + 1
    ensures m == s.(tasks := s.tasks[b := Running], threads := (s.threads - {t})[child := Executing(b)])
  {
    child, m := SwitchToRunning(s, cap, t, b);
    SwitchCounts(s, m, t, child, b);
    LeadsByTurn(s, cap, t, 0);
    var m1 := Step(s, cap, Turn(t, 0, 0));
    LeadsByTurn(m1, cap, t, child);
    hide Step, Leads;
    LeadsThrough(s, cap, m1, m);
  }

  /** A selected task is started. */
  lemma SelectedStarts(s: State, cap: nat, t: Tid, b: TaskId) returns (child: Tid, m: State)
    requires t in s.threads && s.threads[t] == Testing(b, false) && Has(s, b, Queued)
    ensures Leads(s, cap, m) && child !in s.threads
    ensures m == s.(tasks := s.tasks[b := Running], threads := (s.threads - {t})[child := Executing(b)])
  {
    var m1 := Step(s, cap, Turn(t, 0, 0));
    LeadsByTurn(s, cap, t, 0);
    child, m := Switches(m1, cap, t, b);
    assert m1.threads - {t} == s.threads - {t};
    hide Step, Leads;
    LeadsThrough(s, cap, m1, m);
  }

  lemma Arrives(s: State, cap: nat) returns (n: Tid, b: TaskId, m: State)
    requires TasksAreKnown(s)
    ensures Leads(s, cap, m) && n !in s.threads && b !in s.issued && RunningCount(m) == RunningCount(s)
    ensures m == s.(tasks := s.tasks[b := Queued], threads := s.threads[n := Deciding(b)], issued := s.issued + {b})
  {
    n, b, m := ArriveOnce(s, cap);
    LeadsByOne(s, cap, Arrive(n, b));
  }

  /** A submission that passes its check starts. */
  lemma DecidedStarts(s: State, cap: nat, n: Tid, b: TaskId) returns (child: Tid, m: State)
    requires n in s.threads && s.threads[n] == Deciding(b) && RunningCount(s) < cap && Has(s, b, Queued)
    ensures Leads(s, cap, m) && child !in s.threads && RunningCount(m) == RunningCount(s) + 1
    ensures m == s.(tasks := s.tasks[b := Running], threads := (s.threads - {n})[child := Executing(b)])
  {
    PassTheCheck(s, cap, n, b);
    var m1 := Step(s, cap, Turn(n, 0, 0));
    LeadsByTurn(s, cap, n, 0);
    child, m := Switches(m1, cap, n, b);
    assert m1.threads - {n} == s.threads - {n};
    hide Step, Leads;
    LeadsThrough(s, cap, m1, m);
  }

  /** A submission that fails its check parks. */
  lemma DecidedParks(s: State, cap: nat, n: Tid, b: TaskId)
    requires n in s.threads && s.threads[n] == Deciding(b) && RunningCount(s) >= cap
    ensures Leads(s, cap, s.(threads := s.threads - {n}, pending := s.pending + [b]))
  {
    LeadsByTwo(s, cap, n, Step(s, cap, Turn(n, 0, 0)));
    hide Leads;
  }

  // ---------------------------------------------------------------------
  // Filling the cap
  // ---------------------------------------------------------------------

  lemma OneMore(threads: map<Tid, Pc>, t: Tid, pc: Pc)
    requires t !in threads
    ensures |threads[t := pc]| == |threads| + 1
  {
    assert threads[t := pc].Keys == threads.Keys + {t};
    assert |threads[t := pc].Keys| == |threads.Keys| + 1;
  }

  lemma OneLess(threads: map<Tid, Pc>, t: Tid)
    requires t in threads
    ensures |threads - {t}| == |threads| - 1
  {
    assert (threads - {t}).Keys == threads.Keys - {t};
    assert |(threads - {t}).Keys| == |threads.Keys| - 1;
  }

  /** A submission starts at a free slot. */
  lemma StartsOne(s: State, cap: nat) returns (m: State)
    requires AtRest(s) && s.pending == [] && RunningCount(s) < cap
    ensures Leads(s, cap, m) && AtRest(m) && m.pending == [] && RunningCount(m) == RunningCount(s) + 1
    ensures |m.threads| == |s.threads| + 1
  {
    hide Leads, RunningCount;
    var child, b;
    child, b, m := ArrivesAndStarts(s, cap);
    LeadsSoundly(s, cap, m);
    hide Sound;
    OneMore(s.threads, child, Executing(b));
  }

  lemma ArrivesAndStarts(s: State, cap: nat) returns (child: Tid, b: TaskId, m: State)
    requires Sound(s) && RunningCount(s) < cap
    ensures Leads(s, cap, m) && RunningCount(m) == RunningCount(s) + 1 && m.pending == s.pending
    ensures child !in s.threads && b !in s.issued && m.threads == s.threads[child := Executing(b)] && Has(m, b, Running)
    ensures forall id :: Has(s, id, Queued) ==> Has(m, id, Queued)
  {
    assert TasksAreKnown(s);
    hide Leads, RunningCount, Sound;
    var n, m1;
    n, b, m1 := Arrives(s, cap);
    assert Has(m1, b, Queued) && m1.threads - {n} == s.threads;
    child, m := DecidedStarts(m1, cap, n, b);
    LeadsThrough(s, cap, m1, m);
  }

  lemma {:induction false} FillsTo(s: State, cap: nat, target: nat) returns (z: State)
    requires AtRest(s) && s.pending == [] && RunningCount(s) <= target <= cap
    ensures Leads(s, cap, z) && AtRest(z) && z.pending == [] && RunningCount(z) == target
    ensures |z.threads| - |s.threads| == target - RunningCount(s)
    decreases target - RunningCount(s)
  {
    hide Leads, AtRest, RunningCount;
    if RunningCount(s) == target {
      z := s;
      LeadsNowhere(s, cap);
    } else {
      var m := StartsOne(s, cap);
      z := FillsTo(m, cap, target);
      LeadsThrough(s, cap, m, z);
    }
  }

  /** A submission fails its check and has yet to park. */
  lemma FailsCheck(s: State, cap: nat) returns (n: Tid, b: TaskId, m: State)
    requires AtRest(s) && RunningCount(s) >= cap
    ensures Leads(s, cap, m) && n !in s.threads && b !in s.issued && RunningCount(m) == RunningCount(s)
    ensures m == s.(tasks := s.tasks[b := Queued], threads := s.threads[n := Parking(b)], issued := s.issued + {b})
  {
    var m1;
    n, b, m1 := Arrives(s, cap);
    m := Step(m1, cap, Turn(n, 0, 0));
    LeadsByTurn(m1, cap, n, 0);
    assert RunningIds(m) == RunningIds(m1);
    hide Leads, Step, Sound, RunningCount;
    LeadsThrough(s, cap, m1, m);
  }

  lemma ParksOne(s: State, cap: nat) returns (b: TaskId, m: State)
    requires AtRest(s) && RunningCount(s) >= cap
    ensures Leads(s, cap, m) && AtRest(m) && b !in s.issued && RunningCount(m) == RunningCount(s)
    ensures m == s.(tasks := s.tasks[b := Queued], issued := s.issued + {b}, pending := s.pending + [b])
  {
    var n, m1;
    n, b, m1 := FailsCheck(s, cap);
    m := ParkingLeaves(m1, cap, n, b);
    assert m.threads == s.threads;
    hide Leads, Sound, RunningCount;
    LeadsThrough(s, cap, m1, m);
    LeadsSoundly(s, cap, m);
  }

  lemma SomeExecutor(s: State) returns (t: Tid, x: TaskId)
    requires RunningHaveThreads(s) && RunningCount(s) >= 1
    ensures t in s.threads && s.threads[t] == Executing(x) && Has(s, x, Running)
  {
    assert RunningIds(s) != {};
    x :| x in RunningIds(s);
    assert Has(s, x, Running);
    t :| t in s.threads && s.threads[t] == Executing(x);
  }

  // ---------------------------------------------------------------------
  // The histories
  // ---------------------------------------------------------------------

  /** From every state at rest with a full cap: an execution ends, and before its
      thread pulls, a submission passes the check and starts, however many tasks
      were waiting. */
  lemma OvertakesWithoutCancel(s: State, cap: nat) returns (b: TaskId, z: State)
    requires cap >= 1 && AtRest(s) && RunningCount(s) == cap
    ensures Leads(s, cap, z) && b !in s.issued && Has(z, b, Running)
    ensures z.pending == s.pending && forall id :: Has(s, id, Queued) ==> Has(z, id, Queued)
  {
    var t, x := SomeExecutor(s);
    var m := Completes(s, cap, t, x);
    LeadsSoundly(s, cap, m);
    var child;
    child, b, z := ArrivesAndStarts(m, cap);
    hide Leads, Sound, RunningCount;
    LeadsThrough(s, cap, m, z);
  }

  /** From every state at rest with a full cap of at least two and two parked
      tasks: two executions end, their threads pop one task each, and the second
      task is started and completed while the first still waits for its thread. */
  lemma LaterParkedEndsFirst(s: State, cap: nat) returns (z: State)
    requires cap >= 2 && AtRest(s) && RunningCount(s) == cap && |s.pending| >= 2
    requires Has(s, s.pending[0], Queued) && Has(s, s.pending[1], Queued)
    ensures Leads(s, cap, z) && Has(z, s.pending[0], Queued) && Has(z, s.pending[1], Completed)
  {
    var a, b := s.pending[0], s.pending[1];
    assert a != b;
    var m1, t, u := TwoComplete(s, cap);
    var m2 := Pops(m1, cap, t);
    assert RunningIds(m2) == RunningIds(m1);
    var m3 := Pops(m2, cap, u);
    var child, m4 := SelectedStarts(m3, cap, u, b);
    z := Completes(m4, cap, child, b);
    hide Leads, Sound, RunningCount;
    LeadsThrough(m3, cap, m4, z);
    LeadsThrough(m2, cap, m3, z);
    LeadsThrough(m1, cap, m2, z);
    LeadsThrough(s, cap, m1, z);
  }

  lemma TwoComplete(s: State, cap: nat) returns (m: State, t: Tid, u: Tid)
    requires cap >= 2 && Sound(s) && RunningCount(s) == cap
    ensures Leads(s, cap, m) && RunningCount(m) < cap && m.pending == s.pending
    ensures t in m.threads && u in m.threads && t != u && m.threads[t] == m.threads[u] == Pulling(false)
    ensures forall id :: Has(s, id, Queued) ==> Has(m, id, Queued)
  {
    var x, y;
    t, x := SomeExecutor(s);
    var m1 := Completes(s, cap, t, x);
    LeadsSoundly(s, cap, m1);
    u, y := SomeExecutor(m1);
    m := Completes(m1, cap, u, y);
    hide Leads, Sound, RunningCount;
    LeadsThrough(s, cap, m1, m);
  }

  /** From every state at rest with a full cap of at least two and an empty queue:
      a submission fails its check, an execution ends and its thread finds the
      queue empty, and then the submission parks. No wake-up is lost, as other
      executions are left, but a slot is idle while the task waits. */
  lemma SlotStaysIdle(s: State, cap: nat) returns (b: TaskId, z: State)
    requires cap >= 2 && AtRest(s) && RunningCount(s) == cap && s.pending == []
    ensures Leads(s, cap, z) && AtRest(z) && b !in s.issued
    ensures z.pending == [b] && Has(z, b, Queued) && RunningCount(z) == cap - 1 && |z.threads| == |s.threads| - 1
  {
    var n, m1, t, m2;
    n, b, m1 := FailsCheck(s, cap);
    assert Has(m1, b, Queued);
    hide Leads, Sound, RunningCount, Has;
    LeadsSoundly(s, cap, m1);
    t, m2 := ExecutionLeaves(m1, cap);
    assert t != n;
    z := ParkingLeaves(m2, cap, n, b);
    assert z.threads == s.threads - {t};
    OneLess(s.threads, t);
    LeadsThrough(m1, cap, m2, z);
    LeadsThrough(s, cap, m1, z);
    LeadsSoundly(s, cap, z);
  }

  lemma ParkingLeaves(s: State, cap: nat, n: Tid, b: TaskId) returns (z: State)
    requires n in s.threads && s.threads[n] == Parking(b)
    ensures forall id :: Has(s, id, Queued) ==> Has(z, id, Queued)
    ensures Leads(s, cap, z) && z == s.(threads := s.threads - {n}, pending := s.pending + [b])
    ensures RunningCount(z) == RunningCount(s)
  {
    z := Step(s, cap, Turn(n, 0, 0));
    LeadsByTurn(s, cap, n, 0);
    assert RunningIds(z) == RunningIds(s);
  }

  /** One of at least two executions ends, and its thread finds the queue empty. */
  lemma ExecutionLeaves(s: State, cap: nat) returns (t: Tid, m: State)
    requires Sound(s) && s.pending == [] && 2 <= RunningCount(s) <= cap
    ensures Leads(s, cap, m) && RunningCount(m) == RunningCount(s) - 1 && t in s.threads && s.threads[t].Executing?
    ensures m.threads == s.threads - {t} && m.pending == []
    ensures forall id :: Has(s, id, Queued) ==> Has(m, id, Queued)
  {
    var x;
    t, x := SomeExecutor(s);
    var m1 := Completes(s, cap, t, x);
    LeadsSoundly(s, cap, m1);
    m := FindsNothing(m1, cap, t);
    hide Leads, Sound, RunningCount;
    LeadsThrough(s, cap, m1, m);
  }

  /** A thread passes the check and leaves at an empty queue, while another one
      executes. */
  lemma FindsNothing(s: State, cap: nat, t: Tid) returns (m: State)
    requires Sound(s) && t in s.threads && s.threads[t] == Pulling(false) && s.pending == [] && 1 <= RunningCount(s) < cap
    ensures Leads(s, cap, m) && m == s.(threads := s.threads - {t}) && RunningCount(m) == RunningCount(s)
  {
    var m1 := Step(s, cap, Turn(t, 0, 0));
    LeadsByTurn(s, cap, t, 0);
    var u, x := SomeExecutor(s);
    assert {t, u} <= Actives(m1);
    SubsetSize({t, u}, Actives(m1));
    LeadsByOne(m1, cap, Turn(t, 0, 0));
    m := Step(m1, cap, Turn(t, 0, 0));
    assert m.threads == s.threads - {t};
    assert RunningIds(m) == RunningIds(s);
    hide Leads, Sound, Step, RunningCount;
    LeadsThrough(s, cap, m1, m);
  }

  // ---------------------------------------------------------------------
  // From the empty application
  // ---------------------------------------------------------------------

  lemma CapIsFilled(cap: nat) returns (s: State)
    requires cap >= 1
    ensures Leads(LR.EMPTY, cap, s) && AtRest(s) && s.pending == [] && RunningCount(s) == cap == |s.threads|
  {
    assert RunningIds(LR.EMPTY) == {};
    hide Leads;
    s := FillsTo(LR.EMPTY, cap, cap);
  }

  /** For every cap an application can come to run a submission that arrived after a
      task that still waits in the queue. */
  lemma OvertakenFromEmpty(cap: nat) returns (s: State, a: TaskId, z: State, b: TaskId)
    requires cap >= 1
    ensures Leads(LR.EMPTY, cap, s) && AtRest(s) && WaitsFor(s, a) && b !in s.issued
    ensures Leads(s, cap, z) && WaitsFor(z, a) && Has(z, b, Running)
  {
    var filled := CapIsFilled(cap);
    a, s := ParksOne(filled, cap);
    assert s.pending == [a];
    hide Leads, AtRest, RunningCount;
    LeadsThrough(LR.EMPTY, cap, filled, s);
    b, z := OvertakesWithoutCancel(s, cap);
  }

  /** For every cap of at least two it can come to complete a task parked behind one
      that is still Queued. */
  lemma LaterEndsFirstFromEmpty(cap: nat) returns (s: State, z: State)
    requires cap >= 2
    ensures Leads(LR.EMPTY, cap, s) && AtRest(s) && |s.pending| == 2
    ensures Leads(s, cap, z) && Has(z, s.pending[0], Queued) && Has(z, s.pending[1], Completed)
  {
    var filled := CapIsFilled(cap);
    var a, m := ParksOne(filled, cap);
    var b;
    b, s := ParksOne(m, cap);
    assert s.pending == [a, b] && a != b;
    assert Has(s, s.pending[0], Queued) && Has(s, s.pending[1], Queued);
    hide Leads, AtRest, RunningCount;
    LeadsThrough(LR.EMPTY, cap, filled, m);
    LeadsThrough(LR.EMPTY, cap, m, s);
    z := LaterParkedEndsFirst(s, cap);
  }

  /** And to rest with a task waiting beside an idle slot. */
  lemma SlotIdlesFromEmpty(cap: nat) returns (z: State, b: TaskId)
    requires cap >= 2
    ensures Leads(LR.EMPTY, cap, z) && AtRest(z) && z.pending == [b] && Has(z, b, Queued)
    ensures RunningCount(z) == cap - 1 && !AtHand(z, cap)
  {
    var s := CapIsFilled(cap);
    b, z := SlotStaysIdle(s, cap);
    assert Waiting(z) by { assert WaitsFor(z, b) && b in z.tasks; }
    assert Actives(z) == z.threads.Keys;
    hide Leads, RunningCount, Sound, Waiting, Actives;
    LeadsThrough(LR.EMPTY, cap, s, z);
  }
}
