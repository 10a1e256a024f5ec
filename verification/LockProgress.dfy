/** Progress of the scheduler at the grain of its locks: when a waiting task is
    sure to be woken up, and exactly which lock sections lose a wake-up. */
module LockProgress {
  import opened Tasks
  import opened Sequences
  import opened SchedulerLocks

  // ---------------------------------------------------------------------
  // What every lock section keeps
  // ---------------------------------------------------------------------

  /** The thread has a task in its hands. */
  predicate HasTask(pc: Pc) {
    !pc.Pulling? && !pc.Popping?
  }

  predicate Holds(pc: Pc, id: TaskId) {
    HasTask(pc) && pc.id == id
  }

  /** Some thread has the task, or the queue. */
  predicate InHand(s: State, id: TaskId) {
    id in s.pending || exists t :: t in s.threads && Holds(s.threads[t], id)
  }

  ghost predicate RunningHaveThreads(s: State) {
    forall id :: Has(s, id, Running) ==> exists t :: t in s.threads && s.threads[t] == Executing(id)
  }

  /** The thread has a task that it is not executing yet. */
  predicate Carries(pc: Pc, id: TaskId) {
    Holds(pc, id) && !pc.Executing?
  }

  predicate Carried(s: State, id: TaskId) {
    id in s.pending || exists t :: t in s.threads && Carries(s.threads[t], id)
  }

  ghost predicate QueuedAreHeld(s: State) {
    forall id :: Has(s, id, Queued) ==> Carried(s, id)
  }

  ghost predicate IdsAreKnown(s: State) {
    && TasksAreKnown(s)
    && (forall i :: 0 <= i < |s.pending| ==> s.pending[i] in s.issued)
    && (forall t :: t in s.threads && HasTask(s.threads[t]) ==> s.threads[t].id in s.issued)
  }

  /** A task is in one place at most. */
  ghost predicate OneHolder(s: State) {
    && (forall t, u :: t in s.threads && u in s.threads && t != u && HasTask(s.threads[t]) && HasTask(s.threads[u]) ==>
          s.threads[t].id != s.threads[u].id)
    && (forall i, j :: 0 <= i < j < |s.pending| ==> s.pending[i] != s.pending[j])
    && (forall t, i :: t in s.threads && HasTask(s.threads[t]) && 0 <= i < |s.pending| ==> s.threads[t].id != s.pending[i])
  }

  ghost predicate Sound(s: State) {
    RunningHaveThreads(s) && QueuedAreHeld(s) && IdsAreKnown(s) && OneHolder(s)
  }

  /** No operation is under way: every thread is executing a task. */
  ghost predicate AtRest(s: State) {
    Sound(s) && forall t :: t in s.threads ==> s.threads[t].Executing?
  }

  lemma RunningHaveThreadsStep(s: State, cap: nat, e: Event)
    requires Enabled(s, e) && RunningHaveThreads(s)
    ensures RunningHaveThreads(Step(s, cap, e))
  {
    var s' := Step(s, cap, e);
    forall id | Has(s', id, Running)
      ensures exists t :: t in s'.threads && s'.threads[t] == Executing(id)
    {
      if Has(s, id, Running) {
        var t :| t in s.threads && s.threads[t] == Executing(id);
        assert t in s'.threads && s'.threads[t] == Executing(id);
      } else {
        assert s'.threads[e.child] == Executing(id);
      }
    }
  }

  lemma QueuedAreHeldStep(s: State, cap: nat, e: Event)
    requires Enabled(s, e) && QueuedAreHeld(s)
    ensures QueuedAreHeld(Step(s, cap, e))
  {
    var s' := Step(s, cap, e);
    forall id | Has(s', id, Queued)
      ensures Carried(s', id)
    {
      if e.Arrive? && e.id == id {
        assert Carries(s'.threads[e.n], id);
      } else if id in s.pending {
        if id !in s'.pending {
          assert s.pending[0] == id;
          assert Carries(s'.threads[e.t], id);
        }
      } else {
        assert Has(s, id, Queued) && Carried(s, id);
        var t :| t in s.threads && Carries(s.threads[t], id);
        if e.Turn? && e.t == t {
          assert id in s'.pending || Carries(s'.threads[t], id);
        } else {
          assert Carries(s'.threads[t], id);
        }
      }
    }
  }

  lemma IdsAreKnownStep(s: State, cap: nat, e: Event)
    requires Enabled(s, e) && IdsAreKnown(s)
    ensures IdsAreKnown(Step(s, cap, e))
  {
    if e.Turn? {
      IdsAreKnownTurn(s, cap, e.t, e.child, e.code);
    }
  }

  lemma IdsAreKnownTurn(s: State, cap: nat, t: Tid, child: Tid, code: int)
    requires t in s.threads && IdsAreKnown(s)
    ensures IdsAreKnown(Section(s, cap, t, child, code))
  {
    var s' := Section(s, cap, t, child, code);
    assert HasTask(s.threads[t]) ==> s.threads[t].id in s.issued;
    forall u | u in s'.threads && HasTask(s'.threads[u])
      ensures s'.threads[u].id in s'.issued
    {
      assert u == t || u == child || s'.threads[u] == s.threads[u];
      if s.threads[t].Popping? {
        assert s.pending != [] && u == t ==> s'.threads[u].id == s.pending[0];
      }
    }
  }

  /** No section gives a known task to a second holder. */
  lemma OneHolderStep(s: State, cap: nat, e: Event)
    requires Enabled(s, e) && IdsAreKnown(s) && OneHolder(s)
    ensures OneHolder(Step(s, cap, e))
  {
    if e.Turn? {
      OneHolderTurn(s, cap, e.t, e.child, e.code);
    }
  }

  /** Where a task that thread u holds after a section of t was before it. */
  lemma HeldBefore(s: State, cap: nat, t: Tid, child: Tid, code: int, u: Tid)
    requires t in s.threads && (s.threads[t].Marking? ==> child !in s.threads)
    requires var s' := Section(s, cap, t, child, code); u in s'.threads && HasTask(s'.threads[u])
    ensures var s' := Section(s, cap, t, child, code);
      if s.threads[t].Popping? && u == t then s.pending != [] && s'.threads[u].id == s.pending[0] && s'.pending == s.pending[1..]
      else if s.threads[t].Marking? && u == child then s'.threads[u].id == s.threads[t].id
      else u in s.threads && HasTask(s.threads[u]) && s'.threads[u].id == s.threads[u].id && !(s.threads[t].Marking? && u == t)
  {
  }

  lemma OneHolderTurn(s: State, cap: nat, t: Tid, child: Tid, code: int)
    requires t in s.threads && (s.threads[t].Marking? ==> child !in s.threads) && OneHolder(s)
    ensures OneHolder(Section(s, cap, t, child, code))
  {
    var s' := Section(s, cap, t, child, code);
    forall u, v | u in s'.threads && v in s'.threads && u != v && HasTask(s'.threads[u]) && HasTask(s'.threads[v])
      ensures s'.threads[u].id != s'.threads[v].id
    {
      HeldBefore(s, cap, t, child, code, u);
      HeldBefore(s, cap, t, child, code, v);
    }
    forall u, i | u in s'.threads && HasTask(s'.threads[u]) && 0 <= i < |s'.pending|
      ensures s'.threads[u].id != s'.pending[i]
    {
      HeldBefore(s, cap, t, child, code, u);
    }
  }

  /** A known task that is in no hands stays so. */
  lemma HandsComeFrom(s: State, cap: nat, e: Event, id: TaskId)
    requires Enabled(s, e) && id in s.issued && InHand(Step(s, cap, e), id)
    ensures InHand(s, id)
  {
    var s' := Step(s, cap, e);
    if id in s'.pending {
      if id !in s.pending {
        assert e.Turn? && s.threads[e.t] == Parking(id);
        assert Holds(s.threads[e.t], id);
      }
    } else {
      var u :| u in s'.threads && Holds(s'.threads[u], id);
      if e.Turn? {
        HeldBefore(s, cap, e.t, e.child, e.code, u);
        if s.threads[e.t].Marking? && u == e.child {
          assert Holds(s.threads[e.t], id);
        } else if !(s.threads[e.t].Popping? && u == e.t) {
          assert Holds(s.threads[u], id);
        }
      } else {
        assert u in s.threads && Holds(s.threads[u], id);
      }
    }
  }

  /** The end of an execution lets go of the task for good. */
  lemma ExecutionLetsGo(s: State, cap: nat, t: Tid, child: Tid, code: int)
    requires OneHolder(s) && t in s.threads && s.threads[t].Executing?
    ensures !InHand(Step(s, cap, Turn(t, child, code)), s.threads[t].id)
  {
    var id := s.threads[t].id;
    var s' := Step(s, cap, Turn(t, child, code));
    assert HasTask(s.threads[t]);
    forall u | u in s'.threads
      ensures !Holds(s'.threads[u], id)
    {
      assert u == t || s'.threads[u] == s.threads[u];
    }
  }

  lemma SoundStep(s: State, cap: nat, e: Event)
    requires Enabled(s, e) && Sound(s)
    ensures Sound(Step(s, cap, e))
  {
    hide Enabled, Step;
    RunningHaveThreadsStep(s, cap, e);
    QueuedAreHeldStep(s, cap, e);
    IdsAreKnownStep(s, cap, e);
    OneHolderStep(s, cap, e);
  }

  lemma {:induction false} SoundRun(s: State, cap: nat, es: seq<Event>)
    requires ValidRun(s, cap, es) && Sound(s)
    ensures Sound(Run(s, cap, es))
    decreases |es|
  {
    hide Enabled, Step, Sound;
    if es != [] {
      SoundStep(s, cap, es[0]);
      SoundRun(Step(s, cap, es[0]), cap, es[1..]);
    }
  }

  // ---------------------------------------------------------------------
  // Wake-ups
  // ---------------------------------------------------------------------

  /** The thread will still pull from the queue, or hand over to one that
      will. */
  predicate Active(pc: Pc) {
    !pc.Deciding? && !pc.Parking?
  }

  function Actives(s: State): set<Tid> {
    set t | t in s.threads && Active(s.threads[t])
  }

  predicate HasActive(s: State) {
    exists t :: t in s.threads && Active(s.threads[t])
  }

  lemma ActiveIsOne(s: State)
    ensures HasActive(s) <==> |Actives(s)| >= 1
  {
    if HasActive(s) {
      var t :| t in s.threads && Active(s.threads[t]);
      assert t in Actives(s);
    } else {
      assert Actives(s) == {};
    }
  }

  /** The task waits in the queue, or is on its way there. */
  predicate WaitsFor(s: State, id: TaskId) {
    Has(s, id, Queued) && (id in s.pending || exists t :: t in s.threads && s.threads[t] == Parking(id))
  }

  predicate Waiting(s: State) {
    exists id :: id in s.tasks && WaitsFor(s, id)
  }

  /** While a task waits at least k threads are at hand to pull it. With k the cap
      no slot stays idle beside a waiting task. */
  ghost predicate AtHand(s: State, k: nat) {
    Sound(s) && (Waiting(s) ==> |Actives(s)| >= k)
  }

  ghost predicate Awake(s: State) {
    AtHand(s, 1)
  }

  /** An active thread leaves without looking at the cap again: it finds the queue
      empty, or the task it had selected was removed. */
  predicate Leaves(s: State, e: Event) {
    && e.Turn? && e.t in s.threads
    && ((s.threads[e.t].Popping? && s.pending == [])
        || (s.threads[e.t].Starting? && !s.threads[e.t].again && s.threads[e.t].id !in s.tasks))
  }

  /** One of the last k active threads leaves while a task waits: the task has not
      been parked yet, or the selected one was removed and the thread does not
      pull again. */
  predicate LosesHand(s: State, k: nat, e: Event) {
    Leaves(s, e) && Waiting(s) && |Actives(s)| <= k
  }

  predicate LosesWakeup(s: State, e: Event) {
    LosesHand(s, 1, e)
  }

  lemma WaitingBeforeTurn(s: State, cap: nat, t: Tid, child: Tid, code: int, id: TaskId)
    requires t in s.threads && (s.threads[t].Deciding? ==> RunningCount(s) < cap)
    requires s.threads[t].Marking? ==> child !in s.threads
    requires WaitsFor(Section(s, cap, t, child, code), id)
    ensures WaitsFor(s, id)
  {
    var s' := Section(s, cap, t, child, code);
    if id !in s'.pending {
      var u :| u in s'.threads && s'.threads[u] == Parking(id);
      assert u in s.threads && s.threads[u] == Parking(id);
    } else {
      assert id in s.pending || s.threads[t] == Parking(id);
    }
  }

  /** Only a failed check makes a task wait; every other event finds it waiting
      already. */
  lemma WaitingBefore(s: State, cap: nat, e: Event)
    requires Enabled(s, e) && IdsAreKnown(s) && Waiting(Step(s, cap, e))
    requires e.Turn? && s.threads[e.t].Deciding? ==> RunningCount(s) < cap
    ensures Waiting(s)
  {
    hide Section;
    var s' := Step(s, cap, e);
    var id :| id in s'.tasks && WaitsFor(s', id);
    if e.Turn? {
      WaitingBeforeTurn(s, cap, e.t, e.child, e.code, id);
    } else if id !in s'.pending {
      var t :| t in s'.threads && s'.threads[t] == Parking(id);
      assert t in s.threads && s.threads[t] == Parking(id);
      assert HasTask(s.threads[t]);
    }
    assert id in s.tasks && WaitsFor(s, id);
  }

  lemma OthersStay(s: State, cap: nat, e: Event, u: Tid)
    requires Enabled(s, e) && u in s.threads && (e.Turn? ==> u != e.t)
    ensures u in Step(s, cap, e).threads && Step(s, cap, e).threads[u] == s.threads[u]
  {
  }

  /** The threads that execute a Running task. */
  function Executors(s: State): set<Tid> {
    set t | t in s.threads && s.threads[t].Executing? && Has(s, s.threads[t].id, Running)
  }

  lemma {:induction false} OneThreadEach(s: State, ts: set<Tid>, ids: set<TaskId>)
    requires ts <= s.threads.Keys && OneHolder(s)
    requires forall t :: t in ts ==> HasTask(s.threads[t]) && s.threads[t].id in ids
    requires forall id :: id in ids ==> exists t :: t in ts && s.threads[t] == Executing(id)
    ensures |ts| == |ids|
    decreases ts
  {
    if ts == {} {
      assert ids == {};
    } else {
      var t :| t in ts;
      var id := s.threads[t].id;
      forall x | x in ids - {id}
        ensures exists u :: u in ts - {t} && s.threads[u] == Executing(x)
      {
        var u :| u in ts && s.threads[u] == Executing(x);
        assert u in ts - {t};
      }
      forall u | u in ts - {t}
        ensures s.threads[u].id in ids - {id}
      {
        assert HasTask(s.threads[u]) && HasTask(s.threads[t]);
      }
      OneThreadEach(s, ts - {t}, ids - {id});
    }
  }

  /** One thread for each Running task. */
  lemma ExecutorsCount(s: State)
    requires Sound(s)
    ensures |Executors(s)| == RunningCount(s) && Executors(s) <= Actives(s)
  {
    forall id | id in RunningIds(s)
      ensures exists t :: t in Executors(s) && s.threads[t] == Executing(id)
    {
      assert Has(s, id, Running);
      var t :| t in s.threads && s.threads[t] == Executing(id);
      assert t in Executors(s);
    }
    OneThreadEach(s, Executors(s), RunningIds(s));
  }

  /** The cap check of e finds the cap full. */
  predicate FindsFull(s: State, cap: nat, e: Event) {
    e.Turn? && e.t in s.threads && (s.threads[e.t].Deciding? || s.threads[e.t].Pulling?) && RunningCount(s) >= cap
  }

  /** A section that finds the cap full leaves all executors at hand. */
  lemma FullCapKeepsHands(s: State, cap: nat, t: Tid, child: Tid, code: int)
    requires Sound(s) && t in s.threads && (s.threads[t].Deciding? || s.threads[t].Pulling?) && RunningCount(s) >= cap
    ensures |Actives(Step(s, cap, Turn(t, child, code)))| >= cap
  {
    ExecutorsCount(s);
    var s' := Step(s, cap, Turn(t, child, code));
    assert Executors(s) <= Actives(s');
    SubsetSize(Executors(s), Actives(s'));
  }

  lemma LeavingLosesOne(s: State, cap: nat, e: Event)
    requires Enabled(s, e) && Leaves(s, e)
    ensures var s' := Step(s, cap, e); |Actives(s')| == |Actives(s)| - 1 && (Waiting(s) ==> Waiting(s'))
  {
    var s' := Step(s, cap, e);
    assert Actives(s') == Actives(s) - {e.t} && e.t in Actives(s);
    if Waiting(s) {
      var id :| id in s.tasks && WaitsFor(s, id);
      if id !in s.pending {
        var t :| t in s.threads && s.threads[t] == Parking(id);
        assert t in s'.threads && s'.threads[t] == Parking(id);
      }
      assert id in s'.tasks && WaitsFor(s', id);
    }
  }

  /** The last section of a thread that hands its task over. */
  predicate HandsOver(s: State, e: Event) {
    e.Turn? && e.t in s.threads && s.threads[e.t].Marking? && !s.threads[e.t].again
  }

  lemma HandingOverKeepsHands(s: State, cap: nat, e: Event)
    requires Enabled(s, e) && HandsOver(s, e)
    ensures |Actives(Step(s, cap, e))| == |Actives(s)|
  {
    assert Actives(Step(s, cap, e)) == Actives(s) - {e.t} + {e.child};
    assert e.t in Actives(s) && e.child !in Actives(s);
  }

  lemma ActiveThreadStays(s: State, cap: nat, e: Event, t: Tid)
    requires Enabled(s, e) && !Leaves(s, e) && !HandsOver(s, e) && t in Actives(s)
    requires e.Turn? && s.threads[e.t].Pulling? ==> RunningCount(s) < cap
    ensures t in Actives(Step(s, cap, e))
  {
    if !e.Turn? || t != e.t {
      OthersStay(s, cap, e, t);
    }
  }

  /** Nobody else leaves unless the cap is full. */
  lemma OthersKeepHands(s: State, cap: nat, e: Event)
    requires Enabled(s, e) && !Leaves(s, e) && !FindsFull(s, cap, e)
    ensures |Actives(Step(s, cap, e))| >= |Actives(s)|
  {
    if HandsOver(s, e) {
      HandingOverKeepsHands(s, cap, e);
    } else {
      hide Step, Leaves, HandsOver, Actives;
      var s' := Step(s, cap, e);
      forall t | t in Actives(s)
        ensures t in Actives(s')
      {
        ActiveThreadStays(s, cap, e, t);
      }
      SubsetSize(Actives(s), Actives(s'));
    }
  }

  /** Exactly when a lock section keeps k threads at hand for a waiting task, for
      every k up to the cap. */
  lemma AtHandExactly(s: State, cap: nat, k: nat, e: Event)
    requires 1 <= k <= cap && Enabled(s, e) && AtHand(s, k)
    ensures AtHand(Step(s, cap, e), k) <==> !LosesHand(s, k, e)
  {
    SoundStep(s, cap, e);
    hide Step, Enabled, Actives, Waiting, Leaves, RunningCount, RunningHaveThreads, QueuedAreHeld, OneHolder, IdsAreKnown;
    if FindsFull(s, cap, e) {
      FullCapKeepsHands(s, cap, e.t, e.child, e.code);
      CheckingIsNotLeaving(s, cap, e);
    } else {
      if Waiting(Step(s, cap, e)) {
        WaitingBefore(s, cap, e);
      }
      if Leaves(s, e) {
        LeavingLosesOne(s, cap, e);
      } else {
        OthersKeepHands(s, cap, e);
      }
    }
  }

  lemma CheckingIsNotLeaving(s: State, cap: nat, e: Event)
    requires FindsFull(s, cap, e)
    ensures !Leaves(s, e) && e == Turn(e.t, e.child, e.code)
  {
  }

  /** Exactly when a lock section keeps the scheduler awake. */
  lemma AwakeExactly(s: State, cap: nat, e: Event)
    requires cap >= 1 && Enabled(s, e) && Awake(s)
    ensures Awake(Step(s, cap, e)) <==> !LosesWakeup(s, e)
  {
    AtHandExactly(s, cap, 1, e);
  }

  lemma LosingLeavesNone(s: State, cap: nat, e: Event)
    requires cap >= 1 && Enabled(s, e) && Awake(s) && LosesWakeup(s, e)
    ensures Waiting(Step(s, cap, e)) && !HasActive(Step(s, cap, e))
  {
    hide Sound, Leaves, Waiting, Step;
    AwakeExactly(s, cap, e);
    SoundStep(s, cap, e);
    ActiveIsOne(Step(s, cap, e));
  }

  // ---------------------------------------------------------------------
  // Whole runs
  // ---------------------------------------------------------------------

  /** No section of the run loses one of the last k hands. */
  predicate KeepsHands(s: State, cap: nat, k: nat, es: seq<Event>)
    requires ValidRun(s, cap, es)
    decreases |es|
  {
    es == [] || (!LosesHand(s, k, es[0]) && KeepsHands(Step(s, cap, es[0]), cap, k, es[1..]))
  }

  predicate NothingLost(s: State, cap: nat, es: seq<Event>)
    requires ValidRun(s, cap, es)
  {
    KeepsHands(s, cap, 1, es)
  }

  /** In every state of the run k threads are at hand for a waiting task. */
  ghost predicate AlwaysAtHand(s: State, cap: nat, k: nat, es: seq<Event>)
    requires ValidRun(s, cap, es)
    decreases |es|
  {
    AtHand(s, k) && (es == [] || AlwaysAtHand(Step(s, cap, es[0]), cap, k, es[1..]))
  }

  ghost predicate AlwaysAwake(s: State, cap: nat, es: seq<Event>)
    requires ValidRun(s, cap, es)
  {
    AlwaysAtHand(s, cap, 1, es)
  }

  /** A run has k threads at hand throughout exactly when it loses none of the last
      k. */
  lemma {:induction false} RunAtHandExactly(s: State, cap: nat, k: nat, es: seq<Event>)
    requires 1 <= k <= cap && ValidRun(s, cap, es) && AtHand(s, k)
    ensures AlwaysAtHand(s, cap, k, es) <==> KeepsHands(s, cap, k, es)
    decreases |es|
  {
    hide AtHand, LosesHand, Step, Enabled;
    if es != [] {
      AtHandExactly(s, cap, k, es[0]);
      if !LosesHand(s, k, es[0]) {
        RunAtHandExactly(Step(s, cap, es[0]), cap, k, es[1..]);
      } else {
        ShortHandedIsNotAlways(Step(s, cap, es[0]), cap, k, es[1..]);
      }
    }
  }

  lemma ShortHandedIsNotAlways(s: State, cap: nat, k: nat, es: seq<Event>)
    requires ValidRun(s, cap, es) && !AtHand(s, k)
    ensures !AlwaysAtHand(s, cap, k, es)
  {
  }

  lemma {:induction false} AtHandAtTheEnd(s: State, cap: nat, k: nat, es: seq<Event>)
    requires ValidRun(s, cap, es) && AlwaysAtHand(s, cap, k, es)
    ensures AtHand(Run(s, cap, es), k)
    decreases |es|
  {
    hide AtHand, Step, Enabled;
    if es != [] {
      AtHandAtTheEnd(Step(s, cap, es[0]), cap, k, es[1..]);
    }
  }

  /** A run is awake throughout exactly when it loses no wake-up. */
  lemma RunAwakeExactly(s: State, cap: nat, es: seq<Event>)
    requires cap >= 1 && ValidRun(s, cap, es) && Awake(s)
    ensures AlwaysAwake(s, cap, es) <==> NothingLost(s, cap, es)
  {
    RunAtHandExactly(s, cap, 1, es);
  }

  /** Work conservation between lock sections: when a run that loses no slot has
      come to rest, a task waits only while live executions fill the cap. */
  lemma SlotsAreFilledAtRest(s: State, cap: nat, es: seq<Event>)
    requires cap >= 1 && ValidRun(s, cap, es) && AtHand(s, cap) && KeepsHands(s, cap, cap, es)
    requires AtRest(Run(s, cap, es)) && Waiting(Run(s, cap, es))
    ensures |Run(s, cap, es).threads| >= cap
  {
    hide Run, ValidRun, AlwaysAtHand, KeepsHands, Waiting;
    RunAtHandExactly(s, cap, cap, es);
    AtHandAtTheEnd(s, cap, cap, es);
    var s' := Run(s, cap, es);
    assert Actives(s') == s'.threads.Keys;
    assert |s'.threads| == |s'.threads.Keys|;
  }

  /** No deadlock between lock sections: when a run that loses no wake-up has come
      to rest, no task is left waiting. */
  lemma NoTaskLeftBehind(s: State, cap: nat, es: seq<Event>)
    requires cap >= 1 && ValidRun(s, cap, es) && Awake(s) && NothingLost(s, cap, es)
    requires Run(s, cap, es).threads == map[]
    ensures forall id :: id in Run(s, cap, es).tasks ==> Run(s, cap, es).tasks[id].Terminal()
  {
    RunAwakeExactly(s, cap, es);
    AtHandAtTheEnd(s, cap, 1, es);
    var s' := Run(s, cap, es);
    ActiveIsOne(s');
    hide Run, ValidRun, AlwaysAwake, NothingLost;
    forall id | id in s'.tasks
      ensures s'.tasks[id].Terminal()
    {
      assert !HasActive(s') && !Waiting(s');
      assert !WaitsFor(s', id);
      assert Has(s', id, Queued) ==> Carried(s', id);
      assert !Has(s', id, Running);
    }
  }

  // ---------------------------------------------------------------------
  // What a lost wake-up costs
  // ---------------------------------------------------------------------

  /** A task waits and no thread is left to pull it. */
  ghost predicate Stuck(s: State, w: TaskId) {
    Sound(s) && WaitsFor(s, w) && !HasActive(s)
  }

  lemma RunningIsActive(s: State, id: TaskId)
    requires RunningHaveThreads(s) && Has(s, id, Running)
    ensures HasActive(s)
  {
    var t :| t in s.threads && s.threads[t] == Executing(id);
    assert Active(s.threads[t]);
  }

  lemma NothingRuns(s: State)
    requires Sound(s) && !HasActive(s)
    ensures RunningIds(s) == {}
  {
    forall id
      ensures id !in RunningIds(s)
    {
      if Has(s, id, Running) {
        RunningIsActive(s, id);
      }
    }
  }

  /** A waiting submission parks. */
  lemma ParkerLeaves(s: State, cap: nat, w: TaskId, t: Tid)
    requires Stuck(s, w) && t in s.threads && s.threads[t].Parking?
    ensures var m := Step(s, cap, Turn(t, 0, 0)); Stuck(m, w) && m.threads == s.threads - {t}
  {
    SoundStep(s, cap, Turn(t, 0, 0));
    var m := Step(s, cap, Turn(t, 0, 0));
    assert WaitsFor(m, w) by {
      if w !in s.pending && s.threads[t] != Parking(w) {
        var u :| u in s.threads && s.threads[u] == Parking(w);
        assert m.threads[u] == Parking(w);
      }
    }
  }

  /** The state in which a submission's task has been cancelled and removed, and
      its thread is gone. */
  function Withdrawn(s: State, t: Tid, d: TaskId): State {
    s.(tasks := s.tasks - {d}, threads := s.threads - {t})
  }

  lemma SubmitterWithdraws(s: State, cap: nat, t: Tid, d: TaskId) returns (es: seq<Event>)
    requires cap >= 1 && t in s.threads && s.threads[t] == Deciding(d) && RunningIds(s) == {}
    ensures ValidRun(s, cap, es) && Run(s, cap, es) == Withdrawn(s, t, d)
  {
    var s1 := Step(s, cap, CancelTask(d));
    var s2 := Step(s1, cap, Remove(d));
    assert s2.tasks == s.tasks - {d};
    assert RunningIds(s2) == {};
    var s3 := Step(s2, cap, Turn(t, 0, 0));
    var s4 := Step(s3, cap, Turn(t, 0, 0));
    assert s4.threads == s.threads - {t};
    RunCons(s3, cap, Turn(t, 0, 0), []);
    RunCons(s2, cap, Turn(t, 0, 0), [Turn(t, 0, 0)] + []);
    es := [Turn(t, 0, 0)] + ([Turn(t, 0, 0)] + []);
    RunCons(s1, cap, Remove(d), es);
    es := [Remove(d)] + es;
    RunCons(s, cap, CancelTask(d), es);
    es := [CancelTask(d)] + es;
  }

  lemma WithdrawnIsStuck(s: State, w: TaskId, t: Tid, d: TaskId)
    requires Stuck(s, w) && t in s.threads && s.threads[t] == Deciding(d) && Sound(Withdrawn(s, t, d))
    ensures Stuck(Withdrawn(s, t, d), w)
  {
    var m := Withdrawn(s, t, d);
    assert HasTask(s.threads[t]);
    if w in s.pending {
      assert w != d;
    } else {
      var u :| u in s.threads && s.threads[u] == Parking(w);
      assert HasTask(s.threads[u]) && w != d;
      assert m.threads[u] == Parking(w);
    }
  }

  /** From there the threads that are left can all leave without starting it. */
  lemma {:induction false} StuckComesToRest(s: State, cap: nat, w: TaskId) returns (es: seq<Event>)
    requires cap >= 1 && Stuck(s, w)
    ensures ValidRun(s, cap, es)
    ensures var s' := Run(s, cap, es); s'.threads == map[] && Stuck(s', w)
    decreases |s.threads|
  {
    hide Sound, WaitsFor, Step;
    if s.threads == map[] {
      es := [];
    } else {
      var t :| t in s.threads;
      assert !Active(s.threads[t]);
      if s.threads[t].Parking? {
        ParkerLeaves(s, cap, w, t);
        var rest := StuckComesToRest(Step(s, cap, Turn(t, 0, 0)), cap, w);
        RunCons(s, cap, Turn(t, 0, 0), rest);
        es := [Turn(t, 0, 0)] + rest;
      } else {
        var d := s.threads[t].id;
        NothingRuns(s);
        var leave := SubmitterWithdraws(s, cap, t, d);
        SoundRun(s, cap, leave);
        WithdrawnIsStuck(s, w, t, d);
        var rest := StuckComesToRest(Withdrawn(s, t, d), cap, w);
        RunAppend(s, cap, leave, rest);
        es := leave + rest;
      }
    }
  }

  /** A lost wake-up is a real loss: the run can go on and come to rest with a
      task still Queued and nothing running. */
  lemma LostWakeupLeavesTask(s: State, cap: nat, e: Event) returns (es: seq<Event>, w: TaskId)
    requires cap >= 1 && Enabled(s, e) && Awake(s) && LosesWakeup(s, e)
    ensures ValidRun(Step(s, cap, e), cap, es)
    ensures var s' := Run(Step(s, cap, e), cap, es);
      s'.threads == map[] && Has(s', w, Queued) && RunningCount(s') == 0
  {
    SoundStep(s, cap, e);
    LosingLeavesNone(s, cap, e);
    var m := Step(s, cap, e);
    w :| w in m.tasks && WaitsFor(m, w);
    es := StuckComesToRest(m, cap, w);
    NothingRuns(Run(m, cap, es));
  }

  // ---------------------------------------------------------------------
  // Both losses happen
  // ---------------------------------------------------------------------

  /** One execution ends and finds nothing in the queue, while submission n has
      yet to park b. */
  lemma ExecutionEnds(s: State, cap: nat, n: Tid, b: TaskId, t: Tid) returns (es: seq<Event>, m: State)
    requires Sound(s) && s.pending == [] && Has(s, b, Queued)
    requires n in s.threads && s.threads[n] == Parking(b) && t in s.threads && s.threads[t].Executing? && t != n
    ensures ValidRun(s, cap, es) && Run(s, cap, es) == m
    ensures m.threads == s.threads - {t} && m.pending == [] && Has(m, b, Queued) && Sound(m)
  {
    var e := Turn(t, 0, 0);
    assert HasTask(s.threads[n]) && HasTask(s.threads[t]);
    var s1 := Step(s, cap, e);
    var s2 := Step(s1, cap, e);
    if RunningCount(s1) < cap {
      m := Step(s2, cap, e);
      assert m.threads == s.threads - {t};
      RunCons(s2, cap, e, []);
      RunCons(s1, cap, e, [e] + []);
      RunCons(s, cap, e, [e] + ([e] + []));
      es := [e] + ([e] + ([e] + []));
    } else {
      m := s2;
      assert m.threads == s.threads - {t};
      RunCons(s1, cap, e, []);
      RunCons(s, cap, e, [e] + []);
      es := [e] + ([e] + []);
    }
    SoundRun(s, cap, es);
  }

  lemma {:induction false} ExecutionsEnd(s: State, cap: nat, n: Tid, b: TaskId) returns (es: seq<Event>)
    requires Sound(s) && s.pending == [] && Has(s, b, Queued)
    requires n in s.threads && s.threads[n] == Parking(b)
    requires forall t :: t in s.threads && t != n ==> s.threads[t].Executing?
    ensures ValidRun(s, cap, es)
    ensures var s' := Run(s, cap, es); s'.threads == map[n := Parking(b)] && Stuck(s', b)
    decreases |s.threads|
  {
    hide Sound, Step, Enabled;
    if t :| t in s.threads && t != n {
      var end, m := ExecutionEnds(s, cap, n, b, t);
      var rest := ExecutionsEnd(m, cap, n, b);
      RunAppend(s, cap, end, rest);
      es := end + rest;
    } else {
      es := [];
      assert s.threads == map[n := Parking(b)];
    }
  }

  /** From every state at rest with a full cap and an empty queue: the next
      submission fails its check, every execution ends and finds the queue empty,
      and only then does the submission park. Nothing is left to start it. */
  lemma LateParkingIsLost(s: State, cap: nat) returns (es: seq<Event>, b: TaskId)
    requires cap >= 1 && AtRest(s) && s.pending == [] && RunningCount(s) >= cap
    ensures b !in s.issued && ValidRun(s, cap, es)
    ensures var s' := Run(s, cap, es); s'.threads == map[] && Has(s', b, Queued) && RunningCount(s') == 0
  {
    assert TasksAreKnown(s);
    hide Sound, Step;
    var n, id, m := ArriveOnce(s, cap);
    b := id;
    var m1 := FailedCheck(m, cap, n, b);
    SoundStep(s, cap, Arrive(n, b));
    SoundStep(m, cap, Turn(n, 0, 0));
    var ends := ExecutionsEnd(m1, cap, n, b);
    var last := StuckComesToRest(Run(m1, cap, ends), cap, b);
    RunAppend(m1, cap, ends, last);
    RunCons(m, cap, Turn(n, 0, 0), ends + last);
    RunCons(s, cap, Arrive(n, b), [Turn(n, 0, 0)] + (ends + last));
    es := [Arrive(n, b)] + ([Turn(n, 0, 0)] + (ends + last));
    NothingRuns(Run(s, cap, es));
  }

  lemma FailedCheck(s: State, cap: nat, n: Tid, b: TaskId) returns (m: State)
    requires n in s.threads && s.threads[n] == Deciding(b) && RunningCount(s) >= cap
    ensures Enabled(s, Turn(n, 0, 0)) && m == Step(s, cap, Turn(n, 0, 0)) && m == s.(threads := s.threads[n := Parking(b)])
  {
    m := Step(s, cap, Turn(n, 0, 0));
  }

  /** From every state at rest with one execution and two parked tasks: the end of
      the execution selects the first, which is removed before it starts; the slot
      is not offered to the second. */
  lemma RemovedSelectionIsLost(s: State, cap: nat, t: Tid, a: TaskId, b: TaskId) returns (es: seq<Event>)
    requires cap >= 1 && AtRest(s) && s.threads.Keys == {t} && s.pending == [a, b] && Has(s, a, Queued) && Has(s, b, Queued)
    ensures ValidRun(s, cap, es)
    ensures var s' := Run(s, cap, es); s'.threads == map[] && Has(s', b, Queued) && RunningCount(s') == 0
  {
    assert s.pending[0] == a && s.pending[1] == b;
    var select, m := SelectionMade(s, cap, t, a);
    var e := Turn(t, 0, 0);
    var s1 := Step(m, cap, CancelTask(a));
    var s2 := Step(s1, cap, Remove(a));
    var s3 := Step(s2, cap, e);
    assert s3.threads == map[];
    RunCons(s2, cap, e, []);
    RunCons(s1, cap, Remove(a), [e] + []);
    RunCons(m, cap, CancelTask(a), [Remove(a)] + ([e] + []));
    var rest := [CancelTask(a)] + ([Remove(a)] + ([e] + []));
    RunAppend(s, cap, select, rest);
    es := select + rest;
    SoundRun(s, cap, es);
    NothingRuns(s3);
  }

  /** The only execution ends and its thread selects the first parked task. */
  lemma SelectionMade(s: State, cap: nat, t: Tid, a: TaskId) returns (es: seq<Event>, m: State)
    requires cap >= 1 && AtRest(s) && s.threads.Keys == {t} && s.pending != [] && s.pending[0] == a && Has(s, a, Queued)
    ensures ValidRun(s, cap, es) && Run(s, cap, es) == m
    ensures m.threads == map[t := Starting(a, false)] && m.pending == s.pending[1..] && m.issued == s.issued && Sound(m)
    ensures forall id :: Has(s, id, Queued) ==> Has(m, id, Queued)
  {
    var e := Turn(t, 0, 0);
    assert HasTask(s.threads[t]);
    var s1 := Step(s, cap, e);
    SoundStep(s, cap, e);
    assert s1.threads == map[t := Pulling(false)];
    assert RunningIds(s1) == {} by {
      assert forall id :: id in RunningIds(s1) ==> Has(s1, id, Running);
    }
    QueuedIsNotExecuting(s, t);
    assert forall id :: Has(s, id, Queued) ==> Has(s1, id, Queued);
    var s2 := Step(s1, cap, e);
    var s3 := Step(s2, cap, e);
    m := Step(s3, cap, e);
    assert m.threads == map[t := Starting(a, false)];
    RunCons(s3, cap, e, []);
    RunCons(s2, cap, e, [e] + []);
    RunCons(s1, cap, e, [e] + ([e] + []));
    es := [e] + ([e] + ([e] + []));
    RunCons(s, cap, e, es);
    es := [e] + es;
    SoundRun(s, cap, es);
  }

  lemma QueuedIsNotExecuting(s: State, t: Tid)
    requires AtRest(s) && s.threads.Keys == {t}
    ensures !Has(s, s.threads[t].id, Queued)
  {
    assert HasTask(s.threads[t]);
    var x := s.threads[t].id;
    assert Has(s, x, Queued) ==> Carried(s, x);
  }
}
