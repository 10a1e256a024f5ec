/** The scheduler at the grain of its locks: every lock section is one step,
    any number of threads interleave, and the cap is fixed. The cap check and
    the switch to Running are different sections, so some guarantees of the
    atomic model become bounds, and some need a condition. */
module SchedulerLocks {
  import opened Tasks
  import opened Sequences

  type Tid = nat

  /** Where a thread stands between two lock sections. `again` marks the loop
      of set_max_concurrent, which keeps pulling while it starts something. */
  datatype Pc =
    | Deciding(id: TaskId)                 // task added, cap not yet checked
    | Parking(id: TaskId)                  // check failed, not yet in the queue
    | Starting(id: TaskId, again: bool)    // check passed, arguments not yet read
    | Marking(id: TaskId, again: bool)     // arguments read, not yet Running
    | Executing(id: TaskId)                // the sandbox is at work
    | Pulling(again: bool)                 // about to check the cap
    | Popping(again: bool)                 // check passed, about to pop
    | Testing(id: TaskId, again: bool)     // popped, about to look at its status

  datatype State = State(
    tasks: map<TaskId, Status>,
    pending: seq<TaskId>,
    threads: map<Tid, Pc>,
    issued: set<TaskId>
  )

  datatype Event =
    | Arrive(n: nat, id: TaskId)    // a submission has added its task
    | Reapply(n: nat)               // set_max_concurrent with the same cap
    | Turn(t: Tid, child: Tid, code: int)    // t runs its next lock section
    | CancelTask(id: TaskId)
    | Remove(id: TaskId)

  function RunningIds(s: State): set<TaskId> {
    set id | id in s.tasks && s.tasks[id] == Running
  }

  function RunningCount(s: State): nat {
    |RunningIds(s)|
  }

  predicate Has(s: State, id: TaskId, status: Status) {
    id in s.tasks && s.tasks[id] == status
  }

  predicate Enabled(s: State, e: Event) {
    match e
    case Arrive(n, id) => n !in s.threads && id !in s.issued
    case Reapply(n) => n !in s.threads
    case Turn(t, child, _) => t in s.threads && (s.threads[t].Marking? ==> child !in s.threads)
    case _ => true
  }

  function Done(s: State, t: Tid, again: bool): State {
    s.(threads := if again then s.threads[t := Pulling(true)] else s.threads - {t})
  }

  function Goto(s: State, t: Tid, pc: Pc): State {
    s.(threads := s.threads[t := pc])
  }

  function Section(s: State, cap: nat, t: Tid, child: Tid, code: int): State
    requires t in s.threads
  {
    match s.threads[t]
    case Deciding(id) =>
      Goto(s, t, if RunningCount(s) < cap then Starting(id, false) else Parking(id))
    case Parking(id) =>
      Done(s.(pending := s.pending + [id]), t, false)
    case Starting(id, again) =>
      if id in s.tasks then Goto(s, t, Marking(id, again)) else Done(s, t, again)
    case Marking(id, again) =>
      Goto(Done(s.(tasks := if id in s.tasks then s.tasks[id := Running] else s.tasks), t, again),
           child, Executing(id))
    case Executing(id) =>
      Goto(s.(tasks := if id in s.tasks && s.tasks[id] != Cancelled
                       then s.tasks[id := if code == 0 then Completed else Failed] else s.tasks),
           t, Pulling(false))
    case Pulling(again) =>
      if RunningCount(s) < cap then Goto(s, t, Popping(again)) else Done(s, t, false)
    case Popping(again) =>
      if s.pending == [] then Done(s, t, false)
      else Goto(s.(pending := s.pending[1..]), t, Testing(s.pending[0], again))
    case Testing(id, again) =>
      Goto(s, t, if Has(s, id, Queued) then Starting(id, again) else Pulling(again))
  }

  function Step(s: State, cap: nat, e: Event): State
    requires Enabled(s, e)
  {
    match e
    case Arrive(n, id) =>
      s.(tasks := s.tasks[id := Queued], threads := s.threads[n := Deciding(id)], issued := s.issued + {id})
    case Reapply(n) => Goto(s, n, Pulling(true))
    case Turn(t, child, code) => Section(s, cap, t, child, code)
    case CancelTask(id) =>
      if id in s.tasks && !s.tasks[id].Terminal() then s.(tasks := s.tasks[id := Cancelled]) else s
    case Remove(id) =>
      if id in s.tasks && s.tasks[id].Terminal() then s.(tasks := s.tasks - {id}) else s
  }

  predicate ValidRun(s: State, cap: nat, es: seq<Event>)
    decreases |es|
  {
    es == [] || (Enabled(s, es[0]) && ValidRun(Step(s, cap, es[0]), cap, es[1..]))
  }

  function Run(s: State, cap: nat, es: seq<Event>): State
    requires ValidRun(s, cap, es)
    decreases |es|
  {
    if es == [] then s else Run(Step(s, cap, es[0]), cap, es[1..])
  }

  lemma {:induction false} RunAppend(s: State, cap: nat, es: seq<Event>, fs: seq<Event>)
    requires ValidRun(s, cap, es) && ValidRun(Run(s, cap, es), cap, fs)
    ensures ValidRun(s, cap, es + fs) && Run(s, cap, es + fs) == Run(Run(s, cap, es), cap, fs)
    decreases |es|
  {
    if es == [] {
      assert es + fs == fs;
    } else {
      assert (es + fs)[1..] == es[1..] + fs;
      RunAppend(Step(s, cap, es[0]), cap, es[1..], fs);
    }
  }

  lemma RunCons(s: State, cap: nat, e: Event, es: seq<Event>)
    requires Enabled(s, e) && ValidRun(Step(s, cap, e), cap, es)
    ensures ValidRun(s, cap, [e] + es) && Run(s, cap, [e] + es) == Run(Step(s, cap, e), cap, es)
  {
    assert ([e] + es)[1..] == es;
  }

  lemma {:induction false} FreshAbove(used: set<Tid>) returns (n: Tid)
    ensures forall t :: t in used ==> t < n
  {
    if used == {} {
      n := 0;
    } else {
      var x :| x in used;
      var m := FreshAbove(used - {x});
      n := if x < m then m else x + 1;
      assert forall t :: t in used ==> t == x || t in used - {x};
    }
  }

  lemma FreshThread(s: State) returns (n: Tid)
    ensures n !in s.threads
  {
    n := FreshAbove(s.threads.Keys);
  }

  // ---------------------------------------------------------------------
  // How far the cap can be exceeded
  // ---------------------------------------------------------------------

  /** Past the cap check, not yet Running. */
  predicate InWindow(pc: Pc) {
    pc.Starting? || pc.Marking? || pc.Popping? || pc.Testing?
  }

  function Window(s: State): set<Tid> {
    set t | t in s.threads && InWindow(s.threads[t])
  }

  /** At most k threads are in the window in every state of the run. */
  predicate WindowWithin(s: State, cap: nat, es: seq<Event>, k: nat)
    requires ValidRun(s, cap, es)
    decreases |es|
  {
    |Window(s)| <= k && (es == [] || WindowWithin(Step(s, cap, es[0]), cap, es[1..], k))
  }

  predicate Bounded(s: State, cap: nat, k: nat) {
    RunningCount(s) + |Window(s)| <= cap + k - 1
  }

  lemma MarkingKeepsSum(s: State, cap: nat, t: Tid, child: Tid, code: int)
    requires t in s.threads && s.threads[t].Marking? && child !in s.threads
    ensures var s' := Section(s, cap, t, child, code);
      RunningCount(s') + |Window(s')| <= RunningCount(s) + |Window(s)|
  {
    var s' := Section(s, cap, t, child, code);
    var id := s.threads[t].id;
    assert RunningIds(s') <= RunningIds(s) + {id};
    assert Window(s') <= Window(s) - {t};
    SubsetSize(RunningIds(s'), RunningIds(s) + {id});
    SubsetSize(Window(s'), Window(s) - {t});
  }

  lemma OthersStartNothing(s: State, cap: nat, e: Event)
    requires Enabled(s, e) && !(e.Turn? && s.threads[e.t].Marking?)
    ensures RunningCount(Step(s, cap, e)) <= RunningCount(s)
    ensures RunningCount(s) < cap || |Window(Step(s, cap, e))| <= |Window(s)|
         || !(e.Turn? && (s.threads[e.t].Deciding? || s.threads[e.t].Pulling?))
  {
    var s' := Step(s, cap, e);
    assert RunningIds(s') <= RunningIds(s);
    SubsetSize(RunningIds(s'), RunningIds(s));
    if RunningCount(s) >= cap && e.Turn? && (s.threads[e.t].Deciding? || s.threads[e.t].Pulling?) {
      assert Window(s') <= Window(s);
      SubsetSize(Window(s'), Window(s));
    }
  }

  lemma OnlyChecksWiden(s: State, cap: nat, e: Event)
    requires Enabled(s, e) && !(e.Turn? && (s.threads[e.t].Marking? || s.threads[e.t].Deciding? || s.threads[e.t].Pulling?))
    ensures |Window(Step(s, cap, e))| <= |Window(s)|
  {
    var s' := Step(s, cap, e);
    assert Window(s') <= Window(s);
    SubsetSize(Window(s'), Window(s));
  }

  lemma StepKeepsBound(s: State, cap: nat, e: Event, k: nat)
    requires cap >= 1 && k >= 1 && Enabled(s, e) && Bounded(s, cap, k)
    requires |Window(Step(s, cap, e))| <= k
    ensures Bounded(Step(s, cap, e), cap, k)
  {
    if e.Turn? && s.threads[e.t].Marking? {
      MarkingKeepsSum(s, cap, e.t, e.child, e.code);
    } else {
      OthersStartNothing(s, cap, e);
      if !(e.Turn? && (s.threads[e.t].Deciding? || s.threads[e.t].Pulling?)) {
        OnlyChecksWiden(s, cap, e);
      }
    }
  }

  /** However the lock sections interleave, if at most k threads at a time are
      between the cap check and the switch to Running, at most cap + k - 1
      tasks are Running; with k = 1 that is the cap itself. */
  lemma {:induction false} RunningAtMostCapPlusWindow(s: State, cap: nat, es: seq<Event>, k: nat)
    requires cap >= 1 && k >= 1
    requires ValidRun(s, cap, es) && WindowWithin(s, cap, es, k)
    requires Bounded(s, cap, k)
    ensures RunningCount(Run(s, cap, es)) <= cap + k - 1
    decreases |es|
  {
    if es != [] {
      StepKeepsBound(s, cap, es[0], k);
      RunningAtMostCapPlusWindow(Step(s, cap, es[0]), cap, es[1..], k);
    }
  }

  lemma OneEvent(s: State, cap: nat, e: Event, es: seq<Event>, k: nat)
    requires Enabled(s, e) && |Window(s)| <= k
    requires ValidRun(Step(s, cap, e), cap, es) && WindowWithin(Step(s, cap, e), cap, es, k)
    ensures ValidRun(s, cap, [e] + es) && WindowWithin(s, cap, [e] + es, k)
    ensures Run(s, cap, [e] + es) == Run(Step(s, cap, e), cap, es)
  {
    hide Step, Enabled, Window;
    assert ([e] + es)[1..] == es;
  }

  lemma {:induction false} WithinAppend(s: State, cap: nat, es: seq<Event>, fs: seq<Event>, k: nat)
    requires ValidRun(s, cap, es) && ValidRun(Run(s, cap, es), cap, fs)
    requires WindowWithin(s, cap, es, k) && WindowWithin(Run(s, cap, es), cap, fs, k)
    ensures ValidRun(s, cap, es + fs) && WindowWithin(s, cap, es + fs, k)
    ensures Run(s, cap, es + fs) == Run(Run(s, cap, es), cap, fs)
    decreases |es|
  {
    RunAppend(s, cap, es, fs);
    if es == [] {
      assert es + fs == fs;
    } else {
      assert (es + fs)[1..] == es[1..] + fs;
      WithinAppend(Step(s, cap, es[0]), cap, es[1..], fs, k);
    }
  }

  /** Submissions of distinct new tasks that all stand at the same point. */
  ghost predicate AllAt(s: State, cs: seq<Tid>, ids: seq<TaskId>, started: bool) {
    && |ids| == |cs|
    && (forall i, j :: 0 <= i < j < |cs| ==> cs[i] != cs[j] && ids[i] != ids[j])
    && (forall i :: 0 <= i < |cs| ==>
          && cs[i] in s.threads
          && s.threads[cs[i]] == (if started then Starting(ids[i], false) else Deciding(ids[i]))
          && Has(s, ids[i], Queued))
  }

  lemma AllAtTail(s: State, m: State, cs: seq<Tid>, ids: seq<TaskId>, started: bool)
    requires AllAt(s, cs, ids, started) && cs != []
    requires forall i :: 0 < i < |cs| ==> Has(m, ids[i], Queued)
    requires forall t :: t in s.threads && t != cs[0] ==> t in m.threads && m.threads[t] == s.threads[t]
    ensures AllAt(m, cs[1..], ids[1..], started)
  {
    assert forall i :: 0 <= i < |cs[1..]| ==> cs[1..][i] == cs[i + 1] && ids[1..][i] == ids[i + 1];
  }

  lemma AllAtCons(s: State, cs: seq<Tid>, ids: seq<TaskId>, started: bool)
    requires |ids| == |cs| > 0
    requires forall i, j :: 0 <= i < j < |cs| ==> cs[i] != cs[j] && ids[i] != ids[j]
    requires AllAt(s, cs[1..], ids[1..], started) && Has(s, ids[0], Queued)
    requires cs[0] in s.threads && s.threads[cs[0]] == if started then Starting(ids[0], false) else Deciding(ids[0])
    ensures AllAt(s, cs, ids, started)
  {
    assert forall i :: 0 < i < |cs| ==> cs[i] == cs[1..][i - 1] && ids[i] == ids[1..][i - 1];
  }

  lemma PassTheCheck(s: State, cap: nat, t: Tid, id: TaskId)
    requires t in s.threads && s.threads[t] == Deciding(id) && RunningCount(s) < cap
    ensures Enabled(s, Turn(t, 0, 0))
    ensures var m := Step(s, cap, Turn(t, 0, 0));
      && m == s.(threads := s.threads[t := Starting(id, false)])
      && |Window(m)| == |Window(s)| + 1 && RunningCount(m) == RunningCount(s)
  {
    var m := Step(s, cap, Turn(t, 0, 0));
    assert Window(m) == Window(s) + {t};
    assert RunningIds(m) == RunningIds(s);
  }

  lemma {:induction false} AllPassTheCheck(s: State, cap: nat, cs: seq<Tid>, ids: seq<TaskId>, k: nat) returns (es: seq<Event>)
    requires AllAt(s, cs, ids, false) && RunningCount(s) < cap && |Window(s)| + |cs| <= k
    ensures ValidRun(s, cap, es) && WindowWithin(s, cap, es, k)
    ensures var s' := Run(s, cap, es);
      && s'.tasks == s.tasks
      && |Window(s')| == |Window(s)| + |cs|
      && (forall t :: t in s.threads && t !in cs ==> t in s'.threads && s'.threads[t] == s.threads[t])
      && AllAt(s', cs, ids, true)
    decreases |cs|
  {
    hide Step, Enabled, Window, RunningCount;
    if cs == [] {
      es := [];
    } else {
      var t := cs[0];
      PassTheCheck(s, cap, t, ids[0]);
      var m := Step(s, cap, Turn(t, 0, 0));
      AllAtTail(s, m, cs, ids, false);
      var rest := AllPassTheCheck(m, cap, cs[1..], ids[1..], k);
      OneEvent(s, cap, Turn(t, 0, 0), rest, k);
      es := [Turn(t, 0, 0)] + rest;
      assert cs[0] !in cs[1..];
      AllAtCons(Run(m, cap, rest), cs, ids, true);
    }
  }

  /** The two turns that switch a claimed task to Running. */
  lemma SwitchToRunning(s: State, cap: nat, t: Tid, id: TaskId) returns (child: Tid, m: State)
    requires t in s.threads && s.threads[t] == Starting(id, false) && Has(s, id, Queued)
    ensures var first, second := Turn(t, 0, 0), Turn(t, child, 0);
      && Enabled(s, first) && Enabled(Step(s, cap, first), second) && m == Step(Step(s, cap, first), cap, second)
      && Window(Step(s, cap, first)) == Window(s)
    ensures m.threads == (s.threads - {t})[child := Executing(id)] && child !in s.threads
    ensures m.tasks == s.tasks[id := Running] && m.pending == s.pending && m.issued == s.issued
  {
    var m1 := Step(s, cap, Turn(t, 0, 0));
    child := FreshThread(m1);
    m := Step(m1, cap, Turn(t, child, 0));
  }

  lemma SwitchCounts(s: State, m: State, t: Tid, child: Tid, id: TaskId)
    requires t in s.threads && s.threads[t] == Starting(id, false) && Has(s, id, Queued)
    requires m.threads == (s.threads - {t})[child := Executing(id)] && child !in s.threads
    requires m.tasks == s.tasks[id := Running]
    ensures RunningCount(m) == RunningCount(s) + 1 && |Window(m)| == |Window(s)| - 1
  {
    assert RunningIds(m) == RunningIds(s) + {id} && id !in RunningIds(s);
    assert Window(m) == Window(s) - {t} && t in Window(s);
  }

  lemma TwoEvents(s: State, cap: nat, e: Event, f: Event, es: seq<Event>, k: nat)
    requires Enabled(s, e) && Enabled(Step(s, cap, e), f)
    requires var m := Step(Step(s, cap, e), cap, f); ValidRun(m, cap, es) && WindowWithin(m, cap, es, k)
    requires |Window(s)| <= k && |Window(Step(s, cap, e))| <= k
    ensures ValidRun(s, cap, [e] + ([f] + es)) && WindowWithin(s, cap, [e] + ([f] + es), k)
    ensures Run(s, cap, [e] + ([f] + es)) == Run(Step(Step(s, cap, e), cap, f), cap, es)
  {
    hide Step, Enabled, Window;
    assert ([e] + ([f] + es))[1..] == [f] + es && ([f] + es)[1..] == es;
  }

  lemma {:induction false} AllSwitchToRunning(s: State, cap: nat, cs: seq<Tid>, ids: seq<TaskId>, k: nat) returns (es: seq<Event>)
    requires AllAt(s, cs, ids, true) && |Window(s)| <= k
    ensures ValidRun(s, cap, es) && WindowWithin(s, cap, es, k)
    ensures RunningCount(Run(s, cap, es)) == RunningCount(s) + |cs|
    decreases |cs|
  {
    hide Step, Enabled, Window, RunningCount;
    if cs == [] {
      es := [];
    } else {
      var t, id := cs[0], ids[0];
      var child, m := SwitchToRunning(s, cap, t, id);
      SwitchCounts(s, m, t, child, id);
      AllAtTail(s, m, cs, ids, true);
      var rest := AllSwitchToRunning(m, cap, cs[1..], ids[1..], k);
      TwoEvents(s, cap, Turn(t, 0, 0), Turn(t, child, 0), rest, k);
      es := [Turn(t, 0, 0)] + ([Turn(t, child, 0)] + rest);
    }
  }

  // ---------------------------------------------------------------------
  // The bound is reached from every state at rest
  // ---------------------------------------------------------------------

  /** Identifiers of tasks have been handed out. */
  predicate TasksAreKnown(s: State) {
    s.tasks.Keys <= s.issued
  }

  lemma {:induction false} TaskAbove(used: set<TaskId>) returns (n: nat)
    ensures forall x :: x in used ==> x.uuid < n
  {
    if used == {} {
      n := 0;
    } else {
      var x :| x in used;
      var m := TaskAbove(used - {x});
      n := if x.uuid < m then m else x.uuid + 1;
      assert forall y :: y in used ==> y == x || y in used - {x};
    }
  }

  lemma FreshTask(used: set<TaskId>) returns (id: TaskId)
    ensures id !in used
  {
    var n := TaskAbove(used);
    id := TaskId(n);
  }

  /** Cancelling frees slots without touching the threads. */
  lemma {:induction false} CancelDownTo(s: State, cap: nat, most: nat, k: nat) returns (es: seq<Event>)
    requires Window(s) == {} && TasksAreKnown(s)
    ensures ValidRun(s, cap, es) && WindowWithin(s, cap, es, k)
    ensures var s' := Run(s, cap, es);
      Window(s') == {} && TasksAreKnown(s') && RunningCount(s') == if RunningCount(s) <= most then RunningCount(s) else most
    decreases RunningCount(s)
  {
    if RunningCount(s) <= most {
      es := [];
    } else {
      var x :| x in RunningIds(s);
      var m := Step(s, cap, CancelTask(x));
      assert RunningIds(m) == RunningIds(s) - {x};
      assert Window(m) == Window(s);
      var rest := CancelDownTo(m, cap, most, k);
      OneEvent(s, cap, CancelTask(x), rest, k);
      es := [CancelTask(x)] + rest;
    }
  }

  /** A submission has arrived and has not looked at the cap. */
  lemma ArriveOnce(s: State, cap: nat) returns (n: Tid, id: TaskId, m: State)
    requires TasksAreKnown(s)
    ensures n !in s.threads && id !in s.issued && Enabled(s, Arrive(n, id)) && m == Step(s, cap, Arrive(n, id))
    ensures m.threads == s.threads[n := Deciding(id)] && m.tasks == s.tasks[id := Queued] && m.issued == s.issued + {id}
    ensures m.pending == s.pending && Has(m, id, Queued) && TasksAreKnown(m)
    ensures Window(m) == Window(s) && RunningCount(m) == RunningCount(s)
  {
    n := FreshThread(s);
    id := FreshTask(s.issued);
    m := Step(s, cap, Arrive(n, id));
    assert RunningIds(m) == RunningIds(s);
  }

  lemma {:induction false} FillUpTo(s: State, cap: nat, target: nat, k: nat) returns (es: seq<Event>)
    requires Window(s) == {} && TasksAreKnown(s) && RunningCount(s) <= target < cap && k >= 1
    ensures ValidRun(s, cap, es) && WindowWithin(s, cap, es, k)
    ensures var s' := Run(s, cap, es);
      Window(s') == {} && TasksAreKnown(s') && RunningCount(s') == target
    decreases target - RunningCount(s)
  {
    if RunningCount(s) == target {
      es := [];
    } else {
      var n, id, m := ArriveOnce(s, cap);
      var m1 := Step(m, cap, Turn(n, 0, 0));
      assert Window(m1) == {n} && RunningIds(m1) == RunningIds(m);
      var child, m2 := SwitchToRunning(m1, cap, n, id);
      SwitchCounts(m1, m2, n, child, id);
      var rest := FillUpTo(m2, cap, target, k);
      TwoEvents(m1, cap, Turn(n, 0, 0), Turn(n, child, 0), rest, k);
      var two := [Turn(n, 0, 0)] + ([Turn(n, child, 0)] + rest);
      OneEvent(m, cap, Turn(n, 0, 0), two, k);
      OneEvent(s, cap, Arrive(n, id), [Turn(n, 0, 0)] + two, k);
      es := [Arrive(n, id)] + ([Turn(n, 0, 0)] + two);
    }
  }

  lemma ConsDistinct(m: State, n: Tid, id: TaskId, ds: seq<Tid>, jds: seq<TaskId>)
    requires n in m.threads && id in m.issued && |ds| == |jds|
    requires forall i :: 0 <= i < |ds| ==> ds[i] !in m.threads && jds[i] !in m.issued
    requires forall i, j :: 0 <= i < j < |ds| ==> ds[i] != ds[j] && jds[i] != jds[j]
    ensures var cs, ids := [n] + ds, [id] + jds;
      forall i, j :: 0 <= i < j < |cs| ==> cs[i] != cs[j] && ids[i] != ids[j]
  {
    var cs, ids := [n] + ds, [id] + jds;
    assert forall i :: 0 < i < |cs| ==> cs[i] == ds[i - 1] && ids[i] == jds[i - 1];
  }

  /** k submissions arrive at once. */
  lemma {:induction false} ArriveMany(s: State, cap: nat, count: nat, k: nat)
    returns (es: seq<Event>, cs: seq<Tid>, ids: seq<TaskId>)
    requires Window(s) == {} && TasksAreKnown(s)
    ensures ValidRun(s, cap, es) && WindowWithin(s, cap, es, k)
    ensures var s' := Run(s, cap, es);
      && Window(s') == {} && RunningCount(s') == RunningCount(s) && |cs| == count && AllAt(s', cs, ids, false)
      && s.issued <= s'.issued && (forall t :: t in s.threads ==> t in s'.threads && s'.threads[t] == s.threads[t])
      && (forall id :: id in s.tasks ==> id in s'.tasks && s'.tasks[id] == s.tasks[id])
      && (forall i :: 0 <= i < |cs| ==> cs[i] !in s.threads && ids[i] !in s.issued)
      && |ids| == count
      && (forall i, j :: 0 <= i < j < |cs| ==> cs[i] != cs[j] && ids[i] != ids[j])
    decreases count
  {
    hide Step, Enabled, RunningCount, Window;
    if count == 0 {
      es, cs, ids := [], [], [];
    } else {
      var n, id, m := ArriveOnce(s, cap);
      var rest, ds, jds := ArriveMany(m, cap, count - 1, k);
      OneEvent(s, cap, Arrive(n, id), rest, k);
      es, cs, ids := [Arrive(n, id)] + rest, [n] + ds, [id] + jds;
      var s' := Run(m, cap, rest);
      assert cs[1..] == ds && ids[1..] == jds;
      ConsDistinct(m, n, id, ds, jds);
      AllAtCons(s', cs, ids, false);
    }
  }

  /** The bound is sharp: from every state at rest and for every k there is a run
      with never more than k threads past the check that ends with cap + k - 1
      tasks Running. */
  lemma BoundIsSharp(s: State, cap: nat, k: nat)
    requires cap >= 1 && k >= 1 && Window(s) == {} && TasksAreKnown(s)
    ensures exists es ::
      && ValidRun(s, cap, es) && WindowWithin(s, cap, es, k)
      && RunningCount(Run(s, cap, es)) == cap + k - 1
  {
    hide Step, Enabled, AllAt;
    var es1 := CancelDownTo(s, cap, cap - 1, k);
    var s1 := Run(s, cap, es1);
    var es2 := FillUpTo(s1, cap, cap - 1, k);
    var s2 := Run(s1, cap, es2);
    var es3, cs, ids := ArriveMany(s2, cap, k, k);
    var s3 := Run(s2, cap, es3);
    var es4 := AllPassTheCheck(s3, cap, cs, ids, k);
    var s4 := Run(s3, cap, es4);
    assert RunningIds(s4) == RunningIds(s3);
    var es5 := AllSwitchToRunning(s4, cap, cs, ids, k);
    WithinAppend(s3, cap, es4, es5, k);
    WithinAppend(s2, cap, es3, es4 + es5, k);
    WithinAppend(s1, cap, es2, es3 + (es4 + es5), k);
    WithinAppend(s, cap, es1, es2 + (es3 + (es4 + es5)), k);
  }

  // ---------------------------------------------------------------------
  // When a cancel is final
  // ---------------------------------------------------------------------

  /** Some thread has taken id for execution, or is a submission about to. */
  predicate Claims(pc: Pc, id: TaskId) {
    (pc.Deciding? || pc.Starting? || pc.Marking?) && pc.id == id
  }

  predicate Claimed(s: State, id: TaskId) {
    exists t :: t in s.threads && Claims(s.threads[t], id)
  }

  /** Cancelled, or removed since. */
  predicate StaysCancelled(s: State, id: TaskId) {
    id in s.issued && (id in s.tasks ==> s.tasks[id] == Cancelled)
  }

  lemma UnclaimedStep(s: State, cap: nat, e: Event, id: TaskId)
    requires Enabled(s, e) && StaysCancelled(s, id) && !Claimed(s, id)
    ensures StaysCancelled(Step(s, cap, e), id) && !Claimed(Step(s, cap, e), id)
  {
    if e.Turn? {
      assert !Claims(s.threads[e.t], id);
    }
  }

  lemma {:induction false} UnclaimedCancelIsFinal(s: State, cap: nat, es: seq<Event>, id: TaskId)
    requires ValidRun(s, cap, es) && StaysCancelled(s, id) && !Claimed(s, id)
    ensures StaysCancelled(Run(s, cap, es), id)
    decreases |es|
  {
    if es != [] {
      UnclaimedStep(s, cap, es[0], id);
      UnclaimedCancelIsFinal(Step(s, cap, es[0]), cap, es[1..], id);
    }
  }

  /** Cancelling every other running task opens a slot. */
  lemma {:induction false} SlotsCanBeFreed(s: State, cap: nat, id: TaskId) returns (es: seq<Event>)
    requires cap >= 1 && Has(s, id, Cancelled)
    ensures ValidRun(s, cap, es)
    ensures var s' := Run(s, cap, es);
      RunningCount(s') < cap && s'.threads == s.threads && Has(s', id, Cancelled)
    decreases RunningCount(s)
  {
    if RunningCount(s) < cap {
      es := [];
    } else {
      var x :| x in RunningIds(s);
      var m := Step(s, cap, CancelTask(x));
      assert RunningIds(m) == RunningIds(s) - {x};
      var rest := SlotsCanBeFreed(m, cap, id);
      es := [CancelTask(x)] + rest;
    }
  }

  lemma MarkingOverwritesCancel(s: State, cap: nat, t: Tid, id: TaskId) returns (es: seq<Event>)
    requires t in s.threads && Has(s, id, Cancelled)
    requires (s.threads[t].Starting? || s.threads[t].Marking?) && s.threads[t].id == id
    ensures ValidRun(s, cap, es) && Has(Run(s, cap, es), id, Running)
  {
    var child := FreshThread(s);
    if s.threads[t].Marking? {
      es := [Turn(t, child, 0)];
      assert Run(s, cap, es) == Step(s, cap, es[0]);
    } else {
      var m := Step(s, cap, Turn(t, 0, 0));
      assert m.threads.Keys == s.threads.Keys;
      es := [Turn(t, 0, 0), Turn(t, child, 0)];
      assert es[1..] == [es[1]];
      assert Run(s, cap, es) == Run(m, cap, [es[1]]) == Step(m, cap, es[1]);
    }
  }

  /** A claiming thread can switch a cancelled task to Running. */
  lemma ClaimedRuns(s: State, cap: nat, id: TaskId) returns (es: seq<Event>)
    requires cap >= 1 && Has(s, id, Cancelled) && Claimed(s, id)
    ensures ValidRun(s, cap, es) && Has(Run(s, cap, es), id, Running)
  {
    var t :| t in s.threads && Claims(s.threads[t], id);
    if s.threads[t].Deciding? {
      var frees := SlotsCanBeFreed(s, cap, id);
      var freed := Run(s, cap, frees);
      var m := Step(freed, cap, Turn(t, 0, 0));
      RunCons(freed, cap, Turn(t, 0, 0), []);
      var fs := MarkingOverwritesCancel(m, cap, t, id);
      RunCons(freed, cap, Turn(t, 0, 0), fs);
      RunAppend(s, cap, frees, [Turn(t, 0, 0)] + fs);
      es := frees + ([Turn(t, 0, 0)] + fs);
    } else {
      es := MarkingOverwritesCancel(s, cap, t, id);
    }
  }

  /** A cancelled task stays cancelled in every continuation exactly when no
      thread had claimed it: a claiming thread switches it back to Running. */
  lemma CancelIsFinalExactly(s: State, cap: nat, id: TaskId)
    requires cap >= 1 && Has(s, id, Cancelled) && id in s.issued
    ensures (forall es :: ValidRun(s, cap, es) ==> StaysCancelled(Run(s, cap, es), id)) <==> !Claimed(s, id)
  {
    if Claimed(s, id) {
      var es := ClaimedRuns(s, cap, id);
      assert !StaysCancelled(Run(s, cap, es), id);
    } else {
      forall es | ValidRun(s, cap, es)
        ensures StaysCancelled(Run(s, cap, es), id)
      {
        UnclaimedCancelIsFinal(s, cap, es, id);
      }
    }
  }
}
