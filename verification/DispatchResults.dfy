/** What the client of a dispatch may conclude about the peer: from an acknowledged
    cancel, from a returned record, and from its own mirror. */
module DispatchResults {
  import opened Tasks
  import opened Mirroring
  import opened Dispatch
  import S = Scheduler
  import L = SchedulerLocks
  import P = LockProgress
  import N = PeerSections

  // ---------------------------------------------------------------------
  // An acknowledged cancel that no thread stands against
  // ---------------------------------------------------------------------

  /** The task is cancelled or gone, nobody is about to start it, and nothing
      anywhere says that it ended by itself. */
  ghost predicate Closed(w: World) {
    && PeerFits(w) && w.remote.Some?
    && L.StaysCancelled(w.peer.core, w.remote.value) && !L.Claimed(w.peer.core, w.remote.value)
    && NoTrace(w, w.remote.value)
  }

  lemma MoveKeepsClosed(w: World, ev: N.Event, w': World)
    requires Closed(w) && N.Possible(w.peer, ev)
    requires w'.peer == N.Next(w.peer, w.cap, ev)
    requires w' == w.(peer := w'.peer, handler := w'.handler)
    ensures Closed(w')
  {
    N.EventKeepsFits(w.peer, w.cap, ev);
    MoveKeepsIssued(w.peer, w.cap, ev);
    hide N.Fits, N.NextRecords, N.NextSinks, N.NextDropping, L.Step, L.Claimed;
    if ev.Section? {
      L.UnclaimedStep(w.peer.core, w.cap, ev.e, w.remote.value);
    }
  }

  lemma CloneKeepsClosed(w: World, a: Action)
    requires Closed(w) && (a.PeerClone? || a.PeerAnswer?) && Possible(w, a)
    ensures Closed(Next(w, a))
  {
    hide N.Fits;
    var w' := Next(w, a);
    assert forall h :: h in w'.halves ==> h in w.halves || h.task.status == Cancelled;
    assert forall round, t :: Record(round, t) in w'.replies ==>
      Record(round, t) in w.replies || (a.PeerAnswer? && t.status == a.half.task.status);
  }

  lemma CancelKeepsClosed(w: World, a: Action)
    requires Closed(w) && a.PeerCancel? && Possible(w, a)
    ensures Closed(Next(w, a))
  {
    assert !Cancellable(w);
    hide N.Fits;
  }

  lemma SaveKeepsClosed(w: World, a: Action)
    requires Closed(w) && a.PeerSave? && Possible(w, a)
    ensures Closed(Next(w, a))
  {
    assert a.copy.Keys <= w.peer.core.issued;
  }

  lemma RestartKeepsClosed(w: World, a: Action)
    requires Closed(w) && a.PeerRestart? && Possible(w, a)
    ensures Closed(Next(w, a))
  {
    N.RestartFits(w.peer, w.saved, a.note, a.now);
    hide N.Fits;
  }

  lemma RepliesKeepClosed(w: World, w': World, more: set<Reply>)
    requires Closed(w) && w' == w.(replies := w.replies + more)
    requires forall r :: r in more ==> !r.Record?
    ensures Closed(w')
  {
    hide N.Fits;
  }

  lemma ClientKeepsClosed(w: World, a: Action)
    requires Closed(w) && OfClient(a) && Possible(w, a)
    ensures Closed(Next(w, a))
  {
    ClientLeaves(w, a);
    hide Next, Possible, N.Fits;
  }

  lemma ActionKeepsClosed(w: World, a: Action)
    requires Closed(w) && Possible(w, a)
    ensures Closed(Next(w, a))
  {
    assert w.remote.Some?;
    hide Closed;
    if OfClient(a) {
      ClientKeepsClosed(w, a);
    } else {
      match a
      case PeerEvent(ev) => MoveKeepsClosed(w, ev, Next(w, a));
      case PeerReply => RepliesKeepClosed(w, Next(w, a), {Accepted(w.remote.value)});
      case PeerReject => RepliesKeepClosed(w, Next(w, a), {Rejected});
      case PeerClone(_) => CloneKeepsClosed(w, a);
      case PeerAnswer(_) => CloneKeepsClosed(w, a);
      case PeerCancel(_) => CancelKeepsClosed(w, a);
      case PeerSave(_) => SaveKeepsClosed(w, a);
      case PeerRestart(_, _) => RestartKeepsClosed(w, a);
      case _ =>
    }
  }

  lemma {:induction false} HistoryKeepsClosed(w: World, actions: seq<Action>)
    requires Closed(w) && ValidHistory(w, actions)
    ensures Closed(After(w, actions)) && After(w, actions).remote == w.remote
    decreases |actions|
  {
    assert w.remote.Some?;
    hide Closed, Possible, Next;
    if actions != [] {
      RemoteStays(w, actions[0]);
      ActionKeepsClosed(w, actions[0]);
      HistoryKeepsClosed(Next(w, actions[0]), actions[1..]);
    }
  }

  lemma RemoteStays(w: World, a: Action)
    requires w.remote.Some? && Possible(w, a)
    ensures Next(w, a).remote == w.remote
  {
    hide N.Next;
  }

  // ---------------------------------------------------------------------
  // An acknowledged cancel of a claimed task
  // ---------------------------------------------------------------------

  /** A claimed task can be started and end by itself although it was cancelled. */
  lemma ClaimedCanComplete(s: L.State, cap: nat, id: TaskId) returns (es: seq<L.Event>)
    requires cap >= 1 && P.Sound(s) && L.Has(s, id, Cancelled) && L.Claimed(s, id)
    ensures L.ValidRun(s, cap, es) && L.Has(L.Run(s, cap, es), id, Completed)
  {
    var start := L.ClaimedRuns(s, cap, id);
    P.SoundRun(s, cap, start);
    var m := L.Run(s, cap, start);
    hide P.OneHolder, P.QueuedAreHeld, P.IdsAreKnown, L.ValidRun, L.Run;
    var t := Executor(m, id);
    var end := L.Turn(t, 0, 0);
    OneEnd(m, cap, t, id);
    L.RunAppend(s, cap, start, [end]);
    es := start + [end];
  }

  lemma Executor(s: L.State, id: TaskId) returns (t: L.Tid)
    requires P.Sound(s) && L.Has(s, id, Running)
    ensures t in s.threads && s.threads[t] == L.Executing(id)
  {
    t :| t in s.threads && s.threads[t] == L.Executing(id);
  }

  lemma OneEnd(s: L.State, cap: nat, t: L.Tid, id: TaskId)
    requires t in s.threads && s.threads[t] == L.Executing(id) && L.Has(s, id, Running)
    ensures L.ValidRun(s, cap, [L.Turn(t, 0, 0)]) && L.Has(L.Run(s, cap, [L.Turn(t, 0, 0)]), id, Completed)
  {
    L.RunCons(s, cap, L.Turn(t, 0, 0), []);
    assert [L.Turn(t, 0, 0)] + [] == [L.Turn(t, 0, 0)];
  }

  /** w' is w after steps of the peer only. */
  predicate OnlyPeerMoved(w: World, w': World) {
    w' == w.(peer := w'.peer, handler := w'.handler)
  }

  /** A handler inside create_and_run comes back once its thread is gone. */
  predicate HandlerMoved(w: World, w': World) {
    && (!w.handler.Inside? ==> w'.handler == w.handler)
    && (w.handler.Inside? && w.handler.n in w.peer.core.threads ==>
          if w'.handler == w.handler then w.handler.n in w'.peer.core.threads else w'.handler == Back)
  }

  lemma {:induction false} PeerMoves(w: World, evs: seq<N.Event>) returns (w': World)
    requires N.ValidEvents(w.peer, w.cap, evs)
    ensures Reaches(w, w') && OnlyPeerMoved(w, w') && w'.peer == N.After(w.peer, w.cap, evs) && HandlerMoved(w, w')
    decreases |evs|
  {
    hide N.Possible, N.Next, Reaches;
    if evs == [] {
      w' := w;
      ReachesItself(w);
    } else {
      var m := MovePeer(w, evs[0]);
      w' := PeerMoves(m, evs[1..]);
      ReachesFirst(w, PeerEvent(evs[0]), w');
    }
  }

  /** Any run of lock sections happens in the world. */
  lemma LockRunHappens(w: World, es: seq<L.Event>) returns (w': World)
    requires L.ValidRun(w.peer.core, w.cap, es)
    ensures Reaches(w, w') && OnlyPeerMoved(w, w') && w'.peer.core == L.Run(w.peer.core, w.cap, es) && HandlerMoved(w, w')
  {
    hide Reaches, N.After, N.ValidEvents, L.Run, L.ValidRun;
    var evs := N.LockRunIsPeerRun(w.peer, w.cap, es);
    w' := PeerMoves(w, evs);
  }

  /** The client asks, and the peer copies the record. */
  lemma PollCopies(w: World) returns (u: World, half: Half)
    requires Sound(w) && w.client.Polling? && w.remote.Some? && w.remote.value in w.peer.core.tasks
    ensures Reaches(w, u) && u == w.(client := u.client, requests := u.requests, mirror := u.mirror, halves := u.halves)
    ensures u.client == Polling(half.round, true) && half in u.halves
    ensures w.remote.value in w.peer.records && half.task == N.Record(w.peer, w.remote.value)
  {
    assert w.peer.records.Keys == w.peer.core.tasks.Keys;
    hide Sound;
    var ready := BecomesReady(w);
    var asked := Next(ready, StartPoll);
    ReachesNext(w, ready, StartPoll);
    var round := asked.client.round;
    half := Half(round, N.Record(w.peer, w.remote.value));
    u := Next(asked, PeerClone(round));
    ReachesNext(w, asked, PeerClone(round));
  }

  /** The peer looks for live output and answers, and the client returns. */
  lemma AnswerReturns(w: World, half: Half) returns (w': World)
    requires w.client == Polling(half.round, true) && w.remote.Some? && half in w.halves && half.task.status.Terminal()
    ensures Reaches(w, w')
    ensures w' == w.(client := w'.client, replies := w'.replies, mirror := w'.mirror, halves := w'.halves)
    ensures w'.client == Returned(Ok(Assemble(w.local, S.Overlay(w.peer.sinks, w.remote.value, half.task), 0)))
  {
    var t := S.Overlay(w.peer.sinks, w.remote.value, half.task);
    ReachesItself(w);
    var answered := Next(w, PeerAnswer(half));
    ReachesNext(w, w, PeerAnswer(half));
    w' := Next(answered, PollDone(Answer(t), [], 0));
    ReachesNext(w, answered, PollDone(Answer(t), [], 0));
  }

  /** The client polls, and takes what the peer has stored. */
  lemma PollTakes(w: World) returns (w': World)
    requires Sound(w) && w.client.Polling? && w.remote.Some? && w.remote.value in w.peer.core.tasks
    requires w.peer.core.tasks[w.remote.value].Terminal()
    ensures Reaches(w, w') && w'.client.Returned? && w'.client.result.Ok? && w.remote.value in w.peer.records
    ensures w'.client.result.value == Assemble(w.local, S.Overlay(w.peer.sinks, w.remote.value, N.Record(w.peer, w.remote.value)), 0)
    ensures w'.client.result.value.status == w.peer.core.tasks[w.remote.value]
    ensures w' == w.(client := w'.client, requests := w'.requests, replies := w'.replies, mirror := w'.mirror, halves := w'.halves)
  {
    hide Sound, Reaches;
    var u, half := PollCopies(w);
    w' := AnswerReturns(u, half);
    ReachesThrough(w, u, w');
  }

  lemma BecomesReady(w: World) returns (w': World)
    requires w.client.Polling?
    ensures Reaches(w, w') && w' == w.(client := w'.client) && w'.client.Polling? && !w'.client.waiting
  {
    ReachesItself(w);
    if w.client.waiting {
      w' := Next(w, PollDone(Transient, [], 0));
      ReachesNext(w, w, PollDone(Transient, [], 0));
    } else {
      w' := w;
    }
  }

  // ---------------------------------------------------------------------
  // Exactly when an acknowledged cancel is decisive
  // ---------------------------------------------------------------------

  /** The peer never says anything but Cancelled about the task again. */
  ghost predicate PeerStaysCancelled(w: World) {
    w.remote.Some? && forall w' :: Reaches(w, w') ==> L.StaysCancelled(w'.peer.core, w.remote.value)
  }

  /** If the dispatch returns a record, it says Cancelled. */
  ghost predicate ReturnsCancelled(w: World) {
    forall w' :: Reaches(w, w') && w'.client.Returned? && w'.client.result.Ok? ==> w'.client.result.value.status == Cancelled
  }

  lemma ClosedReturnsCancelled(w: World, w': World)
    requires Sound(w) && Closed(w) && Reaches(w, w')
    ensures L.StaysCancelled(w'.peer.core, w.remote.value)
    ensures w'.client.Returned? && w'.client.result.Ok? ==> w'.client.result.value.status == Cancelled
  {
    var actions :| ValidHistory(w, actions) && After(w, actions) == w';
    HistoryKeepsClosed(w, actions);
    HistoryKeepsSound(w, actions);
    hide ValidHistory, After, PeerFits, TraceFits, HalvesFit;
  }

  lemma AcknowledgedIsClosed(u: World, now: nat)
    requires Sound(u) && Cancellable(u) && Possible(u, PeerCancel(now))
    ensures var w := Next(u, PeerCancel(now));
      && Sound(w) && L.Has(w.peer.core, u.remote.value, Cancelled) && w.remote == u.remote && w.client == u.client
      && (!L.Claimed(w.peer.core, u.remote.value) ==> Closed(w))
  {
    ActionKeepsSound(u, PeerCancel(now));
    InHandWhileActive(u.peer.core, u.remote.value);
    hide N.Fits, L.Claimed, P.InHand, P.Sound;
  }

  lemma InHandWhileActive(s: L.State, id: TaskId)
    requires P.Sound(s) && id in s.tasks && !s.tasks[id].Terminal()
    ensures P.InHand(s, id)
  {
    if s.tasks[id] == Running {
      assert L.Has(s, id, Running);
      var t :| t in s.threads && s.threads[t] == L.Executing(id);
      assert P.Holds(s.threads[t], id);
    } else {
      assert L.Has(s, id, Queued);
      assert P.Carried(s, id);
      if id !in s.pending {
        var t :| t in s.threads && P.Carries(s.threads[t], id);
        assert P.Holds(s.threads[t], id);
      }
    }
  }

  /** The cancel of a claimed task is undone: the peer completes the task, and a
      dispatch that polls returns Completed. */
  lemma ClaimedCancelIsUndone(w: World) returns (completed: World, returned: World)
    requires Sound(w) && w.remote.Some? && L.Has(w.peer.core, w.remote.value, Cancelled)
    requires L.Claimed(w.peer.core, w.remote.value)
    ensures Reaches(w, completed) && L.Has(completed.peer.core, w.remote.value, Completed)
    ensures w.client.Polling? ==>
      Reaches(w, returned) && returned.client.Returned? && returned.client.result.Ok?
      && returned.client.result.value.status == Completed
  {
    var id := w.remote.value;
    hide L.Claimed, L.ValidRun, L.Run, N.Record;
    var es := ClaimedCanComplete(w.peer.core, w.cap, id);
    completed := LockRunHappens(w, es);
    returned := completed;
    if w.client.Polling? {
      SoundOn(w, completed);
      returned := PollTakes(completed);
      ReachesThrough(w, completed, returned);
    }
  }

  lemma SoundOn(w: World, w': World)
    requires Sound(w) && Reaches(w, w')
    ensures Sound(w')
  {
    var actions :| ValidHistory(w, actions) && After(w, actions) == w';
    HistoryKeepsSound(w, actions);
  }

  /** Exactly when an acknowledged cancel is decisive: when the DELETE was served
      no thread of the peer had claimed the task. Then the peer says Cancelled for
      good and a dispatch that returns a record returns Cancelled, for every delay,
      loss and repetition of messages, and even if the peer restarts from an old
      copy. Otherwise the peer can go on to complete the task, and a dispatch that
      is still polling can return Completed. */
  lemma AcknowledgedCancelIsDecisiveExactly(w: World, u: World, now: nat)
    requires Posted(w) && Reaches(w, u) && Cancellable(u) && Possible(u, PeerCancel(now))
    ensures var acked := Next(u, PeerCancel(now));
      && CancelDone in acked.replies
      && (PeerStaysCancelled(acked) <==> !L.Claimed(acked.peer.core, u.remote.value))
      && (!L.Claimed(acked.peer.core, u.remote.value) ==> ReturnsCancelled(acked))
      && (acked.client.Polling? ==> (ReturnsCancelled(acked) <==> !L.Claimed(acked.peer.core, u.remote.value)))
  {
    ReachableIsSound(w, u);
    AcknowledgedIsClosed(u, now);
    var acked := Next(u, PeerCancel(now));
    hide Sound, Closed, Reaches, L.Claimed, Next, Possible, Posted;
    if L.Claimed(acked.peer.core, u.remote.value) {
      var completed, returned := ClaimedCancelIsUndone(acked);
      assert !L.StaysCancelled(completed.peer.core, acked.remote.value);
    } else {
      forall w' | Reaches(acked, w')
        ensures L.StaysCancelled(w'.peer.core, acked.remote.value)
        ensures w'.client.Returned? && w'.client.result.Ok? ==> w'.client.result.value.status == Cancelled
      {
        ClosedReturnsCancelled(acked, w');
      }
    }
    assert CancelDone in acked.replies by { AcknowledgesIt(u, now); }
  }

  lemma AcknowledgesIt(u: World, now: nat)
    requires Cancellable(u) && Possible(u, PeerCancel(now))
    ensures CancelDone in Next(u, PeerCancel(now)).replies
  {
  }

  // ---------------------------------------------------------------------
  // What a returned record says about the peer's
  // ---------------------------------------------------------------------

  /** The peer still has the record r, or none, and nobody has the task in hand. */
  ghost predicate StillHas(w: World, r: Task) {
    && PeerFits(w) && w.remote.Some?
    && (w.remote.value in w.peer.core.tasks ==>
          && !P.InHand(w.peer.core, w.remote.value) && r.status.Terminal()
          && N.Record(w.peer, w.remote.value) == r)
  }

  lemma MoveKeepsRecord(w: World, ev: N.Event, w': World, r: Task)
    requires StillHas(w, r) && N.Possible(w.peer, ev)
    requires w'.peer == N.Next(w.peer, w.cap, ev) && OnlyPeerMoved(w, w')
    ensures StillHas(w', r)
  {
    N.EventKeepsFits(w.peer, w.cap, ev);
    MoveKeepsIssued(w.peer, w.cap, ev);
    var id := w.remote.value;
    if id in w'.peer.core.tasks {
      StillKnown(w.peer, w.cap, ev, id);
      N.LetGoIsFinal(w.peer, w.cap, ev, id);
    }
  }

  lemma ActionKeepsRecord(w: World, a: Action, r: Task)
    requires StillHas(w, r) && Possible(w, a) && !a.PeerRestart?
    ensures StillHas(Next(w, a), r) && Next(w, a).remote == w.remote
  {
    hide N.Fits, P.InHand;
    if OfClient(a) {
      ClientLeaves(w, a);
      hide Next, Possible;
    } else {
      match a
      case PeerEvent(ev) => MoveKeepsRecord(w, ev, Next(w, a), r);
      case PeerCancel(_) => assert !Cancellable(w);
      case PeerSave(copy) => SavedIsKnown(w, copy);
      case _ =>
    }
  }

  lemma SavedIsKnown(w: World, copy: map<TaskId, Task>)
    requires PeerFits(w) && IsCopy(copy, w.peer)
    ensures copy.Keys <= w.peer.core.issued
  {
  }

  lemma {:induction false} HistoryKeepsRecord(w: World, actions: seq<Action>, r: Task)
    requires StillHas(w, r) && ValidHistory(w, actions) && NoRestart(actions)
    ensures StillHas(After(w, actions), r) && After(w, actions).remote == w.remote
    decreases |actions|
  {
    hide StillHas, Possible, Next;
    if actions != [] {
      ActionKeepsRecord(w, actions[0], r);
      HistoryKeepsRecord(Next(w, actions[0]), actions[1..], r);
    }
  }

  lemma RecordStays(w: World, z: World, r: Task)
    requires StillHas(w, r) && StaysUp(w, z)
    ensures StillHas(z, r) && z.remote == w.remote
  {
    var actions :| ValidHistory(w, actions) && NoRestart(actions) && After(w, actions) == z;
    HistoryKeepsRecord(w, actions, r);
  }

  lemma {:induction false} ReturnedForGood(w: World, actions: seq<Action>)
    requires w.client.Returned? && ValidHistory(w, actions)
    ensures After(w, actions).client == w.client
    decreases |actions|
  {
    hide Possible, Next;
    if actions != [] {
      ReturnedStays(w, actions[0]);
      ReturnedForGood(Next(w, actions[0]), actions[1..]);
    }
  }

  lemma ReturnedStays(w: World, a: Action)
    requires w.client.Returned? && Possible(w, a)
    ensures Next(w, a).client == w.client
  {
    if OfClient(a) {
      ClientLeaves(w, a);
    }
  }

  predicate Agree(mine: Task, theirs: Task) {
    && mine.status == theirs.status && mine.output == theirs.output && mine.errorOutput == theirs.errorOutput
    && mine.exitCode == theirs.exitCode && mine.artifacts == theirs.artifacts
  }

  /** The state in which an ended record is handed out still has that record. */
  lemma HandedOutIsStored(u: World, half: Half)
    requires Sound(u) && Possible(u, PeerAnswer(half)) && N.Over(half.task.status)
    ensures StillHas(u, half.task)
  {
    var id := u.remote.value;
    if id in u.peer.core.tasks {
      assert N.RecordFits(u.peer, id);
    }
  }

  lemma AgreesExactly(u: World, half: Half, local: Task, now: nat)
    requires PeerFits(u) && u.remote.Some? && u.remote.value in u.peer.core.tasks
    requires N.Over(u.peer.core.tasks[u.remote.value]) && half.task == N.Record(u.peer, u.remote.value)
    ensures Agree(Assemble(local, S.Overlay(u.peer.sinks, u.remote.value, half.task), now), half.task)
       <==> !N.Torn(u.peer, u.remote.value)
  {
    N.AnswerIsTheRecordExactly(u.peer, u.remote.value);
  }

  /** Exactly when a returned Completed or Failed record is the peer's. The answer
      it came from was completed in state u and taken in state v, z is any later
      state, and the peer has not restarted since u: status, output, error output,
      exit code and artifacts agree exactly unless in u the execution had broken
      after printing and its thread had yet to drop the live output. */
  lemma ReturnedResultIsThePeersRecordExactly(w: World, u: World, half: Half, v: World, error: Bytes, now: nat, z: World)
    requires Posted(w) && Reaches(w, u) && Possible(u, PeerAnswer(half)) && N.Over(half.task.status)
    requires StaysUp(Next(u, PeerAnswer(half)), v)
    requires var done := PollDone(Answer(S.Overlay(u.peer.sinks, u.remote.value, half.task)), error, now);
      Possible(v, done) && StaysUp(Next(v, done), z)
    requires u.remote.value in z.peer.core.tasks && u.remote.value in z.peer.records
    ensures z.client.Returned? && z.client.result.Ok?
    ensures Agree(z.client.result.value, N.Record(z.peer, u.remote.value)) <==> !N.Torn(u.peer, u.remote.value)
  {
    var t := S.Overlay(u.peer.sinks, u.remote.value, half.task);
    ReachableIsSound(w, u);
    AnswerIsTaken(v, t, error, now, z);
    hide Posted, Reaches, Sound, N.Torn, Next;
    UpUntil(u, half, v, PollDone(Answer(t), error, now), z);
    hide StaysUp, Possible;
    StoredUntil(u, half, z);
    AgreesWithStored(u, half, v.local, now);
  }

  lemma AnswerIsTaken(v: World, t: Task, error: Bytes, now: nat, z: World)
    requires t.status.Terminal() && Possible(v, PollDone(Answer(t), error, now))
    requires StaysUp(Next(v, PollDone(Answer(t), error, now)), z)
    ensures z.client == Returned(Ok(Assemble(v.local, t, now)))
  {
    var after := Next(v, PollDone(Answer(t), error, now));
    assert after.client == Returned(Ok(Assemble(v.local, t, now)));
    hide StaysUp, Reaches, Next, Possible;
    UpReaches(after, z);
    ReturnedUntil(after, z);
  }

  lemma UpUntil(u: World, half: Half, v: World, done: Action, z: World)
    requires Possible(u, PeerAnswer(half)) && StaysUp(Next(u, PeerAnswer(half)), v)
    requires done.PollDone? && Possible(v, done) && StaysUp(Next(v, done), z)
    ensures StaysUp(u, z)
  {
    hide StaysUp, Next, Possible;
    StaysUpFirst(v, done, z);
    StaysUpThrough(Next(u, PeerAnswer(half)), v, z);
    StaysUpFirst(u, PeerAnswer(half), z);
  }

  lemma AgreesWithStored(u: World, half: Half, local: Task, now: nat)
    requires Sound(u) && u.remote.Some? && u.remote.value in u.peer.core.tasks && u.remote.value in u.peer.records
    requires N.Over(u.peer.core.tasks[u.remote.value]) && half.task == N.Record(u.peer, u.remote.value)
    ensures Agree(Assemble(local, S.Overlay(u.peer.sinks, u.remote.value, half.task), now), half.task)
       <==> !N.Torn(u.peer, u.remote.value)
  {
    hide N.Fits, N.Torn, TraceFits, HalvesFit, ReturnFits;
    AgreesExactly(u, half, local, now);
  }

  lemma ReturnedUntil(w: World, z: World)
    requires w.client.Returned? && Reaches(w, z)
    ensures z.client == w.client
  {
    var actions :| ValidHistory(w, actions) && After(w, actions) == z;
    ReturnedForGood(w, actions);
  }

  lemma StoredUntil(u: World, half: Half, z: World)
    requires Sound(u) && Possible(u, PeerAnswer(half)) && N.Over(half.task.status) && StaysUp(u, z)
    requires u.remote.value in z.peer.core.tasks && u.remote.value in z.peer.records
    ensures u.remote.value in u.peer.core.tasks && u.remote.value in u.peer.records
    ensures N.Over(u.peer.core.tasks[u.remote.value])
    ensures half.task == N.Record(u.peer, u.remote.value) == N.Record(z.peer, u.remote.value)
  {
    var id, there := u.remote.value, N.Record(z.peer, u.remote.value);
    HandedOutIsStored(u, half);
    RecordStays(u, z, half.task);
    if id !in u.peer.core.tasks {
      RecordStays(u, z, there.(output := there.output + [0]));
    }
  }

  // ---------------------------------------------------------------------
  // After a restart of the peer
  // ---------------------------------------------------------------------

  lemma RestartHas(y: World, note: Bytes, now: nat)
    requires Sound(y) && y.remote.Some? && y.remote.value in y.saved
    ensures StillHas(Next(y, PeerRestart(note, now)), S.Revive(y.saved[y.remote.value], note, now))
  {
    N.RestartFits(y.peer, y.saved, note, now);
    hide N.Fits;
  }

  /** A task without a saved copy is gone for good. */
  lemma UnsavedIsGone(y: World, note: Bytes, now: nat, z: World)
    requires Sound(y) && y.remote.Some? && y.remote.value !in y.saved
    requires StaysUp(Next(y, PeerRestart(note, now)), z)
    ensures y.remote.value !in z.peer.core.tasks && z.remote == y.remote
  {
    N.RestartFits(y.peer, y.saved, note, now);
    var up, r := Next(y, PeerRestart(note, now)), NewTask([], 0);
    hide N.Fits, StaysUp;
    RecordStays(up, z, r);
  }

  lemma RestoredStays(y: World, note: Bytes, now: nat, z: World)
    requires Sound(y) && y.remote.Some? && y.remote.value in y.saved
    requires StaysUp(Next(y, PeerRestart(note, now)), z)
    ensures var id := y.remote.value;
      id in z.peer.core.tasks && id in z.peer.records ==>
        && N.Record(z.peer, id) == S.Revive(y.saved[id], note, now)
        && z.peer.core.tasks[id] == S.Revive(y.saved[id], note, now).status
  {
    RestartHas(y, note, now);
    var up := Next(y, PeerRestart(note, now));
    assert up.remote == y.remote;
    hide N.Fits, StaysUp, Next, Sound;
    RecordStays(up, z, S.Revive(y.saved[y.remote.value], note, now));
  }

  /** Exactly when a returned Completed or Failed record is that of a peer that has
      restarted, last in state y: when it agrees with the copy the peer then had on
      disk. A copy saved before the task ended never does: the peer now says
      Cancelled. */
  lemma RestartedPeerAgreesExactly(w: World, y: World, note: Bytes, now: nat, z: World)
    requires Posted(w) && Reaches(w, y) && StaysUp(Next(y, PeerRestart(note, now)), z)
    requires y.remote.Some? && y.remote.value in z.peer.core.tasks && y.remote.value in z.peer.records
    requires z.client.Returned? && z.client.result.Ok? && N.Over(z.client.result.value.status)
    ensures var id := y.remote.value;
      && id in y.saved
      && (Agree(z.client.result.value, N.Record(z.peer, id)) <==> Agree(z.client.result.value, y.saved[id]))
      && (!y.saved[id].status.Terminal() ==> z.peer.core.tasks[id] == Cancelled)
  {
    ReachableIsSound(w, y);
    hide Posted, Reaches, StaysUp, Sound, Next;
    if y.remote.value in y.saved {
      RestoredStays(y, note, now, z);
    } else {
      UnsavedIsGone(y, note, now, z);
    }
  }

  // ---------------------------------------------------------------------
  // What the local mirror shows
  // ---------------------------------------------------------------------

  /** The client actions that mark the mirror Cancelled. */
  predicate Marks(a: Action) {
    a.DeleteDone? || a.DeleteFails? || a.CancelLocally?
  }

  predicate SomeMark(actions: seq<Action>) {
    exists i :: 0 <= i < |actions| && Marks(actions[i])
  }

  lemma MarkStep(w: World, a: Action, t: Task, marked: bool)
    requires w.client == Returned(Ok(t)) && t.endedAt.Some? && Possible(w, a)
    requires w.me in w.mirror.tasks ==> w.mirror.tasks[w.me] == if marked then t.(status := Cancelled) else t
    ensures var m := Next(w, a);
      && m.client == w.client && m.me == w.me
      && (m.me in m.mirror.tasks ==> m.mirror.tasks[m.me] == if marked || Marks(a) then t.(status := Cancelled) else t)
  {
  }

  lemma {:induction false} MirrorLater(w: World, actions: seq<Action>, t: Task, marked: bool)
    requires w.client == Returned(Ok(t)) && t.endedAt.Some? && ValidHistory(w, actions)
    requires w.me in w.mirror.tasks ==> w.mirror.tasks[w.me] == if marked then t.(status := Cancelled) else t
    ensures var z := After(w, actions);
      && z.client == w.client && z.me == w.me
      && (z.me in z.mirror.tasks ==> z.mirror.tasks[z.me] == if marked || SomeMark(actions) then t.(status := Cancelled) else t)
    decreases |actions|
  {
    hide Possible, Next, Marks;
    if actions != [] {
      var a := actions[0];
      MarkStep(w, a, t, marked);
      MirrorLater(Next(w, a), actions[1..], t, marked || Marks(a));
      SomeMarkCons(actions);
    }
  }

  lemma SomeMarkCons(actions: seq<Action>)
    requires actions != []
    ensures SomeMark(actions) <==> Marks(actions[0]) || SomeMark(actions[1..])
  {
    if SomeMark(actions[1..]) {
      var i :| 0 <= i < |actions[1..]| && Marks(actions[1..][i]);
      assert Marks(actions[i + 1]);
    }
    if SomeMark(actions) && !Marks(actions[0]) {
      var i :| 0 <= i < |actions| && Marks(actions[i]);
      assert Marks(actions[1..][i - 1]);
    }
  }

  /** After a dispatch has returned a record the mirror's status is that of the
      record exactly when the record says Cancelled, or when since the return no
      cancel was acknowledged, refused or made locally. */
  lemma MirrorAgreesExactly(v: World, done: Action, later: seq<Action>)
    requires done.PollDone? && Possible(v, done) && Next(v, done).client.Returned? && Next(v, done).client.result.Ok?
    requires ValidHistory(Next(v, done), later)
    requires var z := After(Next(v, done), later); z.me in z.mirror.tasks
    ensures var z := After(Next(v, done), later);
      && z.client == Next(v, done).client
      && (z.mirror.tasks[z.me].status == z.client.result.value.status
          <==> z.client.result.value.status == Cancelled || !SomeMark(later))
  {
    var returned := Next(v, done);
    MirrorLater(returned, later, returned.client.result.value, false);
  }

  /** Exactly which actions take the mirror of a dispatch from Cancelled to another
      status: while submitting, either end of the submission; while polling, taking
      an answer that is not Cancelled, and giving up; after the return, none. */
  lemma CancelledMirrorChangesExactly(w: World, a: Action)
    requires w.me in w.mirror.tasks && w.mirror.tasks[w.me].status == Cancelled
    requires Possible(w, a) && w.me in Next(w, a).mirror.tasks
    ensures Next(w, a).mirror.tasks[w.me].status != Cancelled <==>
      match w.client
      case Submitting => a.SubmitDone? || a.SubmitFails?
      case Polling(_, _) => a.PollDone? && !a.p.Transient? && !(a.p.Answer? && a.p.task.status == Cancelled)
      case Returned(_) => false
  {
    if !OfClient(a) {
      assert Next(w, a).mirror == w.mirror;
    }
  }
}
