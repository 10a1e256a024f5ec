/** Histories of a dispatch to a peer that has just started: a cancel that is
    acknowledged and then undone, a returned record that is not the peer's, and a
    cancelled mirror that comes back to life. */
module DispatchWitnesses {
  import opened Tasks
  import opened Mirroring
  import opened Dispatch
  import opened DispatchResults
  import S = Scheduler
  import L = SchedulerLocks
  import P = LockProgress
  import LR = LockRuns
  import O = LockOrder
  import N = PeerSections

  /** The peer has no task. */
  ghost predicate FreshPeer(w: World) {
    Posted(w) && w.peer.core == LR.EMPTY
  }

  // ---------------------------------------------------------------------
  // The submission
  // ---------------------------------------------------------------------

  /** Nothing has happened to the dispatch yet but the post. */
  predicate JustPosted(w: World) {
    && Post in w.requests && w.remote.None? && w.client == Submitting && w.handler == NotStarted
    && w.me in w.mirror.tasks && w.local.args != []
  }

  lemma Accept(w: World) returns (n: L.Tid, id: TaskId, u: World)
    requires JustPosted(w) && P.Sound(w.peer.core)
    ensures Possible(w, PeerAccept(n, id, 0)) && u == Next(w, PeerAccept(n, id, 0)) && Reaches(w, u)
    ensures n !in w.peer.core.threads && id !in w.peer.core.issued
    ensures u == w.(peer := u.peer, remote := Some(id), handler := Inside(n))
    ensures u.peer.core == w.peer.core.(tasks := w.peer.core.tasks[id := Queued], threads := w.peer.core.threads[n := L.Deciding(id)],
                                        issued := w.peer.core.issued + {id})
    ensures L.RunningCount(u.peer.core) == L.RunningCount(w.peer.core)
  {
    n := L.FreshThread(w.peer.core);
    id := L.FreshTask(w.peer.core.issued);
    u := Next(w, PeerAccept(n, id, 0));
    ReachesItself(w);
    ReachesNext(w, w, PeerAccept(n, id, 0));
    assert L.RunningIds(u.peer.core) == L.RunningIds(w.peer.core);
  }

  /** The handler answers, the client starts to poll and asks for a cancel. */
  lemma ClientPolls(w: World) returns (u: World)
    requires w.handler.Back? && w.remote.Some? && w.client == Submitting && w.me in w.mirror.tasks
    ensures Reaches(w, u) && u.peer == w.peer && u.remote == w.remote && u.cap == w.cap && u.me == w.me
    ensures u.client == Polling(0, false) && Delete(w.remote.value) in u.requests
    ensures u.me in u.mirror.tasks && u.mirror.tasks[u.me].status == Running
  {
    ReachesItself(w);
    var replied := Next(w, PeerReply);
    ReachesNext(w, w, PeerReply);
    var polling := Next(replied, SubmitDone(""));
    ReachesNext(w, replied, SubmitDone(""));
    u := Next(polling, SendDelete);
    ReachesNext(w, polling, SendDelete);
  }

  lemma LockLeads(w: World, core: L.State) returns (w': World)
    requires O.Leads(w.peer.core, w.cap, core)
    ensures Reaches(w, w') && OnlyPeerMoved(w, w') && w'.peer.core == core && HandlerMoved(w, w')
  {
    var es: seq<L.Event> :| L.ValidRun(w.peer.core, w.cap, es) && O.Smooth(w.peer.core, w.cap, es)
                            && L.Run(w.peer.core, w.cap, es) == core;
    hide L.Run, L.ValidRun, Reaches, O.Smooth;
    w' := LockRunHappens(w, es);
  }

  /** With a free slot the task starts, and the handler comes back. */
  lemma HandlerStarts(w: World) returns (u: World)
    requires FreshPeer(w)
    ensures Reaches(w, u) && u == w.(peer := u.peer, handler := Back, remote := u.remote) && u.remote.Some?
    ensures L.Has(u.peer.core, u.remote.value, Running)
  {
    var n, id, accepted := Accept(w);
    assert L.RunningIds(w.peer.core) == {};
    hide Next, Possible, Reaches, Posted;
    var child, m := O.DecidedStarts(accepted.peer.core, w.cap, n, id);
    u := LockLeads(accepted, m);
    assert n !in u.peer.core.threads;
    ReachesThrough(w, accepted, u);
  }

  /** And the client polls for it. */
  lemma SubmissionStarts(w: World) returns (u: World)
    requires FreshPeer(w)
    ensures Reaches(w, u) && Sound(u) && u.remote.Some? && u.client == Polling(0, false)
    ensures L.Has(u.peer.core, u.remote.value, Running) && Delete(u.remote.value) in u.requests
    ensures u.me in u.mirror.tasks
  {
    var started := HandlerStarts(w);
    assert w.client == Submitting && w.me in w.mirror.tasks;
    hide Next, Possible, Reaches, Posted;
    u := ClientPolls(started);
    ReachesThrough(w, started, u);
    ReachableIsSound(w, u);
  }

  // ---------------------------------------------------------------------
  // A cancel that is acknowledged and undone
  // ---------------------------------------------------------------------

  /** Another task fills the cap. */
  lemma CapIsFilled(w: World, x: TaskId) returns (u: World, t: L.Tid)
    requires FreshPeer(w) && w.cap == 1
    ensures Reaches(w, u) && OnlyPeerMoved(w, u) && u.handler == w.handler
    ensures var s := u.peer.core; P.AtRest(s) && s.pending == [] && L.RunningCount(s) == 1 && s.threads.Keys == {t}
  {
    hide P.AtRest, L.RunningCount, Reaches;
    var es;
    es, t := LR.OneRunning(x);
    u := LockRunHappens(w, es);
  }

  /** At a full cap the handler parks the task and comes back. */
  lemma HandlerParks(w: World, t: L.Tid) returns (u: World)
    requires JustPosted(w) && w.cap == 1 && w.peer.core.pending == [] && L.RunningCount(w.peer.core) == 1
    requires P.AtRest(w.peer.core) && w.peer.core.threads.Keys == {t}
    ensures Reaches(w, u) && u == w.(peer := u.peer, handler := Back, remote := u.remote) && u.remote.Some?
    ensures u.peer.core.threads == w.peer.core.threads && u.peer.core.pending == [u.remote.value]
    ensures L.Has(u.peer.core, u.remote.value, Queued)
  {
    var n, id, accepted := Accept(w);
    hide Next, Possible, Reaches, L.RunningCount, P.Sound, N.Next;
    O.DecidedParks(accepted.peer.core, 1, n, id);
    var m := accepted.peer.core;
    u := LockLeads(accepted, m.(threads := m.threads - {n}, pending := m.pending + [id]));
    assert u.peer.core.threads == w.peer.core.threads;
    ReachesThrough(w, accepted, u);
  }

  /** At a full cap the task is parked, and the client polls for it and asks for a
      cancel. */
  lemma SubmissionParks(w: World, x: TaskId) returns (u: World, t: L.Tid)
    requires FreshPeer(w) && w.cap == 1
    ensures Reaches(w, u) && u.cap == 1 && u.remote.Some? && u.client == Polling(0, false)
    ensures Delete(u.remote.value) in u.requests
    ensures var s := u.peer.core;
      P.AtRest(s) && s.threads.Keys == {t} && s.pending == [u.remote.value] && L.Has(s, u.remote.value, Queued)
  {
    hide Next, Possible, Reaches, L.RunningCount, P.Sound, N.Fits;
    var filled;
    filled, t := CapIsFilled(w, x);
    var parked := HandlerParks(filled, t);
    u := ClientPolls(parked);
    ReachesThrough(w, filled, parked);
    ReachesThrough(w, parked, u);
    ReachableIsSound(w, u);
    SoundAtRest(u);
  }

  lemma SoundAtRest(u: World)
    requires Sound(u) && forall t :: t in u.peer.core.threads ==> u.peer.core.threads[t].Executing?
    ensures P.AtRest(u.peer.core)
  {
  }

  /** The running task ends and its thread selects the parked one, but has not
      switched it to Running when the DELETE arrives. */
  lemma CancelMeetsClaim(w: World, x: TaskId) returns (u: World)
    requires FreshPeer(w) && w.cap == 1
    ensures Reaches(w, u) && Sound(u) && Cancellable(u) && Possible(u, PeerCancel(0)) && u.client.Polling?
    ensures L.Claimed(u.peer.core, u.remote.value)
  {
    hide Next, Reaches, Posted, Sound, P.Sound, N.Next, L.RunningCount;
    var waiting, t := SubmissionParks(w, x);
    var es, m := P.SelectionMade(waiting.peer.core, 1, t, waiting.remote.value);
    u := LockRunHappens(waiting, es);
    ReachesThrough(w, waiting, u);
    ReachableIsSound(w, u);
    assert L.Has(u.peer.core, u.remote.value, Queued);
    assert L.Claims(u.peer.core.threads[t], u.remote.value);
  }

  lemma CancelKeepsClaim(u: World, now: nat)
    requires Cancellable(u) && Possible(u, PeerCancel(now)) && L.Claimed(u.peer.core, u.remote.value)
    ensures L.Claimed(Next(u, PeerCancel(now)).peer.core, u.remote.value)
  {
    assert Next(u, PeerCancel(now)).peer.core.threads == u.peer.core.threads;
  }

  /** The peer acknowledges the cancel, and yet completes the task, and the dispatch
      returns Completed. */
  lemma AcknowledgedCancelCanBeUndone(w: World, x: TaskId) returns (u: World, z: World)
    requires FreshPeer(w) && w.cap == 1
    ensures Reaches(w, u) && Cancellable(u) && Possible(u, PeerCancel(0))
    ensures CancelDone in Next(u, PeerCancel(0)).replies && L.Claimed(Next(u, PeerCancel(0)).peer.core, u.remote.value)
    ensures Reaches(Next(u, PeerCancel(0)), z)
    ensures z.client.Returned? && z.client.result.Ok? && z.client.result.value.status == Completed
  {
    hide Sound, Reaches, Next, Possible, L.Claimed, FreshPeer;
    u := CancelMeetsClaim(w, x);
    AcknowledgedIsClosed(u, 0);
    AcknowledgesIt(u, 0);
    CancelKeepsClaim(u, 0);
    var completed;
    completed, z := ClaimedCancelIsUndone(Next(u, PeerCancel(0)));
  }

  // ---------------------------------------------------------------------
  // A returned record that is not the peer's
  // ---------------------------------------------------------------------

  lemma CanPrint(p: N.Peer, id: TaskId, out: Bytes)
    requires N.Fits(p) && L.Has(p.core, id, Running)
    ensures N.Possible(p, N.Print(id, out, [])) && id in p.sinks && id in p.records
  {
    var t := Executor(p.core, id);
    assert p.core.threads[t].Executing?;
  }

  lemma PrintResult(p: N.Peer, cap: nat, id: TaskId)
    requires id in p.records && N.Possible(p, N.Print(id, p.records[id].output + [65], []))
    ensures var p' := N.Next(p, cap, N.Print(id, p.records[id].output + [65], []));
      && p' == p.(sinks := p'.sinks) && id in p'.sinks && p'.sinks[id].stdout != p.records[id].output
  {
    assert |p.sinks[id].stdout + (p.records[id].output + [65])| > |p.records[id].output|;
  }

  lemma ExecutionPrints(u: World) returns (v: World)
    requires Sound(u) && u.remote.Some? && L.Has(u.peer.core, u.remote.value, Running)
    ensures Reaches(u, v) && OnlyPeerMoved(u, v) && Sound(v) && v.peer.core == u.peer.core
    ensures u.remote.value in v.peer.records && u.remote.value in v.peer.sinks
    ensures v.peer.sinks[u.remote.value].stdout != v.peer.records[u.remote.value].output
  {
    hide N.Fits, N.Possible, N.Next, TraceFits, HalvesFit, ReturnFits, Reaches;
    var id := u.remote.value;
    CanPrint(u.peer, id, []);
    var out := u.peer.records[id].output + [65];
    CanPrint(u.peer, id, out);
    PrintResult(u.peer, u.cap, id);
    var ev := N.Print(id, out, []);
    v := MovePeer(u, ev);
    ReachesItself(u);
    ReachesNext(u, u, PeerEvent(ev));
    SoundOn(u, v);
  }

  function Break(t: L.Tid): N.Event {
    N.Section(L.Turn(t, 0, 1), N.Detail([], S.Broken([66]), 0))
  }

  lemma BreakIsPossible(p: N.Peer, t: L.Tid)
    requires N.Fits(p) && t in p.core.threads && p.core.threads[t].Executing?
    ensures N.Possible(p, Break(t)) && p.records.Keys == p.core.tasks.Keys
  {
  }

  lemma BreakResult(p: N.Peer, cap: nat, t: L.Tid, id: TaskId)
    requires N.Fits(p) && N.Possible(p, Break(t)) && t in p.core.threads && p.core.threads[t] == L.Executing(id)
    requires L.Has(p.core, id, Running) && id in p.records
    ensures var p' := N.Next(p, cap, Break(t));
      L.Has(p'.core, id, Failed) && id in p'.records && p'.records[id].output == p.records[id].output && p'.sinks == p.sinks
  {
    assert p.records.Keys == p.core.tasks.Keys;
    hide N.Fits, N.NextRecords, N.NextSinks, N.NextDropping, L.Step;
    N.ConclusionIs(p, cap, Break(t), id);
  }

  lemma ExecutionBreaks(u: World) returns (v: World)
    requires Sound(u) && u.remote.Some? && L.Has(u.peer.core, u.remote.value, Running) && u.remote.value in u.peer.records
    ensures Reaches(u, v) && OnlyPeerMoved(u, v) && v.peer.sinks == u.peer.sinks
    ensures L.Has(v.peer.core, u.remote.value, Failed) && u.remote.value in v.peer.records
    ensures v.peer.records[u.remote.value].output == u.peer.records[u.remote.value].output
  {
    assert P.Sound(u.peer.core);
    hide Reaches, N.Fits, N.Next, N.Possible, Break, TraceFits, HalvesFit, ReturnFits;
    var t := Executor(u.peer.core, u.remote.value);
    BreakIsPossible(u.peer, t);
    BreakResult(u.peer, u.cap, t, u.remote.value);
    v := MovePeer(u, Break(t));
    ReachesItself(u);
    ReachesNext(u, u, PeerEvent(Break(t)));
  }

  /** A task in execution prints and then breaks, for example by its timeout. */
  lemma BreaksAfterPrinting(u: World) returns (v: World)
    requires Sound(u) && u.remote.Some? && L.Has(u.peer.core, u.remote.value, Running)
    ensures Reaches(u, v) && OnlyPeerMoved(u, v)
    ensures L.Has(v.peer.core, u.remote.value, Failed) && u.remote.value in v.peer.records && u.remote.value in v.peer.sinks
    ensures v.peer.sinks[u.remote.value].stdout != v.peer.records[u.remote.value].output
  {
    hide Sound, Reaches;
    var m := ExecutionPrints(u);
    v := ExecutionBreaks(m);
    ReachesThrough(u, m, v);
  }

  /** A poll between the two sections of its completion: the dispatch returns the
      live output, which is not in the peer's record. */
  lemma TornAnswerHappens(w: World) returns (z: World)
    requires FreshPeer(w)
    ensures Reaches(w, z) && z.client.Returned? && z.client.result.Ok? && z.remote.Some?
    ensures L.Has(z.peer.core, z.remote.value, Failed) && z.remote.value in z.peer.records
    ensures !Agree(z.client.result.value, N.Record(z.peer, z.remote.value))
  {
    var u := SubmissionStarts(w);
    hide Next, Possible, Posted, N.ValidEvents;
    var v := BreaksAfterPrinting(u);
    SoundOn(u, v);
    z := PollTakes(v);
    hide Reaches, Sound;
    ReachesThrough(w, u, v);
    ReachesThrough(w, v, z);
  }

  // ---------------------------------------------------------------------
  // A cancelled mirror that comes back to life
  // ---------------------------------------------------------------------

  /** An answer that says Running is on its way. */
  lemma AnswerOnItsWay(u: World) returns (v: World, t: Task)
    requires Sound(u) && u.remote.Some? && u.client == Polling(0, false) && L.Has(u.peer.core, u.remote.value, Running)
    ensures Reaches(u, v) && v.client == Polling(1, true) && Record(1, t) in v.replies && t.status == Running
    ensures v.peer == u.peer && v.remote == u.remote && v.mirror == u.mirror && v.me == u.me && u.requests <= v.requests
  {
    var id := u.remote.value;
    ReachesItself(u);
    var asked := Next(u, StartPoll);
    ReachesNext(u, u, StartPoll);
    assert id in u.peer.records;
    var half := Half(1, N.Record(u.peer, id));
    var cloned := Next(asked, PeerClone(1));
    ReachesNext(u, asked, PeerClone(1));
    t := S.Overlay(u.peer.sinks, id, half.task);
    v := Next(cloned, PeerAnswer(half));
    ReachesNext(u, cloned, PeerAnswer(half));
  }

  /** The cancel is acknowledged, and the client marks its mirror. */
  lemma CancelIsMirrored(u: World) returns (v: World)
    requires Cancellable(u) && Possible(u, PeerCancel(0)) && u.me in u.mirror.tasks
    ensures Reaches(u, v) && v.me in v.mirror.tasks && v.mirror.tasks[v.me].status == Cancelled
    ensures v.remote == u.remote && L.Has(v.peer.core, u.remote.value, Cancelled)
    ensures v.client == u.client && u.replies <= v.replies
  {
    ReachesItself(u);
    var acked := Next(u, PeerCancel(0));
    ReachesNext(u, u, PeerCancel(0));
    v := Next(acked, DeleteDone(0));
    ReachesNext(u, acked, DeleteDone(0));
  }

  lemma AnswerIsTaken(u: World, t: Task) returns (v: World)
    requires u.client == Polling(1, true) && Record(1, t) in u.replies && t.status == Running && u.me in u.mirror.tasks
    ensures Reaches(u, v) && v.me in v.mirror.tasks && v.mirror.tasks[v.me].status == Running
  {
    ReachesItself(u);
    v := Next(u, PollDone(Answer(t), [], 0));
    ReachesNext(u, u, PollDone(Answer(t), [], 0));
  }

  /** An answer given before a cancel, and taken after it was acknowledged, sets the
      mirror back to Running. */
  lemma LatePollRevivesMirror(w: World) returns (cancelled: World, z: World)
    requires FreshPeer(w)
    ensures Reaches(w, cancelled) && cancelled.me in cancelled.mirror.tasks && cancelled.mirror.tasks[cancelled.me].status == Cancelled
    ensures cancelled.remote.Some? && L.Has(cancelled.peer.core, cancelled.remote.value, Cancelled)
    ensures Reaches(cancelled, z) && z.me in z.mirror.tasks && z.mirror.tasks[z.me].status == Running
  {
    hide Next, Reaches, Sound, FreshPeer;
    var u := SubmissionStarts(w);
    var v, t := AnswerOnItsWay(u);
    cancelled := CancelIsMirrored(v);
    z := AnswerIsTaken(cancelled, t);
    ReachesThrough(w, u, v);
    ReachesThrough(w, v, cancelled);
  }

  /** A local cancel during the submission is overwritten when the peer accepts. */
  lemma SubmissionRevivesMirror(w: World) returns (cancelled: World, z: World)
    requires FreshPeer(w)
    ensures Reaches(w, cancelled) && cancelled.client == Submitting
    ensures cancelled.me in cancelled.mirror.tasks && cancelled.mirror.tasks[cancelled.me].status == Cancelled
    ensures Reaches(cancelled, z) && z.me in z.mirror.tasks && z.mirror.tasks[z.me].status == Running
  {
    var started := HandlerStarts(w);
    assert started.me in started.mirror.tasks && started.me !in started.mirror.refs && started.client == Submitting;
    cancelled := Next(started, CancelLocally(0));
    ReachesNext(w, started, CancelLocally(0));
    hide Reaches, Posted;
    z := ClientPolls(cancelled);
  }

  // ---------------------------------------------------------------------
  // A restart that loses the result
  // ---------------------------------------------------------------------

  function End(p: N.Peer, t: L.Tid): N.Event {
    N.Section(L.Turn(t, 0, 0), N.Plain(p, L.Turn(t, 0, 0)))
  }

  lemma EndResult(p: N.Peer, cap: nat, t: L.Tid, id: TaskId)
    requires N.Fits(p) && t in p.core.threads && p.core.threads[t] == L.Executing(id) && L.Has(p.core, id, Running)
    ensures N.Possible(p, End(p, t))
    ensures var p' := N.Next(p, cap, End(p, t));
      L.Has(p'.core, id, Completed) && id in p'.records && p'.records[id].exitCode.Some?
  {
    hide N.NextRecords, N.NextSinks, N.NextDropping, L.Step;
    N.ConclusionIs(p, cap, End(p, t), id);
  }

  /** The execution exits with code 0. */
  lemma ExecutionExits(u: World) returns (v: World)
    requires Sound(u) && u.remote.Some? && L.Has(u.peer.core, u.remote.value, Running)
    ensures Reaches(u, v) && OnlyPeerMoved(u, v)
    ensures L.Has(v.peer.core, u.remote.value, Completed) && u.remote.value in v.peer.records
    ensures v.peer.records[u.remote.value].exitCode.Some?
  {
    var t := Executor(u.peer.core, u.remote.value);
    hide N.Next, N.Possible, End, TraceFits, HalvesFit, ReturnFits, Reaches;
    EndResult(u.peer, u.cap, t, u.remote.value);
    v := MovePeer(u, End(u.peer, t));
    ReachesItself(u);
    ReachesNext(u, u, PeerEvent(End(u.peer, t)));
  }

  /** The peer saves its records as they are. */
  lemma PeerSaves(u: World) returns (v: World)
    requires Sound(u)
    ensures Reaches(u, v) && Sound(v) && v == u.(saved := v.saved)
    ensures forall id :: id in u.peer.core.tasks ==> id in v.saved && v.saved[id].status == u.peer.core.tasks[id]
  {
    var copy := map id | id in u.peer.core.tasks && id in u.peer.records :: N.Record(u.peer, id);
    assert IsCopy(copy, u.peer) by { hide P.Sound; }
    v := Next(u, PeerSave(copy));
    ReachesItself(u);
    ReachesNext(u, u, PeerSave(copy));
    hide Reaches, Next;
    SoundOn(u, v);
  }

  /** The execution exits and the client takes the stored result. */
  lemma CompletedReturns(u: World) returns (z: World)
    requires Sound(u) && u.client.Polling? && u.remote.Some? && L.Has(u.peer.core, u.remote.value, Running)
    ensures Reaches(u, z) && z.saved == u.saved && z.remote == u.remote
    ensures z.client.Returned? && z.client.result.Ok? && z.client.result.value.status == Completed
    ensures L.Has(z.peer.core, z.remote.value, Completed) && z.remote.value in z.peer.records
    ensures Agree(z.client.result.value, N.Record(z.peer, z.remote.value))
  {
    hide Reaches, N.Next, N.Possible, Sound;
    var ended := ExecutionExits(u);
    SoundOn(u, ended);
    z := PollTakes(ended);
    AnswerAgrees(ended);
    ReachesThrough(u, ended, z);
  }

  lemma AnswerAgrees(u: World)
    requires Sound(u) && u.remote.Some? && L.Has(u.peer.core, u.remote.value, Completed)
    requires u.remote.value in u.peer.records && u.peer.records[u.remote.value].exitCode.Some?
    ensures S.Overlay(u.peer.sinks, u.remote.value, N.Record(u.peer, u.remote.value)) == N.Record(u.peer, u.remote.value)
  {
    hide N.Fits;
    N.AnswerIsTheRecordExactly(u.peer, u.remote.value);
  }

  lemma RestartCancels(z: World)
    requires z.remote.Some? && z.remote.value in z.saved && z.saved[z.remote.value].status == Running
    ensures var restarted := Next(z, PeerRestart([], 0));
      L.Has(restarted.peer.core, z.remote.value, Cancelled) && restarted.client == z.client
  {
  }

  /** A dispatch returns Completed, with the record of the peer; the peer had saved
      its records before the task ended, restarts, and says Cancelled. */
  lemma RestartLosesResult(w: World) returns (z: World)
    requires FreshPeer(w)
    ensures Reaches(w, z) && z.client.Returned? && z.client.result.Ok? && z.client.result.value.status == Completed
    ensures z.remote.Some? && z.remote.value in z.peer.core.tasks && z.remote.value in z.peer.records
    ensures Agree(z.client.result.value, N.Record(z.peer, z.remote.value))
    ensures var restarted := Next(z, PeerRestart([], 0));
      && L.Has(restarted.peer.core, z.remote.value, Cancelled) && restarted.client == z.client
  {
    hide FreshPeer, Reaches, Next, Sound;
    var u := SubmissionStarts(w);
    var saved := PeerSaves(u);
    z := CompletedReturns(saved);
    RestartCancels(z);
    ReachesThrough(w, u, saved);
    ReachesThrough(w, saved, z);
  }
}
