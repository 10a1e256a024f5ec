/** What travels in a dispatch: the client never addresses any task but its own, the
    peer runs the command that was sent, and a poll sees what the process has
    printed. */
module DispatchData {
  import opened Tasks
  import opened Mirroring
  import opened Dispatch
  import S = Scheduler
  import L = SchedulerLocks
  import P = LockProgress
  import N = PeerSections

  // ---------------------------------------------------------------------
  // The client addresses its own task
  // ---------------------------------------------------------------------

  /** The reference is kept while the client polls, and every request names the
      identifier that the peer gave to the task. */
  ghost predicate Addressed(w: World) {
    && (w.me in w.mirror.refs ==> w.client.Polling? && w.remote == Some(w.mirror.refs[w.me].remoteId))
    && (w.client.Polling? ==> w.remote.Some?)
    && (forall id :: Delete(id) in w.requests ==> w.remote == Some(id))
    && (forall id, round :: Poll(id, round) in w.requests ==> w.remote == Some(id) && round >= 1)
    && (forall id :: Accepted(id) in w.replies ==> w.remote == Some(id))
  }

  lemma ActionKeepsAddressed(w: World, a: Action)
    requires Addressed(w) && Possible(w, a)
    ensures Addressed(Next(w, a))
  {
    hide N.Next, N.Possible, N.Restart, N.Clone;
    if OfClient(a) {
      ClientKeepsAddressed(w, a);
    }
  }

  lemma ClientKeepsAddressed(w: World, a: Action)
    requires Addressed(w) && OfClient(a) && Possible(w, a)
    ensures Addressed(Next(w, a))
  {
  }

  lemma {:induction false} HistoryKeepsAddressed(w: World, actions: seq<Action>)
    requires Addressed(w) && ValidHistory(w, actions)
    ensures Addressed(After(w, actions))
    decreases |actions|
  {
    hide Addressed, Possible, Next;
    if actions != [] {
      ActionKeepsAddressed(w, actions[0]);
      HistoryKeepsAddressed(Next(w, actions[0]), actions[1..]);
    }
  }

  /** In every state of every dispatch the cancels and polls on their way are for the
      task the peer accepted, and a cancel can be sent only while the client
      polls. */
  lemma ClientAddressesItsTask(w: World, z: World)
    requires Posted(w) && Reaches(w, z)
    ensures forall id :: Delete(id) in z.requests ==> z.remote == Some(id)
    ensures forall id, round :: Poll(id, round) in z.requests ==> z.remote == Some(id)
    ensures z.me in z.mirror.refs ==> z.client.Polling? && z.remote == Some(z.mirror.refs[z.me].remoteId)
  {
    var actions :| ValidHistory(w, actions) && After(w, actions) == z;
    HistoryKeepsAddressed(w, actions);
  }

  // ---------------------------------------------------------------------
  // The peer runs what was sent
  // ---------------------------------------------------------------------

  ghost predicate ArgsFit(w: World) {
    && w.peer.records.Keys == w.peer.core.tasks.Keys
    && w.peer.core.tasks.Keys <= w.peer.core.issued && w.saved.Keys <= w.peer.core.issued
    && (w.remote.None? ==> w.halves == {} && forall round, t :: Record(round, t) !in w.replies)
    && (w.remote.Some? ==>
          && w.remote.value in w.peer.core.issued
          && (w.remote.value in w.peer.records ==> w.peer.records[w.remote.value].args == w.local.args)
          && (w.remote.value in w.saved ==> w.saved[w.remote.value].args == w.local.args)
          && (forall h :: h in w.halves ==> h.task.args == w.local.args)
          && (forall round, t :: Record(round, t) in w.replies ==> t.args == w.local.args))
  }

  lemma MoveKeepsArgs(p: N.Peer, cap: nat, ev: N.Event, id: TaskId)
    requires p.records.Keys == p.core.tasks.Keys && p.core.tasks.Keys <= p.core.issued && N.Possible(p, ev)
    ensures var p' := N.Next(p, cap, ev);
      && p'.records.Keys == p'.core.tasks.Keys && p'.core.tasks.Keys <= p'.core.issued && p.core.issued <= p'.core.issued
      && (id in p.core.issued && id in p'.records ==> id in p.records && p'.records[id].args == p.records[id].args)
      && (ev.Section? && ev.e.Arrive? ==> ev.e.id in p'.records && p'.records[ev.e.id].args == ev.detail.args)
  {
    hide N.NextSinks, N.NextDropping;
  }

  lemma PeerMoveKeepsArgs(w: World, ev: N.Event)
    requires ArgsFit(w) && N.Possible(w.peer, ev)
    ensures ArgsFit(MovePeer(w, ev))
  {
    if w.remote.Some? {
      MoveKeepsArgs(w.peer, w.cap, ev, w.remote.value);
    } else {
      MoveKeepsArgs(w.peer, w.cap, ev, w.me);
    }
    hide N.Next, N.Possible;
  }

  lemma AcceptSendsArgs(w: World, a: Action)
    requires ArgsFit(w) && a.PeerAccept? && Possible(w, a)
    ensures ArgsFit(Next(w, a))
  {
    var ev := Arrival(w, a.n, a.id, a.now);
    MoveKeepsArgs(w.peer, w.cap, ev, a.id);
    assert a.id !in w.saved;
    assert a.id in N.Next(w.peer, w.cap, ev).core.issued;
    hide N.Next, N.Possible;
  }

  lemma CancelKeepsArgs(w: World, a: Action)
    requires ArgsFit(w) && a.PeerCancel? && Possible(w, a)
    ensures ArgsFit(Next(w, a))
  {
    if Cancellable(w) {
      PeerMoveKeepsArgs(w, Cancellation(w, a.now));
    }
  }

  lemma SaveKeepsArgs(w: World, a: Action)
    requires ArgsFit(w) && (a.PeerSave? || a.PeerRestart?) && Possible(w, a)
    ensures ArgsFit(Next(w, a))
  {
  }

  lemma AnswerKeepsArgs(w: World, a: Action)
    requires ArgsFit(w) && (a.PeerClone? || a.PeerAnswer? || a.PeerReply? || a.PeerReject?) && Possible(w, a)
    ensures ArgsFit(Next(w, a))
  {
    assert a.PeerAnswer? ==> S.Overlay(w.peer.sinks, w.remote.value, a.half.task).args == a.half.task.args;
  }

  lemma ClientKeepsArgs(w: World, a: Action)
    requires ArgsFit(w) && OfClient(a) && Possible(w, a)
    ensures ArgsFit(Next(w, a))
  {
    ClientLeaves(w, a);
    hide Next, Possible;
  }

  lemma ActionKeepsArgs(w: World, a: Action)
    requires ArgsFit(w) && Possible(w, a)
    ensures ArgsFit(Next(w, a))
  {
    hide ArgsFit;
    if OfClient(a) {
      ClientKeepsArgs(w, a);
    } else {
      match a
      case PeerEvent(ev) => PeerMoveKeepsArgs(w, ev);
      case PeerAccept(_, _, _) => AcceptSendsArgs(w, a);
      case PeerCancel(_) => CancelKeepsArgs(w, a);
      case PeerSave(_) => SaveKeepsArgs(w, a);
      case PeerRestart(_, _) => SaveKeepsArgs(w, a);
      case _ => AnswerKeepsArgs(w, a);
    }
  }

  lemma {:induction false} HistoryKeepsArgs(w: World, actions: seq<Action>)
    requires ArgsFit(w) && ValidHistory(w, actions)
    ensures ArgsFit(After(w, actions))
    decreases |actions|
  {
    hide ArgsFit, Possible, Next;
    if actions != [] {
      ActionKeepsArgs(w, actions[0]);
      HistoryKeepsArgs(Next(w, actions[0]), actions[1..]);
    }
  }

  /** In every state of every dispatch, restarts included, the peer's record, its
      saved copy and every answer on its way are of the command that was sent. */
  lemma PeerRunsWhatWasSent(w: World, z: World)
    requires Posted(w) && Reaches(w, z) && z.remote.Some?
    ensures z.remote.value in z.peer.records ==> z.peer.records[z.remote.value].args == z.local.args
    ensures z.remote.value in z.saved ==> z.saved[z.remote.value].args == z.local.args
    ensures forall round, t :: Record(round, t) in z.replies ==> t.args == z.local.args
  {
    var actions :| ValidHistory(w, actions) && After(w, actions) == z;
    HistoryKeepsArgs(w, actions);
  }

  // ---------------------------------------------------------------------
  // A poll sees what was printed
  // ---------------------------------------------------------------------

  /** The answer to a poll of a task that is executed, between lock sections, grows by
      exactly what its process prints; nobody else's does. */
  lemma PrintIsSeen(p: N.Peer, cap: nat, id: TaskId, out: Bytes, err: Bytes, t: Task, other: TaskId)
    requires N.Possible(p, N.Print(id, out, err)) && other != id
    ensures var p' := N.Next(p, cap, N.Print(id, out, err));
      && S.Overlay(p'.sinks, id, t).output == S.Overlay(p.sinks, id, t).output + out
      && S.Overlay(p'.sinks, id, t).errorOutput == S.Overlay(p.sinks, id, t).errorOutput + err
      && S.Overlay(p'.sinks, other, t) == S.Overlay(p.sinks, other, t)
      && p'.core == p.core && p'.records == p.records
  {
  }

  // ---------------------------------------------------------------------
  // What the peer's lock sections write
  // ---------------------------------------------------------------------

  /** The end of an execution: every field of the record, and no live output changes
      until its thread drops it. */
  lemma EndIsWritten(p: N.Peer, cap: nat, ev: N.Event, id: TaskId)
    requires N.Possible(p, ev) && N.Concludes(p, ev, id) && id in p.core.tasks && id in p.records
    ensures var p', t := N.Next(p, cap, ev), N.Record(p, id);
      && id in p'.core.tasks && id in p'.records && p'.sinks == p.sinks && p'.dropping == p.dropping[ev.e.t := id]
      && var ended := Some(if t.endedAt.Some? then t.endedAt.value else ev.detail.now);
         N.Record(p', id) ==
           match ev.detail.result
           case Exited(code, out, err, artifacts) =>
             if t.status == Cancelled then Task(t.args, Cancelled, out, err, Some(code), t.createdAt, ended, artifacts)
             else if code == 0 then Task(t.args, Completed, out, err, Some(code), t.createdAt, ended, artifacts)
             else Task(t.args, Failed, out, err, Some(code), t.createdAt, ended, artifacts)
           case Broken(message) =>
             if t.status == Cancelled then Task(t.args, Cancelled, t.output, t.errorOutput, t.exitCode, t.createdAt, ended, t.artifacts)
             else Task(t.args, Failed, t.output, message, t.exitCode, t.createdAt, ended, t.artifacts)
  {
  }

  /** A submission and a cancel: every field of the record. */
  lemma BeginAndCancelAreWritten(p: N.Peer, cap: nat, d: N.Detail, n: L.Tid, newcomer: TaskId, id: TaskId)
    requires n !in p.core.threads && newcomer !in p.core.issued && id in p.core.tasks && id in p.records
    ensures var p' := N.Next(p, cap, N.Section(L.Arrive(n, newcomer), d));
      newcomer in p'.core.tasks && newcomer in p'.records
      && N.Record(p', newcomer) == Task(d.args, Queued, [], [], None, d.now, None, [])
    ensures var p', t := N.Next(p, cap, N.Section(L.CancelTask(id), d)), N.Record(p, id);
      id in p'.core.tasks && id in p'.records
      && N.Record(p', id) ==
           if t.status == Queued || t.status == Running
           then Task(t.args, Cancelled, t.output, t.errorOutput, t.exitCode, t.createdAt,
                     Some(if t.endedAt.Some? then t.endedAt.value else d.now), t.artifacts)
           else t
  {
  }

  /** Live output begins empty when the arguments are read, and goes when its thread
      drops it; the first lookup of a poll copies the record. */
  lemma LiveOutputComesAndGoes(p: N.Peer, cap: nat, t: L.Tid, d: N.Detail, id: TaskId, u: L.Tid)
    requires t in p.core.threads && p.core.threads[t].Starting? && p.core.threads[t].id == id && id in p.core.tasks
    requires t !in p.dropping && u in p.dropping && id in p.records
    ensures id in N.Next(p, cap, N.Section(L.Turn(t, 0, 0), d)).sinks
    ensures N.Next(p, cap, N.Section(L.Turn(t, 0, 0), d)).sinks[id] == S.Sink([], [])
    ensures p.dropping[u] !in N.Next(p, cap, N.Drop(u)).sinks && u !in N.Next(p, cap, N.Drop(u)).dropping
    ensures N.Clone(p, id) == Some(N.Record(p, id))
  {
  }

  /** A restart: every field of every record. */
  lemma RestartIsWritten(p: N.Peer, saved: map<TaskId, Task>, note: Bytes, now: nat, id: TaskId)
    ensures var p' := N.Restart(p, saved, note, now);
      && p'.sinks == map[] && p'.dropping == map[] && p'.core.threads == map[] && p'.core.pending == []
      && (id in p'.records <==> id in saved) && (id in p'.core.tasks <==> id in saved)
      && (id in saved ==>
            var t := saved[id];
            N.Record(p', id) ==
              if t.status == Queued || t.status == Running
              then Task(t.args, Cancelled, t.output, if t.errorOutput == [] then note else t.errorOutput, t.exitCode,
                        t.createdAt, Some(if t.endedAt.Some? then t.endedAt.value else now), t.artifacts)
              else t)
  {
  }
}
