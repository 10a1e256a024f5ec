/** What the replies of the peer and the end of a dispatch say: when a submission is
    accepted, what an error stands for, and that nothing on its way is lost. */
module DispatchReplies {
  import opened Tasks
  import opened Mirroring
  import opened Dispatch
  import S = Scheduler
  import L = SchedulerLocks
  import P = LockProgress
  import N = PeerSections

  // ---------------------------------------------------------------------
  // The submission is over when it is accepted
  // ---------------------------------------------------------------------

  /** The thread has yet to check the cap for id, or to park it. */
  predicate Undecided(pc: L.Pc, id: TaskId) {
    (pc.Deciding? || pc.Parking?) && pc.id == id
  }

  /** The handler of the submission is the only thread that has yet to decide it, and
      no acceptance leaves before it has come back. */
  ghost predicate SubmissionFits(w: World) {
    && (w.remote.None? <==> w.handler.NotStarted?)
    && (w.remote.Some? ==>
          && w.remote.value in w.peer.core.issued
          && forall t :: t in w.peer.core.threads && Undecided(w.peer.core.threads[t], w.remote.value) ==> w.handler == Inside(t))
    && (forall id :: Accepted(id) in w.replies ==> w.handler.Back?)
  }

  lemma UndecidedBefore(p: N.Peer, cap: nat, ev: N.Event, id: TaskId, t: L.Tid)
    requires N.Possible(p, ev) && id in p.core.issued
    requires var core := N.Next(p, cap, ev).core; t in core.threads && Undecided(core.threads[t], id)
    ensures t in p.core.threads && Undecided(p.core.threads[t], id)
    ensures p.core.issued <= N.Next(p, cap, ev).core.issued
  {
    hide N.NextRecords, N.NextSinks, N.NextDropping;
  }

  lemma IssuedGrows(p: N.Peer, cap: nat, ev: N.Event)
    requires N.Possible(p, ev)
    ensures p.core.issued <= N.Next(p, cap, ev).core.issued
  {
    hide N.NextRecords, N.NextSinks, N.NextDropping;
  }

  lemma MoveKeepsSubmission(w: World, ev: N.Event)
    requires SubmissionFits(w) && N.Possible(w.peer, ev)
    ensures SubmissionFits(MovePeer(w, ev))
  {
    IssuedGrows(w.peer, w.cap, ev);
    var w' := MovePeer(w, ev);
    if w.remote.Some? {
      forall t | t in w'.peer.core.threads && Undecided(w'.peer.core.threads[t], w.remote.value)
        ensures w'.handler == Inside(t)
      {
        UndecidedBefore(w.peer, w.cap, ev, w.remote.value, t);
      }
    }
  }

  lemma AcceptStartsSubmission(w: World, a: Action)
    requires SubmissionFits(w) && P.Sound(w.peer.core) && a.PeerAccept? && Possible(w, a)
    ensures SubmissionFits(Next(w, a))
  {
    var w' := Next(w, a);
    assert forall t :: t in w.peer.core.threads && P.HasTask(w.peer.core.threads[t]) ==>
      w.peer.core.threads[t].id in w.peer.core.issued;
    assert forall t :: t in w'.peer.core.threads && t != a.n ==> w'.peer.core.threads[t] == w.peer.core.threads[t];
  }

  lemma OthersKeepSubmission(w: World, a: Action)
    requires SubmissionFits(w) && Possible(w, a) && !a.PeerEvent? && !a.PeerAccept? && !a.PeerCancel?
    ensures SubmissionFits(Next(w, a))
  {
  }

  lemma ActionKeepsSubmission(w: World, a: Action)
    requires SubmissionFits(w) && P.Sound(w.peer.core) && Possible(w, a)
    ensures SubmissionFits(Next(w, a))
  {
    hide SubmissionFits, P.Sound, N.Next;
    match a
    case PeerEvent(ev) => MoveKeepsSubmission(w, ev);
    case PeerAccept(_, _, _) => AcceptStartsSubmission(w, a);
    case PeerCancel(now) => CancelKeepsSubmission(w, now);
    case _ => OthersKeepSubmission(w, a);
  }

  lemma CancelKeepsSubmission(w: World, now: nat)
    requires SubmissionFits(w) && Possible(w, PeerCancel(now))
    ensures SubmissionFits(Next(w, PeerCancel(now)))
  {
    if Cancellable(w) {
      MoveKeepsSubmission(w, Cancellation(w, now));
    }
  }

  lemma {:induction false} HistoryKeepsSubmission(w: World, actions: seq<Action>)
    requires SubmissionFits(w) && Sound(w) && ValidHistory(w, actions)
    ensures SubmissionFits(After(w, actions))
    decreases |actions|
  {
    assert P.Sound(w.peer.core);
    hide SubmissionFits, Sound, P.Sound, Possible, Next;
    if actions != [] {
      ActionKeepsSubmission(w, actions[0]);
      ActionKeepsSound(w, actions[0]);
      HistoryKeepsSubmission(Next(w, actions[0]), actions[1..]);
    }
  }

  /** When the client learns the identifier of its task, the peer has decided the
      submission: no thread is left that would start or park the task for it. */
  lemma AcceptedIsDecided(w: World, z: World, id: TaskId)
    requires Posted(w) && Reaches(w, z) && Accepted(id) in z.replies
    ensures z.remote.Some?
    ensures forall t :: t in z.peer.core.threads ==> !Undecided(z.peer.core.threads[t], z.remote.value)
  {
    PostedIsSound(w);
    var actions :| ValidHistory(w, actions) && After(w, actions) == z;
    HistoryKeepsSubmission(w, actions);
  }

  // ---------------------------------------------------------------------
  // A restart during the submission
  // ---------------------------------------------------------------------

  ghost predicate NeverAccepted(w: World) {
    w.handler.Killed? && !w.client.Polling? && w.remote.Some? && forall id :: Accepted(id) !in w.replies
  }

  lemma StaysUnaccepted(w: World, a: Action)
    requires NeverAccepted(w) && Possible(w, a)
    ensures NeverAccepted(Next(w, a))
  {
    hide N.Next, N.Restart, N.Possible;
  }

  lemma {:induction false} HistoryStaysUnaccepted(w: World, actions: seq<Action>)
    requires NeverAccepted(w) && ValidHistory(w, actions)
    ensures NeverAccepted(After(w, actions))
    decreases |actions|
  {
    hide NeverAccepted, Possible, Next;
    if actions != [] {
      StaysUnaccepted(w, actions[0]);
      HistoryStaysUnaccepted(Next(w, actions[0]), actions[1..]);
    }
  }

  /** A peer that restarts while it handles the submission never accepts it: the
      client never polls, and what the dispatch returns, if anything, is an
      error. */
  lemma RestartRefuses(w: World, u: World, note: Bytes, now: nat, z: World)
    requires Posted(w) && Reaches(w, u) && u.handler.Inside? && Reaches(Next(u, PeerRestart(note, now)), z)
    ensures !z.client.Polling? && forall id :: Accepted(id) !in z.replies
    ensures z.client.Returned? ==> z.client.result.Err?
  {
    PostedIsSound(w);
    var before :| ValidHistory(w, before) && After(w, before) == u;
    HistoryKeepsSubmission(w, before);
    HistoryKeepsEnds(w, before);
    var m := Next(u, PeerRestart(note, now));
    assert m.handler.Killed? && m.client == u.client && m.replies == u.replies;
    var actions :| ValidHistory(m, actions) && After(m, actions) == z;
    ReachesItself(u);
    assert EndsFit(m);
    hide Posted, Reaches, Sound, SubmissionFits, Next, ValidHistory, After;
    HistoryStaysUnaccepted(m, actions);
    HistoryKeepsEnds(m, actions);
  }

  // ---------------------------------------------------------------------
  // What the end of a dispatch stands for
  // ---------------------------------------------------------------------

  ghost predicate Polled(w: World) {
    exists id, round :: Poll(id, round) in w.requests
  }

  /** A refusal comes before any poll, everything else after one; a lost task has been
      answered as unknown; a record has been answered; and who polls was
      accepted. */
  ghost predicate EndsFit(w: World) {
    && (w.client.Submitting? ==> !Polled(w))
    && (w.client.Polling? ==> w.remote.Some? && Accepted(w.remote.value) in w.replies && (w.client.waiting ==> Polled(w)))
    && (w.client.Returned? ==>
          match w.client.result
          case Ok(_) => Polled(w) && exists id :: Accepted(id) in w.replies
          case Err(e) =>
            && (e == Refused <==> !Polled(w))
            && (e == PeerLostTask ==> exists round :: Unknown(round) in w.replies))
  }

  lemma SamePolls(w: World, w': World)
    requires EndsFit(w) && w'.client == w.client && w'.requests == w.requests && w.replies <= w'.replies
    requires w.client.Polling? ==> w'.remote == w.remote
    ensures EndsFit(w')
  {
    assert Polled(w') <==> Polled(w);
  }

  lemma StartPollKeepsEnds(w: World)
    requires EndsFit(w) && Possible(w, StartPoll)
    ensures EndsFit(Next(w, StartPoll))
  {
    var w' := Next(w, StartPoll);
    assert Poll(w.remote.value, w.client.round + 1) in w'.requests;
    assert Polled(w');
  }

  lemma SendDeleteKeepsEnds(w: World)
    requires EndsFit(w) && Possible(w, SendDelete)
    ensures EndsFit(Next(w, SendDelete))
  {
    var w' := Next(w, SendDelete);
    if Polled(w) {
      var id, round :| Poll(id, round) in w.requests;
      assert Poll(id, round) in w'.requests;
    }
    if Polled(w') {
      var id, round :| Poll(id, round) in w'.requests;
      assert Poll(id, round) in w.requests;
    }
  }

  lemma PollDoneKeepsEnds(w: World, a: Action)
    requires EndsFit(w) && a.PollDone? && Possible(w, a)
    ensures EndsFit(Next(w, a))
  {
    var w' := Next(w, a);
    assert Polled(w') <==> Polled(w);
    assert Accepted(w.remote.value) in w'.replies;
  }

  lemma ActionKeepsEnds(w: World, a: Action)
    requires EndsFit(w) && Possible(w, a)
    ensures EndsFit(Next(w, a))
  {
    hide N.Next, N.Possible, N.Restart, EndsFit;
    match a
    case StartPoll => StartPollKeepsEnds(w);
    case SendDelete => SendDeleteKeepsEnds(w);
    case PollDone(_, _, _) => PollDoneKeepsEnds(w, a);
    case SubmitDone(_) => SubmitKeepsEnds(w, a);
    case SubmitFails(_, _) => SubmitKeepsEnds(w, a);
    case PeerAccept(_, _, _) => AcceptKeepsEnds(w, a);
    case _ => SamePolls(w, Next(w, a));
  }

  lemma SubmitKeepsEnds(w: World, a: Action)
    requires EndsFit(w) && (a.SubmitDone? || a.SubmitFails?) && Possible(w, a)
    ensures EndsFit(Next(w, a))
  {
    assert Polled(Next(w, a)) <==> Polled(w);
  }

  lemma AcceptKeepsEnds(w: World, a: Action)
    requires EndsFit(w) && a.PeerAccept? && Possible(w, a)
    ensures EndsFit(Next(w, a))
  {
    SamePolls(w, Next(w, a));
  }

  lemma {:induction false} HistoryKeepsEnds(w: World, actions: seq<Action>)
    requires EndsFit(w) && ValidHistory(w, actions)
    ensures EndsFit(After(w, actions))
    decreases |actions|
  {
    hide EndsFit, Possible, Next;
    if actions != [] {
      ActionKeepsEnds(w, actions[0]);
      HistoryKeepsEnds(Next(w, actions[0]), actions[1..]);
    }
  }

  /** In every history: a dispatch returns Refused exactly when it has not polled, a
      lost task only after the peer has answered that it does not know it, and a
      record only after an acceptance and a poll. */
  lemma ErrorsSayWhatHappened(w: World, z: World)
    requires Posted(w) && Reaches(w, z) && z.client.Returned?
    ensures z.client.result.Ok? ==> Polled(z) && exists id :: Accepted(id) in z.replies
    ensures z.client.result.Err? ==> (z.client.result.error == Refused <==> !Polled(z))
    ensures z.client.result == Err(PeerLostTask) ==> exists round :: Unknown(round) in z.replies
  {
    var actions :| ValidHistory(w, actions) && After(w, actions) == z;
    HistoryKeepsEnds(w, actions);
  }

  // ---------------------------------------------------------------------
  // Nothing on its way is lost
  // ---------------------------------------------------------------------

  /** Messages once sent stay on their way; a poll the peer has begun goes on until it is
      answered or the peer restarts; and each poll is answered by the record there
      is, or as unknown. */
  lemma NothingIsLost(w: World, a: Action)
    requires Possible(w, a)
    ensures w.requests <= Next(w, a).requests && w.replies <= Next(w, a).replies
    ensures forall h :: h in w.halves && h !in Next(w, a).halves ==> a == PeerAnswer(h) || a.PeerRestart?
    ensures a.PeerClone? ==>
      var id := w.remote.value;
      if id in w.peer.core.tasks && id in w.peer.records then Half(a.round, N.Record(w.peer, id)) in Next(w, a).halves
      else Unknown(a.round) in Next(w, a).replies
    ensures a.PeerAnswer? ==>
      Record(a.half.round, S.Overlay(w.peer.sinks, w.remote.value, a.half.task)) in Next(w, a).replies
  {
    hide N.Next, N.Possible, N.Restart;
  }

  /** The client remembers where its task runs, forgets it after an acknowledged cancel,
      and so sends no second one. */
  lemma ReferenceComesAndGoes(w: World, peerIp: string, now: nat)
    ensures Possible(w, SubmitDone(peerIp)) ==> Next(w, SubmitDone(peerIp)).mirror.refs == w.mirror.refs[w.me := RemoteRef(peerIp, w.remote.value)]
    ensures Possible(w, DeleteDone(now)) ==> !Possible(Next(w, DeleteDone(now)), SendDelete)
    ensures Possible(w, DeleteFails(now)) ==> Next(w, DeleteFails(now)).mirror.refs == w.mirror.refs
  {
  }
}
