/** One dispatch between two machines, as a state machine: the client that
    submits, polls and cancels, the peer at the grain of its lock sections, and a
    network that delivers each message late, never, or more than once. The peer
    goes on with everything else it does, and may restart from an old saved
    copy. */
module Dispatch {
  import opened Tasks
  import opened Mirroring
  import S = Scheduler
  import L = SchedulerLocks
  import P = LockProgress
  import N = PeerSections

  datatype Request =
    | Post
    | Poll(id: TaskId, round: nat)
    | Delete(id: TaskId)

  datatype Reply =
    | Accepted(id: TaskId)
    | Rejected
    | Record(round: nat, task: Task)
    | Unknown(round: nat)
    | CancelDone
    | CancelFailed

  datatype Client =
    | Submitting
    | Polling(round: nat, waiting: bool)
    | Returned(result: Result<Task, DispatchError>)

  /** The peer's handler of the submission: its thread n is inside create_and_run,
      has come back from it, or died with the application. */
  datatype Handler = NotStarted | Inside(n: L.Tid) | Back | Killed

  /** A poll that has copied the record and not yet looked for live output. */
  datatype Half = Half(round: nat, task: Task)

  /** Messages stay in requests and replies once sent, so they can be handled at
      any later time, repeatedly, or not at all. */
  datatype World = World(
    me: TaskId,                  // local identifier of the dispatch
    local: Task,                 // local record it fills in
    client: Client,
    mirror: Mirror,
    requests: set<Request>,
    replies: set<Reply>,
    cap: nat,                    // of the peer
    peer: N.Peer,
    handler: Handler,
    halves: set<Half>,
    saved: map<TaskId, Task>,    // what the peer has on disk
    remote: Option<TaskId>       // identifier the peer gave the task
  )

  datatype Action =
    // the peer
    | PeerEvent(ev: N.Event)
    | PeerAccept(n: L.Tid, id: TaskId, now: nat)
    | PeerReply
    | PeerReject
    | PeerClone(round: nat)
    | PeerAnswer(half: Half)
    | PeerCancel(now: nat)
    | PeerSave(copy: map<TaskId, Task>)
    | PeerRestart(note: Bytes, now: nat)
    // the dispatching thread
    | SubmitDone(peerIp: string)
    | SubmitFails(error: Bytes, now: nat)
    | StartPoll
    | PollDone(p: Mirroring.Poll, error: Bytes, now: nat)
    // the cancelling thread, and the local user
    | SendDelete
    | DeleteDone(now: nat)
    | DeleteFails(now: nat)
    | CancelLocally(now: nat)
    | RemoveLocally

  // ---------------------------------------------------------------------
  // Steps
  // ---------------------------------------------------------------------

  /** A saved copy may lose output and artifacts, nothing else. */
  predicate IsCopy(copy: map<TaskId, Task>, p: N.Peer) {
    && copy.Keys == p.core.tasks.Keys == p.records.Keys
    && forall id :: id in copy ==>
         copy[id] == N.Record(p, id).(output := copy[id].output, errorOutput := copy[id].errorOutput, artifacts := copy[id].artifacts)
  }

  /** The answer a poll takes is one the network holds for this round. */
  predicate Deliverable(w: World, round: nat, p: Mirroring.Poll) {
    match p
    case Answer(t) => Record(round, t) in w.replies
    case Gone => Unknown(round) in w.replies
    case _ => true
  }

  function Arrival(w: World, n: L.Tid, id: TaskId, now: nat): N.Event {
    N.Section(L.Arrive(n, id), N.Detail(w.local.args, S.Broken([]), now))
  }

  function Cancellation(w: World, now: nat): N.Event
    requires w.remote.Some?
  {
    N.Section(L.CancelTask(w.remote.value), N.Detail([], S.Broken([]), now))
  }

  predicate Possible(w: World, a: Action) {
    match a
    case PeerEvent(ev) => N.Possible(w.peer, ev)
    case PeerAccept(n, id, now) =>
      Post in w.requests && w.remote.None? && N.Possible(w.peer, Arrival(w, n, id, now)) && w.local.args != []
    case PeerReply => w.remote.Some? && w.handler.Back?
    case PeerReject => Post in w.requests
    case PeerClone(round) => w.remote.Some? && Poll(w.remote.value, round) in w.requests
    case PeerAnswer(half) => w.remote.Some? && half in w.halves
    case PeerCancel(_) => w.remote.Some? && Delete(w.remote.value) in w.requests
    case PeerSave(copy) => IsCopy(copy, w.peer)
    case PeerRestart(_, _) => true
    case SubmitDone(_) => w.client.Submitting? && w.remote.Some? && Accepted(w.remote.value) in w.replies
    case SubmitFails(_, _) => w.client.Submitting?
    case StartPoll => w.client.Polling? && !w.client.waiting
    case PollDone(p, _, _) => w.client.Polling? && w.client.waiting && Deliverable(w, w.client.round, p)
    case SendDelete => w.me in w.mirror.refs
    case DeleteDone(_) => CancelDone in w.replies
    case DeleteFails(_) => true
    case CancelLocally(_) => w.me !in w.mirror.refs
    case RemoveLocally => true
  }

  function Return(w: World, r: Result<Task, DispatchError>, mirror: Mirror, error: Bytes, now: nat): World {
    w.(client := Returned(match r case Ok(t) => Ok(Assemble(w.local, t, now)) case Err(e) => Err(e)),
       mirror := AfterDispatch(mirror, w.me, w.local, r, error, now))
  }

  /** The handler comes back when its thread has left the last lock section. */
  function MovePeer(w: World, ev: N.Event): World
    requires N.Possible(w.peer, ev)
  {
    var peer := N.Next(w.peer, w.cap, ev);
    w.(peer := peer, handler := if w.handler.Inside? && w.handler.n !in peer.core.threads then Back else w.handler)
  }

  /** The peer's cancel succeeds. */
  predicate Cancellable(w: World) {
    w.remote.Some? && w.remote.value in w.peer.core.tasks && !w.peer.core.tasks[w.remote.value].Terminal()
  }

  function Next(w: World, a: Action): World
    requires Possible(w, a)
  {
    match a
    case PeerEvent(ev) => MovePeer(w, ev)
    case PeerAccept(n, id, now) => MovePeer(w, Arrival(w, n, id, now)).(remote := Some(id), handler := Inside(n))
    case PeerReply => w.(replies := w.replies + {Accepted(w.remote.value)})
    case PeerReject => w.(replies := w.replies + {Rejected})
    case PeerClone(round) =>
      var seen := N.Clone(w.peer, w.remote.value);
      if seen.Some? then w.(halves := w.halves + {Half(round, seen.value)})
      else w.(replies := w.replies + {Unknown(round)})
    case PeerAnswer(half) =>
      w.(halves := w.halves - {half},
         replies := w.replies + {Record(half.round, S.Overlay(w.peer.sinks, w.remote.value, half.task))})
    case PeerCancel(now) =>
      if Cancellable(w)
      then MovePeer(w, Cancellation(w, now)).(replies := w.replies + {CancelDone})
      else w.(replies := w.replies + {CancelFailed})
    case PeerSave(copy) => w.(saved := copy)
    case PeerRestart(note, now) =>
      w.(peer := N.Restart(w.peer, w.saved, note, now), halves := {},
         handler := if w.handler.Inside? then Killed else w.handler)
    case SubmitDone(peerIp) =>
      w.(client := Polling(0, false),
         mirror := SetStatus(SetRef(w.mirror, w.me, RemoteRef(peerIp, w.remote.value)), w.me, Running))
    case SubmitFails(error, now) => Return(w, Err(Refused), w.mirror, error, now)
    case StartPoll =>
      var round := w.client.round + 1;
      w.(client := Polling(round, true),
         requests := w.requests + (if w.remote.Some? then {Poll(w.remote.value, round)} else {}))
    case PollDone(p, error, now) =>
      var m := AfterPoll(w.mirror, w.me, p);
      if Verdict(p).Some? then Return(w, Verdict(p).value, m, error, now)
      else w.(client := Polling(w.client.round, false), mirror := m)
    case SendDelete => w.(requests := w.requests + {Delete(w.mirror.refs[w.me].remoteId)})
    case DeleteDone(now) => w.(mirror := ClearRef(SetCancelled(w.mirror, w.me, now), w.me))
    case DeleteFails(now) => w.(mirror := SetCancelled(w.mirror, w.me, now))
    case CancelLocally(now) => w.(mirror := SetCancelled(w.mirror, w.me, now))
    case RemoveLocally => w.(mirror := Mirroring.RemoveFinished(w.mirror, w.me))
  }

  predicate ValidHistory(w: World, actions: seq<Action>)
    decreases |actions|
  {
    actions == [] || (Possible(w, actions[0]) && ValidHistory(Next(w, actions[0]), actions[1..]))
  }

  function After(w: World, actions: seq<Action>): World
    requires ValidHistory(w, actions)
    decreases |actions|
  {
    if actions == [] then w else After(Next(w, actions[0]), actions[1..])
  }

  /** Some history leads from w to w'. */
  ghost predicate Reaches(w: World, w': World) {
    exists actions :: ValidHistory(w, actions) && After(w, actions) == w'
  }

  /** Some history without a restart of the peer leads from w to w'. */
  ghost predicate StaysUp(w: World, w': World) {
    exists actions :: ValidHistory(w, actions) && NoRestart(actions) && After(w, actions) == w'
  }

  predicate NoRestart(actions: seq<Action>) {
    forall i :: 0 <= i < |actions| ==> !actions[i].PeerRestart?
  }

  /** A dispatch that has just posted its task to a peer in any sound state, with
      any earlier copy of its records on disk. */
  ghost predicate Posted(w: World) {
    && N.Fits(w.peer) && w.cap >= 1 && w.saved.Keys <= w.peer.core.issued
    && w.client == Submitting && w.remote.None? && w.handler == NotStarted && w.halves == {}
    && w.requests == {Post} && w.replies == {}
    && w.me in w.mirror.tasks && w.mirror.tasks[w.me] == w.local && w.me !in w.mirror.refs
    && w.local.status == Queued && w.local.args != []
  }

  // ---------------------------------------------------------------------
  // Histories
  // ---------------------------------------------------------------------

  lemma ReachesItself(w: World)
    ensures Reaches(w, w)
  {
    assert ValidHistory(w, []) && After(w, []) == w;
  }

  lemma ReachesFirst(w: World, a: Action, w': World)
    requires Possible(w, a) && Reaches(Next(w, a), w')
    ensures Reaches(w, w')
  {
    hide Possible, Next;
    var actions :| ValidHistory(Next(w, a), actions) && After(Next(w, a), actions) == w';
    assert ([a] + actions)[1..] == actions;
    assert ValidHistory(w, [a] + actions) && After(w, [a] + actions) == w';
  }

  lemma {:induction false} ReachesOn(w: World, actions: seq<Action>, w': World)
    requires ValidHistory(w, actions) && Reaches(After(w, actions), w')
    ensures Reaches(w, w')
    decreases |actions|
  {
    hide Possible, Next, Reaches;
    if actions != [] {
      ReachesOn(Next(w, actions[0]), actions[1..], w');
      ReachesFirst(w, actions[0], w');
    }
  }

  lemma ReachesThrough(w: World, u: World, v: World)
    requires Reaches(w, u) && Reaches(u, v)
    ensures Reaches(w, v)
  {
    var actions :| ValidHistory(w, actions) && After(w, actions) == u;
    hide Reaches, ValidHistory, After;
    ReachesOn(w, actions, v);
  }

  lemma ReachesNext(w: World, u: World, a: Action)
    requires Reaches(w, u) && Possible(u, a)
    ensures Reaches(w, Next(u, a))
  {
    hide Possible, Next, Reaches;
    ReachesItself(Next(u, a));
    ReachesFirst(u, a, Next(u, a));
    ReachesThrough(w, u, Next(u, a));
  }

  lemma UpReaches(w: World, w': World)
    requires StaysUp(w, w')
    ensures Reaches(w, w')
  {
    var actions :| ValidHistory(w, actions) && NoRestart(actions) && After(w, actions) == w';
    assert ValidHistory(w, actions) && After(w, actions) == w';
  }

  lemma StaysUpFirst(w: World, a: Action, w': World)
    requires Possible(w, a) && !a.PeerRestart? && StaysUp(Next(w, a), w')
    ensures StaysUp(w, w')
  {
    hide Possible, Next;
    var actions :| ValidHistory(Next(w, a), actions) && NoRestart(actions) && After(Next(w, a), actions) == w';
    assert ([a] + actions)[1..] == actions;
    assert ValidHistory(w, [a] + actions) && NoRestart([a] + actions) && After(w, [a] + actions) == w';
  }

  lemma StaysUpHere(w: World)
    ensures StaysUp(w, w)
  {
    assert ValidHistory(w, []) && NoRestart([]) && After(w, []) == w;
  }

  lemma {:induction false} StaysUpOn(w: World, actions: seq<Action>, w': World)
    requires ValidHistory(w, actions) && NoRestart(actions) && StaysUp(After(w, actions), w')
    ensures StaysUp(w, w')
    decreases |actions|
  {
    hide Possible, Next, StaysUp;
    if actions != [] {
      StaysUpOn(Next(w, actions[0]), actions[1..], w');
      StaysUpFirst(w, actions[0], w');
    }
  }

  lemma StaysUpThrough(w: World, u: World, v: World)
    requires StaysUp(w, u) && StaysUp(u, v)
    ensures StaysUp(w, v)
  {
    var actions :| ValidHistory(w, actions) && NoRestart(actions) && After(w, actions) == u;
    hide StaysUp, ValidHistory, After, NoRestart;
    StaysUpOn(w, actions, v);
  }

  /** Since w the peer has stayed up, or there was a last restart, in state y. */
  lemma {:induction false} UpSinceTheLastRestart(w: World, actions: seq<Action>) returns (y: World, last: Action)
    requires ValidHistory(w, actions)
    ensures StaysUp(w, After(w, actions))
         || (Reaches(w, y) && last.PeerRestart? && Possible(y, last) && StaysUp(Next(y, last), After(w, actions)))
    decreases |actions|
  {
    hide Possible, Next, StaysUp, Reaches;
    y, last := w, PeerReject;
    if actions == [] {
      StaysUpHere(w);
    } else {
      var a, m := actions[0], Next(w, actions[0]);
      y, last := UpSinceTheLastRestart(m, actions[1..]);
      if !StaysUp(m, After(m, actions[1..])) {
        ReachesFirst(w, a, y);
      } else if a.PeerRestart? {
        y, last := w, a;
        ReachesItself(w);
      } else {
        StaysUpFirst(w, a, After(m, actions[1..]));
      }
    }
  }

  // ---------------------------------------------------------------------
  // What every action keeps
  // ---------------------------------------------------------------------

  /** The peer is sound, and so are the identifiers on its disk. */
  ghost predicate PeerFits(w: World) {
    && N.Fits(w.peer) && w.cap >= 1
    && w.saved.Keys <= w.peer.core.issued
    && (w.remote.Some? ==> w.remote.value in w.peer.core.issued)
  }

  /** No record on its way, on disk or at the peer says that the task ended by
      itself. */
  ghost predicate NoTrace(w: World, id: TaskId) {
    && (id in w.peer.core.tasks ==> !N.Over(w.peer.core.tasks[id]))
    && (id in w.saved ==> !N.Over(w.saved[id].status))
    && (forall h :: h in w.halves ==> !N.Over(h.task.status))
    && (forall round, t :: Record(round, t) in w.replies ==> !N.Over(t.status))
  }

  /** Before the task has an identifier nothing is known of it, and while the peer
      has it in hand it has not ended. */
  ghost predicate TraceFits(w: World) {
    match w.remote
    case None => w.halves == {} && forall round, t :: Record(round, t) !in w.replies
    case Some(id) => P.InHand(w.peer.core, id) ==> NoTrace(w, id)
  }

  /** A poll that has copied an ended record has copied the record there is. */
  ghost predicate HalvesFit(w: World) {
    w.remote.Some? ==>
      var id := w.remote.value;
      forall h :: h in w.halves && N.Over(h.task.status) && id in w.peer.core.tasks && id in w.peer.records ==>
        N.Over(w.peer.core.tasks[id]) && h.task == N.Record(w.peer, id)
  }

  /** A returned record was assembled from a final record of the peer. */
  ghost predicate ReturnFits(w: World) {
    w.client.Returned? && w.client.result.Ok? ==>
      exists round, t, now ::
        Record(round, t) in w.replies && t.status.Terminal() && w.client.result.value == Assemble(w.local, t, now)
  }

  ghost predicate Sound(w: World) {
    PeerFits(w) && TraceFits(w) && HalvesFit(w) && ReturnFits(w)
  }

  lemma PostedIsSound(w: World)
    requires Posted(w)
    ensures Sound(w)
  {
  }

  lemma SameReturn(w: World, w': World)
    requires ReturnFits(w) && w'.client == w.client && w'.local == w.local && w.replies <= w'.replies
    ensures ReturnFits(w')
  {
    if w.client.Returned? && w.client.result.Ok? {
      var round, t, now :|
        Record(round, t) in w.replies && t.status.Terminal() && w.client.result.value == Assemble(w.local, t, now);
      assert Record(round, t) in w'.replies;
    }
  }

  /** A section of the peer, whatever else changes in the peer's handlers. */
  lemma PeerMoveSound(w: World, ev: N.Event, w': World)
    requires Sound(w) && N.Possible(w.peer, ev)
    requires w'.peer == N.Next(w.peer, w.cap, ev)
    requires w' == w.(peer := w'.peer, handler := w'.handler)
    ensures Sound(w')
  {
    N.EventKeepsFits(w.peer, w.cap, ev);
    hide N.Next, N.Possible, N.Fits;
    SameReturn(w, w');
    MoveKeepsIssued(w.peer, w.cap, ev);
    if w.remote.Some? {
      MoveKeepsTrace(w, ev, w');
      MoveKeepsHalves(w, ev, w');
    }
  }

  lemma MoveKeepsIssued(p: N.Peer, cap: nat, ev: N.Event)
    requires N.Possible(p, ev)
    ensures p.core.issued <= N.Next(p, cap, ev).core.issued
  {
    hide N.NextRecords, N.NextSinks, N.NextDropping;
  }

  lemma MoveKeepsTrace(w: World, ev: N.Event, w': World)
    requires PeerFits(w) && TraceFits(w) && w.remote.Some? && N.Possible(w.peer, ev)
    requires w'.peer == N.Next(w.peer, w.cap, ev) && w' == w.(peer := w'.peer, handler := w'.handler)
    ensures TraceFits(w')
  {
    var id := w.remote.value;
    if P.InHand(w'.peer.core, id) {
      StillInHand(w.peer, w.cap, ev, id);
      N.OthersWriteNothing(w.peer, w.cap, ev, id);
    }
  }

  /** What is in hand after a section was before, and was not concluded. */
  lemma StillInHand(p: N.Peer, cap: nat, ev: N.Event, id: TaskId)
    requires N.Fits(p) && N.Possible(p, ev) && id in p.core.issued && P.InHand(N.Next(p, cap, ev).core, id)
    ensures P.InHand(p.core, id) && !N.Concludes(p, ev, id)
  {
    hide N.NextRecords, N.NextSinks, N.NextDropping, P.InHand, L.Step;
    if ev.Section? {
      P.HandsComeFrom(p.core, cap, ev.e, id);
      if N.Concludes(p, ev, id) {
        P.ExecutionLetsGo(p.core, cap, ev.e.t, ev.e.child, ev.e.code);
      }
    }
  }

  lemma MoveKeepsHalves(w: World, ev: N.Event, w': World)
    requires PeerFits(w) && HalvesFit(w) && w.remote.Some? && N.Possible(w.peer, ev)
    requires w'.peer == N.Next(w.peer, w.cap, ev) && w' == w.(peer := w'.peer, handler := w'.handler)
    ensures HalvesFit(w')
  {
    var id := w.remote.value;
    if id in w'.peer.core.tasks {
      StillKnown(w.peer, w.cap, ev, id);
      if N.Over(w.peer.core.tasks[id]) {
        N.OverIsFinal(w.peer, w.cap, ev, id);
      }
    }
  }

  lemma StillKnown(p: N.Peer, cap: nat, ev: N.Event, id: TaskId)
    requires N.Fits(p) && N.Possible(p, ev) && id in p.core.issued && id in N.Next(p, cap, ev).core.tasks
    ensures id in p.core.tasks && id in p.records
  {
    hide N.NextRecords, N.NextSinks, N.NextDropping;
  }

  lemma PeerAcceptSound(w: World, a: Action)
    requires Sound(w) && a.PeerAccept? && Possible(w, a)
    ensures Sound(Next(w, a))
  {
    var ev := Arrival(w, a.n, a.id, a.now);
    var w' := Next(w, a);
    N.EventKeepsFits(w.peer, w.cap, ev);
    SameReturn(w, w');
    assert w'.peer.core.tasks[a.id] == Queued;
    assert a.id !in w.saved;
  }

  lemma PeerCloneSound(w: World, a: Action)
    requires Sound(w) && a.PeerClone? && Possible(w, a)
    ensures Sound(Next(w, a))
  {
    SameReturn(w, Next(w, a));
  }

  lemma PeerAnswerSound(w: World, a: Action)
    requires Sound(w) && a.PeerAnswer? && Possible(w, a)
    ensures Sound(Next(w, a))
  {
    var w' := Next(w, a);
    SameReturn(w, w');
    assert forall round, t :: Record(round, t) in w'.replies ==> Record(round, t) in w.replies || t.status == a.half.task.status;
  }

  lemma PeerCancelSound(w: World, a: Action)
    requires Sound(w) && a.PeerCancel? && Possible(w, a)
    ensures Sound(Next(w, a))
  {
    var w' := Next(w, a);
    if Cancellable(w) {
      var m := MovePeer(w, Cancellation(w, a.now));
      PeerMoveSound(w, Cancellation(w, a.now), m);
      MoreReplies(m, w', {CancelDone});
    } else {
      MoreReplies(w, w', {CancelFailed});
    }
  }

  lemma MoreReplies(w: World, w': World, more: set<Reply>)
    requires Sound(w) && w' == w.(replies := w.replies + more)
    requires forall r :: r in more ==> !r.Record?
    ensures Sound(w')
  {
    hide N.Fits;
    SameReturn(w, w');
  }

  lemma PeerSaveSound(w: World, copy: map<TaskId, Task>)
    requires Sound(w) && IsCopy(copy, w.peer)
    ensures Sound(w.(saved := copy))
  {
    var w' := w.(saved := copy);
    SameReturn(w, w');
    assert copy.Keys <= w.peer.core.issued;
  }

  lemma PeerRestartSound(w: World, note: Bytes, now: nat)
    requires Sound(w)
    ensures Sound(Next(w, PeerRestart(note, now)))
  {
    var w' := Next(w, PeerRestart(note, now));
    N.RestartFits(w.peer, w.saved, note, now);
    SameReturn(w, w');
    assert forall id :: !P.InHand(w'.peer.core, id);
  }

  predicate OfClient(a: Action) {
    || a.SubmitDone? || a.SubmitFails? || a.StartPoll? || a.PollDone? || a.SendDelete?
    || a.DeleteDone? || a.DeleteFails? || a.CancelLocally? || a.RemoveLocally?
  }

  /** A client action leaves the peer and the replies alone. */
  lemma ClientLeaves(w: World, a: Action)
    requires OfClient(a) && Possible(w, a)
    ensures var w' := Next(w, a);
      w' == w.(client := w'.client, mirror := w'.mirror, requests := w'.requests)
    ensures w.client.Returned? ==> Next(w, a).client == w.client
  {
  }

  lemma ClientReturns(w: World, a: Action)
    requires ReturnFits(w) && OfClient(a) && Possible(w, a)
    ensures ReturnFits(Next(w, a))
  {
    var w' := Next(w, a);
    if a.PollDone? && a.p.Answer? && a.p.task.status.Terminal() {
      assert Record(w.client.round, a.p.task) in w'.replies;
      assert w'.client.result.value == Assemble(w'.local, a.p.task, a.now);
    } else if w'.client == w.client {
      SameReturn(w, w');
    }
  }

  lemma ClientSound(w: World, a: Action)
    requires Sound(w) && OfClient(a) && Possible(w, a)
    ensures Sound(Next(w, a))
  {
    ClientLeaves(w, a);
    ClientReturns(w, a);
    hide Next, Possible, N.Fits;
  }

  lemma ActionKeepsSound(w: World, a: Action)
    requires Sound(w) && Possible(w, a)
    ensures Sound(Next(w, a))
  {
    if OfClient(a) {
      ClientSound(w, a);
    } else {
      PeerActionSound(w, a);
    }
  }

  lemma PeerActionSound(w: World, a: Action)
    requires Sound(w) && Possible(w, a) && !OfClient(a)
    ensures Sound(Next(w, a))
  {
    hide Sound;
    match a
    case PeerEvent(ev) => PeerMoveSound(w, ev, Next(w, a));
    case PeerAccept(_, _, _) => PeerAcceptSound(w, a);
    case PeerReply => MoreReplies(w, Next(w, a), {Accepted(w.remote.value)});
    case PeerReject => MoreReplies(w, Next(w, a), {Rejected});
    case PeerClone(_) => PeerCloneSound(w, a);
    case PeerAnswer(_) => PeerAnswerSound(w, a);
    case PeerCancel(_) => PeerCancelSound(w, a);
    case PeerSave(copy) => PeerSaveSound(w, copy);
    case PeerRestart(note, now) => PeerRestartSound(w, note, now);
    case _ =>
  }

  /** Over every history of both machines and the network. */
  lemma {:induction false} HistoryKeepsSound(w: World, actions: seq<Action>)
    requires Sound(w) && ValidHistory(w, actions)
    ensures Sound(After(w, actions))
    decreases |actions|
  {
    hide Sound, Possible, Next;
    if actions != [] {
      ActionKeepsSound(w, actions[0]);
      HistoryKeepsSound(Next(w, actions[0]), actions[1..]);
    }
  }

  lemma ReachableIsSound(w: World, w': World)
    requires Posted(w) && Reaches(w, w')
    ensures Sound(w')
  {
    PostedIsSound(w);
    var actions :| ValidHistory(w, actions) && After(w, actions) == w';
    HistoryKeepsSound(w, actions);
  }
}
