/** The local mirror of the tasks this machine sent to peers, and the client
    side of a dispatch: what one poll makes of an answer, the polling loop, and
    the cancel request. */
module Mirroring {
  import opened Tasks

  /** Where the peer runs a local task. */
  datatype RemoteRef = RemoteRef(peerIp: string, remoteId: TaskId)

  datatype Mirror = Mirror(tasks: map<TaskId, Task>, refs: map<TaskId, RemoteRef>)

  // ---------------------------------------------------------------------
  // Operations of the mirror; all but Put ignore an unknown identifier
  // ---------------------------------------------------------------------

  function Put(m: Mirror, id: TaskId, t: Task): Mirror {
    m.(tasks := m.tasks[id := t])
  }

  function SetStatus(m: Mirror, id: TaskId, status: Status): Mirror {
    if id in m.tasks then Put(m, id, m.tasks[id].(status := status)) else m
  }

  function SetFailed(m: Mirror, id: TaskId, error: Bytes, now: nat): Mirror {
    if id in m.tasks
    then Put(m, id, m.tasks[id].(status := Failed, errorOutput := error, endedAt := Stamp(m.tasks[id].endedAt, now)))
    else m
  }

  function SetCancelled(m: Mirror, id: TaskId, now: nat): Mirror {
    if id in m.tasks
    then Put(m, id, m.tasks[id].(status := Cancelled, endedAt := Stamp(m.tasks[id].endedAt, now)))
    else m
  }

  function MirrorRunning(m: Mirror, id: TaskId, peer: Task): Mirror {
    if id in m.tasks
    then Put(m, id, m.tasks[id].(
               output := peer.output,
               errorOutput := peer.errorOutput,
               artifacts := if peer.artifacts != [] then peer.artifacts else m.tasks[id].artifacts))
    else m
  }

  function SetRef(m: Mirror, id: TaskId, r: RemoteRef): Mirror {
    m.(refs := m.refs[id := r])
  }

  function ClearRef(m: Mirror, id: TaskId): Mirror {
    m.(refs := m.refs - {id})
  }

  function RemoveFinished(m: Mirror, id: TaskId): Mirror {
    if id in m.tasks && m.tasks[id].status.Terminal()
    then Mirror(m.tasks - {id}, m.refs - {id})
    else m
  }

  // ---------------------------------------------------------------------
  // One dispatch
  // ---------------------------------------------------------------------

  datatype DispatchError = Refused | PeerLostTask | LocalDeadline | NoRoom

  /** What one round of the polling loop sees. */
  datatype Poll =
    | Answer(task: Task)
    | Gone              // HTTP 404
    | Transient         // connection, body or decryption failure: retry
    | LeftRoom          // no key to sign the poll with
    | OutOfTime

  /** Whether a poll ends the loop, and with what. */
  function Verdict(p: Poll): Option<Result<Task, DispatchError>> {
    match p
    case Answer(t) => if t.status.Terminal() then Some(Ok(t)) else None
    case Gone => Some(Err(PeerLostTask))
    case Transient => None
    case LeftRoom => Some(Err(NoRoom))
    case OutOfTime => Some(Err(LocalDeadline))
  }

  /** What one poll writes to the mirror. */
  function AfterPoll(m: Mirror, id: TaskId, p: Poll): Mirror {
    if p.Answer?
    then
      var m' := MirrorRunning(m, id, p.task);
      if p.task.status.Terminal() then m' else SetStatus(m', id, Running)
    else m
  }

  function AfterPolls(m: Mirror, id: TaskId, polls: seq<Poll>): Mirror {
    if polls == [] then m else AfterPoll(AfterPolls(m, id, polls[..|polls| - 1]), id, polls[|polls| - 1])
  }

  /** The record a dispatch hands back: the local one with the peer's result. */
  function Assemble(local: Task, peer: Task, now: nat): Task {
    local.(status := peer.status, output := peer.output, errorOutput := peer.errorOutput,
           exitCode := peer.exitCode, artifacts := peer.artifacts, endedAt := Some(now))
  }

  /** What the end of a dispatch writes to the mirror. */
  function AfterDispatch(m: Mirror, id: TaskId, local: Task, r: Result<Task, DispatchError>, error: Bytes, now: nat): Mirror {
    match r
    case Ok(t) => ClearRef(Put(m, id, Assemble(local, t, now)), id)
    case Err(_) => ClearRef(SetFailed(m, id, error, now), id)
  }

  datatype RemoveRefusal = UnknownTask | TaskActive

  datatype CancelReply = Acknowledged | RefusedByPeer | Unreachable
}
