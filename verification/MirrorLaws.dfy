/** What the mirror shows of one dispatch, spelled out for whole sequences of polls
    and for each end of it. */
module MirrorLaws {
  import opened Tasks
  import opened Sequences
  import opened Mirroring

  // ---------------------------------------------------------------------
  // While the client polls
  // ---------------------------------------------------------------------

  /** The last answered poll. */
  function LastAnswer(polls: seq<Poll>): Option<Task> {
    if polls == [] then None
    else if Last(polls).Answer? then Some(Last(polls).task)
    else LastAnswer(Front(polls))
  }

  /** The last list of artifacts that was not empty. */
  function LastArtifacts(polls: seq<Poll>, before: seq<Artifact>): seq<Artifact> {
    if polls == [] then before
    else if Last(polls).Answer? && Last(polls).task.artifacts != [] then Last(polls).task.artifacts
    else LastArtifacts(Front(polls), before)
  }

  /** m' is m with t as the record of id. */
  ghost predicate Shows(m: Mirror, m': Mirror, id: TaskId, t: Task) {
    && id in m'.tasks && m'.tasks[id] == t
    && m'.tasks.Keys == m.tasks.Keys + {id}
    && forall x :: x in m.tasks && x != id ==> m'.tasks[x] == m.tasks[x]
  }

  /** For every sequence of polls the mirror shows the output and the error output of
      the last answer and the last artifacts, as Running; it keeps the reference,
      and everything else. */
  lemma {:induction false} MirrorShowsLastAnswer(m: Mirror, id: TaskId, polls: seq<Poll>)
    requires id in m.tasks && m.tasks[id].status == Running
    ensures var m', t, a := AfterPolls(m, id, polls), m.tasks[id], LastAnswer(polls);
      && m'.refs == m.refs
      && Shows(m, m', id, Task(t.args, Running,
                               if a.Some? then a.value.output else t.output,
                               if a.Some? then a.value.errorOutput else t.errorOutput,
                               t.exitCode, t.createdAt, t.endedAt, LastArtifacts(polls, t.artifacts)))
    decreases |polls|
  {
    if polls != [] {
      assert polls[..|polls| - 1] == Front(polls);
      MirrorShowsLastAnswer(m, id, Front(polls));
    }
  }

  /** From the moment the peer has accepted the task. */
  lemma PollingIsShown(m: Mirror, id: TaskId, peerIp: string, remoteId: TaskId, polls: seq<Poll>)
    requires id in m.tasks
    ensures var m', t, a := AfterPolls(SetStatus(SetRef(m, id, RemoteRef(peerIp, remoteId)), id, Running), id, polls),
                            m.tasks[id], LastAnswer(polls);
      && id in m'.refs && m'.refs[id].peerIp == peerIp && m'.refs[id].remoteId == remoteId
      && (forall x :: x != id ==> (x in m'.refs <==> x in m.refs) && (x in m.refs ==> m'.refs[x] == m.refs[x]))
      && Shows(m, m', id, Task(t.args, Running,
                               if a.Some? then a.value.output else t.output,
                               if a.Some? then a.value.errorOutput else t.errorOutput,
                               t.exitCode, t.createdAt, t.endedAt, LastArtifacts(polls, t.artifacts)))
  {
    MirrorShowsLastAnswer(SetStatus(SetRef(m, id, RemoteRef(peerIp, remoteId)), id, Running), id, polls);
    hide AfterPolls, LastAnswer, LastArtifacts;
  }

  // ---------------------------------------------------------------------
  // The ends of a dispatch
  // ---------------------------------------------------------------------

  /** The reference of id is gone, and no other. */
  ghost predicate Forgets(m: Mirror, m': Mirror, id: TaskId) {
    && id !in m'.refs
    && forall x :: x != id ==> (x in m'.refs <==> x in m.refs) && (x in m.refs ==> m'.refs[x] == m.refs[x])
  }

  /** A returned record is the local submission with the peer's result. */
  lemma ReturnIsShown(m: Mirror, id: TaskId, local: Task, t: Task, error: Bytes, now: nat)
    ensures var m' := AfterDispatch(m, id, local, Ok(t), error, now);
      && Forgets(m, m', id)
      && Shows(m, m', id, Task(local.args, t.status, t.output, t.errorOutput, t.exitCode, local.createdAt, Some(now), t.artifacts))
  {
  }

  /** A dispatch that fails leaves what was mirrored, with the error. */
  lemma FailureIsShown(m: Mirror, id: TaskId, local: Task, e: DispatchError, error: Bytes, now: nat)
    requires id in m.tasks
    ensures var m', t := AfterDispatch(m, id, local, Err(e), error, now), m.tasks[id];
      && Forgets(m, m', id)
      && Shows(m, m', id, Task(t.args, Failed, t.output, error, t.exitCode, t.createdAt,
                               Some(if t.endedAt.Some? then t.endedAt.value else now), t.artifacts))
  {
  }

  /** A cancel leaves what was mirrored. */
  lemma CancelIsShown(m: Mirror, id: TaskId, now: nat)
    requires id in m.tasks
    ensures var m', t := SetCancelled(m, id, now), m.tasks[id];
      && m'.refs == m.refs
      && Shows(m, m', id, Task(t.args, Cancelled, t.output, t.errorOutput, t.exitCode, t.createdAt,
                               Some(if t.endedAt.Some? then t.endedAt.value else now), t.artifacts))
  {
  }

  /** Exactly the records that are over can be removed, together with the
      reference. */
  lemma RemovalIsShown(m: Mirror, id: TaskId)
    requires id in m.tasks
    ensures var m' := RemoveFinished(m, id);
      && (id !in m'.tasks <==> m.tasks[id].status != Queued && m.tasks[id].status != Running)
      && (id !in m'.tasks ==> Forgets(m, m', id))
      && (id in m'.tasks ==> m' == m)
      && forall x :: x in m.tasks && x != id ==> x in m'.tasks && m'.tasks[x] == m.tasks[x]
  {
  }
}
