/** The mirror as the application keeps it: two tables that the methods update
    in place. */
module Outgoing {
  import opened Tasks
  import opened M = Mirroring

  class OutgoingTasks {
    var tasks: map<TaskId, Task>
    var remoteRefs: map<TaskId, RemoteRef>

    ghost function State(): Mirror
      reads this
    {
      Mirror(tasks, remoteRefs)
    }

    method Replace(id: TaskId, t: Task)
      modifies this
      ensures State() == Put(old(State()), id, t)
    {
      tasks := tasks[id := t];
    }

    method UpdateProgress(id: TaskId, status: Status)
      modifies this
      ensures State() == SetStatus(old(State()), id, status)
    {
      if id in tasks {
        tasks := tasks[id := tasks[id].(status := status)];
      }
    }

    method SetFailed(id: TaskId, error: Bytes, now: nat)
      modifies this
      ensures State() == M.SetFailed(old(State()), id, error, now)
    {
      if id in tasks {
        var t := tasks[id].(status := Failed, errorOutput := error);
        if t.endedAt.None? {
          t := t.(endedAt := Some(now));
        }
        tasks := tasks[id := t];
      }
    }

    method SetCancelled(id: TaskId, now: nat)
      modifies this
      ensures State() == M.SetCancelled(old(State()), id, now)
    {
      if id in tasks {
        var t := tasks[id].(status := Cancelled);
        if t.endedAt.None? {
          t := t.(endedAt := Some(now));
        }
        tasks := tasks[id := t];
      }
    }

    method MirrorRunning(id: TaskId, peer: Task)
      modifies this
      ensures State() == M.MirrorRunning(old(State()), id, peer)
    {
      if id in tasks {
        var t := tasks[id].(output := peer.output, errorOutput := peer.errorOutput);
        if peer.artifacts != [] {
          t := t.(artifacts := peer.artifacts);
        }
        tasks := tasks[id := t];
      }
    }

    method RemoveFinished(id: TaskId) returns (r: Result<(), RemoveRefusal>)
      modifies this
      ensures State() == M.RemoveFinished(old(State()), id)
      ensures r.Ok? <==> id in old(tasks) && old(tasks)[id].status.Terminal()
      ensures r.Err? ==> r.error == if id in old(tasks) then TaskActive else UnknownTask
    {
      if id !in tasks {
        return Err(UnknownTask);
      }
      if tasks[id].status == Queued || tasks[id].status == Running {
        return Err(TaskActive);
      }
      tasks := tasks - {id};
      remoteRefs := remoteRefs - {id};
      return Ok(());
    }

    /** The polling loop, once the peer has accepted the task as remoteId.
        polls are what successive rounds see before the local deadline. The
        result is the first decisive poll, and the mirror has absorbed exactly
        the polls up to it. */
    method PollUntilOver(id: TaskId, peerIp: string, remoteId: TaskId, polls: seq<Poll>)
      returns (r: Result<Task, DispatchError>, ghost k: nat)
      modifies this
      ensures k <= |polls|
      ensures forall i :: 0 <= i < k ==>
                polls[i].Transient? || (polls[i].Answer? && (polls[i].task.status == Queued || polls[i].task.status == Running))
      ensures k < |polls| ==>
        match polls[k]
        case Answer(t) => r == Ok(t) && (t.status == Completed || t.status == Failed || t.status == Cancelled)
        case Gone => r == Err(PeerLostTask)
        case LeftRoom => r == Err(NoRoom)
        case OutOfTime => r == Err(LocalDeadline)
        case Transient => false
      ensures k == |polls| ==> r == Err(LocalDeadline)
      ensures k < |polls| ==> Verdict(polls[k]) == Some(r)
      ensures State() == AfterPolls(SetStatus(SetRef(old(State()), id, RemoteRef(peerIp, remoteId)), id, Running), id,
                                    polls[..if k < |polls| then k + 1 else k])
    {
      remoteRefs := remoteRefs[id := RemoteRef(peerIp, remoteId)];
      UpdateProgress(id, Running);
      ghost var base := State();
      var i := 0;
      while i < |polls|
        invariant 0 <= i <= |polls|
        invariant State() == AfterPolls(base, id, polls[..i])
        invariant base == SetStatus(SetRef(old(State()), id, RemoteRef(peerIp, remoteId)), id, Running)
        invariant forall j :: 0 <= j < i ==>
          polls[j].Transient? || (polls[j].Answer? && (polls[j].task.status == Queued || polls[j].task.status == Running))
      {
        assert polls[..i + 1][..i] == polls[..i];
        match polls[i] {
          case Answer(t) =>
            MirrorRunning(id, t);
            if t.status == Completed || t.status == Failed || t.status == Cancelled {
              return Ok(t), i;
            }
            UpdateProgress(id, Running);
          case Gone => return Err(PeerLostTask), i;
          case LeftRoom => return Err(NoRoom), i;
          case OutOfTime => return Err(LocalDeadline), i;
          case Transient =>
        }
        i := i + 1;
      }
      assert polls[..|polls|] == polls;
      return Err(LocalDeadline), i;
    }

    /** Store the outcome of a dispatch and hand back the local record. */
    method FinishDispatch(id: TaskId, local: Task, r: Result<Task, DispatchError>, error: Bytes, now: nat)
      returns (result: Result<Task, DispatchError>)
      modifies this
      ensures State() == AfterDispatch(old(State()), id, local, r, error, now)
      ensures result == (match r case Ok(t) => Ok(Assemble(local, t, now)) case Err(e) => Err(e))
      ensures result.Ok? ==> result.value == tasks[id]
    {
      match r
      case Ok(t) =>
        var task := local.(status := t.status);
        task := task.(output := t.output);
        task := task.(errorOutput := t.errorOutput);
        task := task.(exitCode := t.exitCode);
        task := task.(artifacts := t.artifacts);
        task := task.(endedAt := Some(now));
        Replace(id, task);
        remoteRefs := remoteRefs - {id};
        result := Ok(task);
      case Err(e) =>
        SetFailed(id, error, now);
        remoteRefs := remoteRefs - {id};
        result := Err(e);
    }

    /** Cancel a local task: the DELETE goes out only while a remote reference
        is known; without one, or on success, the mirror is overwritten. The
        flag says that the peer acknowledged. */
    method CancelOutgoingTask(id: TaskId, reply: CancelReply, now: nat) returns (r: Result<bool, CancelReply>)
      modifies this
      ensures id !in old(remoteRefs) ==> r == Ok(false) && State() == M.SetCancelled(old(State()), id, now)
      ensures id in old(remoteRefs) && reply == Acknowledged ==>
                r == Ok(true) && State() == ClearRef(M.SetCancelled(old(State()), id, now), id)
      ensures id in old(remoteRefs) && reply != Acknowledged ==> r == Err(reply) && State() == old(State())
    {
      if id !in remoteRefs {
        SetCancelled(id, now);
        return Ok(false);
      }
      if reply != Acknowledged {
        return Err(reply);
      }
      SetCancelled(id, now);
      remoteRefs := remoteRefs - {id};
      return Ok(true);
    }

    /** The cancel request of the local API: when the peer refuses or cannot be
        reached the mirror is marked all the same. */
    method HandleCancel(id: TaskId, reply: CancelReply, now: nat) returns (remote: bool)
      modifies this
      ensures remote <==> id in old(remoteRefs) && reply == Acknowledged
      ensures tasks == M.SetCancelled(old(State()), id, now).tasks
      ensures remoteRefs == if remote then old(remoteRefs) - {id} else old(remoteRefs)
    {
      var r := CancelOutgoingTask(id, reply, now);
      if r.Err? {
        SetCancelled(id, now);
        return false;
      }
      return r.value;
    }
  }
}
