/** The task record shared by both directions of a dispatch, and the result
    types of the operations on it. */
module Tasks {

  /** A byte of UTF-8 text or of a network stream. */
  newtype byte = b: int | 0 <= b < 256

  type Bytes = seq<byte>

  /** A task identifier, a 128-bit UUID in the application. */
  datatype TaskId = TaskId(uuid: nat)

  datatype Option<+T> = None | Some(value: T)

  datatype Result<+T, +E> = Ok(value: T) | Err(error: E)

  datatype Status = Queued | Running | Completed | Failed | Cancelled {
    /** The process has ended, or the task was cancelled. */
    predicate Terminal() {
      Completed? || Failed? || Cancelled?
    }
  }

  datatype Artifact = Artifact(path: string, content: Bytes)

  /** One task. The text fields hold UTF-8 bytes, as Rust strings do; endedAt
      is a Unix time in seconds. */
  datatype Task = Task(
    args: seq<string>,
    status: Status,
    output: Bytes,
    errorOutput: Bytes,
    exitCode: Option<int>,
    createdAt: nat,
    endedAt: Option<nat>,
    artifacts: seq<Artifact>
  )

  /** A freshly submitted task. */
  function NewTask(args: seq<string>, now: nat): (t: Task) {
    Task(args, Queued, [], [], None, now, None, [])
  }

  /** endedAt is stamped once and keeps its first value. */
  function Stamp(endedAt: Option<nat>, now: nat): (r: Option<nat>) {
    if endedAt.None? then Some(now) else endedAt
  }
}
