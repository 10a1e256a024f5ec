# Verified model of PartaGPU

PartaGPU shares the CPUs, GPUs and memory of the machines of a classroom. A
machine accepts command lines from its peers, queues them under a concurrency
cap, runs each one in a sandbox and serves live output; the sender polls, mirrors
and cancels. Requests are authenticated with a keyed hash and encrypted for a
rotating key. A Python package and a form start distributed trainings over
several machines.

This project models the parts of that system whose correctness spans several
functions or whole runs, and proves it with Dafny. Run `dafny verify
dfyconfig.toml` to check all of it.

## How it is organised

Code that changes state is a class whose methods are proved to compute a function
of the old state; the laws are then proved about those functions, over one step
and over whole runs. The laws of `SchedulerLaws` are method-atomic: each public
method runs without interruption. What becomes of them when the lock sections of
several threads interleave is the subject of `SchedulerLocks`, `LockProgress`,
`LockOrder` and `PeerSections`.

| files | what they model |
|---|---|
| `Tasks`, `Sequences`, `Chunks`, `Sums` | task records and the small facts everything uses |
| `Scheduler`, `SchedulerLaws`, `TaskStory`, `IncomingTasks` | the incoming-task store, one public method per atomic step, and all that is said about one task over a run |
| `SchedulerLocks`, `LockProgress`, `LockRuns`, `LockOrder` | the same scheduler with every lock section a step of its own, what wakes a waiting task, how the two models fit together, and what is left of the order of arrival |
| `Mirror`, `MirrorLaws`, `Outgoing` | the outgoing mirror and the client's polling loop |
| `PeerSections`, `Dispatch`, `DispatchData`, `DispatchReplies`, `DispatchResults`, `DispatchWitnesses` | one dispatch between two machines over a network that delays, loses and repeats messages, with the peer at the grain of its lock sections |
| `Rotation`, `EphemeralKey` | key rotation with its grace period, and the envelopes sealed for a key |
| `RequestAuth`, `ReplayCache` | the request header, its framing, and the cache of accepted headers |
| `RequestHead`, `RequestReader`, `RequestWriting`, `SentRequests` | reading an HTTP request from a socket, the round trip with a client that writes it, and what blanks, spellings and malformed heads come to |
| `Utf8`, `CodePoints` (sections 3 and 4 of RFC 3629), `DrainStream`, `LiveOutput`, `LivePoller` | output from the pipe of the process to the lines the user sees |
| `ProcessTree` | the processes of a task and the memory counted for it |
| `CommandLine` | the command-line parser of the forms |
| `DdpRanks`, `DdpAbort` | ranks, devices, local ranks and the abort of a distributed training |
| `Usage` | per-user usage and the segments of the gauges |

Cryptographic primitives are parameters or ideal constructors. Where a hash or a
MAC must not collide, the assumption names the inputs at hand. Clocks, fresh
identifiers, process results and poll answers are parameters of the steps.

## Results where the obvious claim is false

Each of these comes with the exact condition under which the claim holds, as an
if-and-only-if, or with a sharp bound; where that takes an interleaving, a history
from a fresh application shows that the other side happens.

* An acknowledged cancel is decisive exactly when no thread of the peer had claimed
  the task when the DELETE was served; otherwise the peer can complete the task and
  the dispatch returns Completed
  (`DispatchResults.AcknowledgedCancelIsDecisiveExactly`,
  `DispatchWitnesses.AcknowledgedCancelCanBeUndone`).
* While the peer has not restarted since it answered, a returned Completed or
  Failed record is the peer's exactly unless the execution broke after printing and
  the poll fell between the writing of the record and the dropping of the live
  output (`DispatchResults.ReturnedResultIsThePeersRecordExactly`,
  `DispatchWitnesses.TornAnswerHappens`). After a restart it is the peer's exactly
  when it agrees with the copy the peer then had on disk; a peer that saved too
  early says Cancelled where the dispatch returned Completed
  (`DispatchResults.RestartedPeerAgreesExactly`,
  `DispatchWitnesses.RestartLosesResult`).
* The mirror of an outgoing task disagrees with the returned record exactly when a
  cancel came after the return. A cancelled mirror is overwritten by exactly the two
  ends of a submission, and the polls that do not say Cancelled
  (`DispatchResults.MirrorAgreesExactly`, `CancelledMirrorChangesExactly`,
  `DispatchWitnesses.SubmissionRevivesMirror`, `LatePollRevivesMirror`).
* Between lock sections a cancel is final exactly when no thread has claimed the
  task (`SchedulerLocks.CancelIsFinalExactly`), and at most cap + k - 1 tasks run,
  which is reached from every state at rest (`SchedulerLocks.BoundIsSharp`).
* Work conservation holds for whole methods only. Between lock sections a waiting
  task keeps k threads at hand, for every k up to the cap, exactly until one of the
  last k leaves in one of two ways. For k = 1 nobody is left and the task can wait
  for ever; for k the cap and every cap of at least two, a slot can stay idle beside
  a waiting task although no wake-up was lost (`LockProgress.AtHandExactly`,
  `AwakeExactly`, `LostWakeupLeavesTask`, `LockRuns.WakeupsAreLostFromEmpty`,
  `LockOrder.SlotIdlesFromEmpty`).
* A cancelled record is not final at once: the exit of its process rewrites its
  output (`SchedulerLaws.CancelledRecordIsFinalExactly`).
* Arrival order is not kept, even by whole methods: a submission overtakes a waiting
  task exactly when the processes that outlived a cancel are more than those beyond
  the cap (`SchedulerLaws.OvertakingExactly`).
* Nor is it between lock sections, without any cancel. Tasks are popped in the order
  in which they were parked, but a submission passes its check exactly when the
  threads without a Running task are more than those beyond the cap, and a popped
  task can be completed while one popped before it is still Queued
  (`LockOrder.FirstParkedFirstPopped`, `PassesCheckExactly`, `OvertakenFromEmpty`,
  `LaterEndsFirstFromEmpty`).
* The grace period of a replaced key is cut short by two rotations within one
  minute (`Rotation.GraceIsKeptExactly`); the ten-minute cadence avoids it.
* A header is accepted once and for all exactly when its timestamp is fewer than 30
  whole seconds ahead (`Replay.AcceptedOnceExactly`), and that is a property of the
  header's text: the cache does not recognise another spelling of the same time
  (`Replay.OtherHeaderExactly`, `OncePerTextNotPerRequest`).
* A request whose blank line ends within one read of the size limit is read
  differently depending on how it is cut (`RequestReader.SplitIsIrrelevantExactly`).
* Over the cap, the drained text depends on the reads exactly when some later
  character is short enough for the room left (`Draining.SplitIsIrrelevantExactly`).
* The form can pass its check for a selected GPU and still have no rank 0, exactly
  when all selected GPUs are on peers that are no longer targets
  (`DdpRanks.MasterExistsExactly`, `StaleSelectionHasNoMaster`).

Where the code and its comments differ, the code was followed:
`cancel_outgoing_task` is documented to return false when the peer cannot be
reached but returns an error; `handle_task_output` expects that a chunk may end
inside a character, which never happens because every offset is the length of an
earlier well-formed output; the grace period is documented without the condition
on rotations.

## Model

| member | source | states |
|---|---|---|
| Scheduler.RunningAreLive | src-tauri/src/task_runner/incoming.rs:97-104 | Running tasks are among the live executions, so counting Running never exceeds counting executions |
| Scheduler.PullStartsFirstQueued | src-tauri/src/task_runner/incoming.rs:108-125 | One pull, recursion included, starts the first parked task that is still Queued, with its own timeout, exactly when a slot is free and a task waits, drops only dead entries ahead of it, and keeps all tables consistent |
| SchedulerLaws.OnePull | src-tauri/src/task_runner/incoming.rs:108-125 | A pull starts something exactly when a slot is free and a task waits; otherwise no slot is left idle |
| SchedulerLaws.StartAllPulls | src-tauri/src/task_runner/incoming.rs:89-94 | Raising or lowering the cap pulls until work is conserved |
| SchedulerLaws.ExitInSteps | src-tauri/src/task_runner/incoming.rs:470-521 | The end of an execution empties its live tables, ends its record, and is followed by one pull |
| SchedulerLaws.StepKeepsInv | src-tauri/src/task_runner/incoming.rs:89-568 | Method-atomic: every operation keeps: one domain for the live tables, containing every Running task; each waiting task parked exactly once; end stamps matching statuses; a task waits only while live executions fill the cap |
| SchedulerLaws.RunKeepsInv | src-tauri/src/task_runner/incoming.rs:89-568 | Method-atomic: the same in every state of every run |
| SchedulerLaws.StepMovesForward | src-tauri/src/task_runner/incoming.rs:470-547 | Method-atomic: status moves along one lifecycle edge per step; a terminal status and its end time never change, even when the process exits after the cancel; removed identifiers do not come back |
| SchedulerLaws.RunMovesForward | src-tauri/src/task_runner/incoming.rs:470-547 | Method-atomic: the lifecycle over whole runs; a Completed or Failed record is final |
| SchedulerLaws.EndedExactlyWhenOver | src-tauri/src/task_runner/incoming.rs:504-547 | Method-atomic: in every reachable state the end time is set exactly when the status is terminal |
| SchedulerLaws.ReloadFits | src-tauri/src/task_runner/incoming.rs:149-178 | A restart yields a sound state exactly when every record saved as over has its end time; active ones come back Cancelled |
| SchedulerLaws.StepUsesMeasure | src-tauri/src/task_runner/incoming.rs:108-125 | Without submissions parked entries plus live executions never grow, and each exit uses one up |
| SchedulerLaws.NoDeadlock | src-tauri/src/task_runner/incoming.rs:89-125 | Method-atomic: once submissions stop, a task waits only while an execution is alive, and only for at most as many exits as there were parked entries and live executions, whatever else happens |
| SchedulerLaws.EveryTaskIsExecuted | src-tauri/src/task_runner/incoming.rs:512-521 | Method-atomic: when no execution is alive any more, every task that was waiting or running, and was not itself cancelled or removed, has been executed to its end, whatever else was submitted, cancelled, printed or reconfigured |
| SchedulerLaws.StepNeverCancels | src-tauri/src/task_runner/incoming.rs:470-509 | Only a cancel of the task itself cancels it |
| SchedulerLaws.FirstParkedFirstStarted | src-tauri/src/task_runner/incoming.rs:108-125 | Method-atomic: over whole runs, a task parked behind another is not started, nor has a result, while the other still waits |
| SchedulerLaws.NewcomerParksLast | src-tauri/src/task_runner/incoming.rs:395-405 | Method-atomic: a submission that does not start at once waits behind every waiting task |
| SchedulerLaws.OvertakingExactly | src-tauri/src/task_runner/incoming.rs:395-405 | Method-atomic: a submission overtakes exactly when a task waits and the live executions of tasks no longer Running are more than those by which the cap is exceeded |
| SchedulerLaws.CancelOpensOvertaking | src-tauri/src/task_runner/incoming.rs:527-547 | At a full cap with a task waiting, cancelling any running task lets the next submission overtake |
| SchedulerLaws.StepKeepsSettled | src-tauri/src/task_runner/incoming.rs:470-521 | Method-atomic: a terminal record whose process is gone never changes again |
| SchedulerLaws.FinalAnswerIsSettled | src-tauri/src/task_runner/incoming.rs:320-328 | Method-atomic: a Completed or Failed answer to a poll that nothing interrupts is the settled record itself |
| SchedulerLaws.RunKeepsSettled | src-tauri/src/task_runner/incoming.rs:470-521 | Method-atomic: over whole runs a terminal record whose process is gone stays as it is or is removed for good |
| SchedulerLaws.CancelledRecordIsFinalExactly | src-tauri/src/task_runner/incoming.rs:470-509 | Method-atomic: a terminal record stays as it is in every run exactly when its process is gone |
| TaskStory.RunSays | src-tauri/src/task_runner/incoming.rs:89-568 | Over every run without its exit, whatever happens to the other tasks, the record, the queue entry and the live tables of a task are determined by the operations that name it |
| TaskStory.PollsAreWhatWasSaid | src-tauri/src/task_runner/incoming.rs:320-328 | From its submission until its process has exited, every field of the answer to a poll: the arguments submitted, all output printed so far, Cancelled with its time exactly since the first cancel, Running exactly while alive |
| TaskStory.ResultIsReported | src-tauri/src/task_runner/incoming.rs:454-516 | After the exit, every field of the answer to every later poll: the output, error output, exit code and artifacts of the result, Completed for exit code 0 and else Failed, the error message of a broken execution; a cancelled task stays Cancelled at the time of its cancel |
| TaskStory.SubmittedResultIsReported | src-tauri/src/task_runner/incoming.rs:377-516 | The same from the submission to any later poll |
| TaskStory.ExecutionHasItsTimeout | src-tauri/src/task_runner/incoming.rs:398-437 | An execution has the timeout its task was submitted with, also after waiting in the queue |
| TaskStory.StartIsStamped | src-tauri/src/task_runner/incoming.rs:430-434 | The start of an execution is the time of the operation that started it, while it lasts |
| TaskStory.CancelStopsTheProcess | src-tauri/src/task_runner/incoming.rs:458-467 | The process a cancel stops is the one reported last |
| TaskStory.SetMaxSets | src-tauri/src/task_runner/incoming.rs:89-94 | A new cap is in force at once, 1 in place of 0, and a task then waits only while live executions fill it |
| TaskStory.CapIsTheLastSet | src-tauri/src/task_runner/incoming.rs:89-91 | After every run the cap is the last one set |
| TaskStory.RemovedIsGone | src-tauri/src/task_runner/incoming.rs:355-371 | A removed task is unknown to every later poll |
| TaskStory.RefusalsSay | src-tauri/src/task_runner/incoming.rs:355-547 | Which cancels, removals and submissions are refused, and as what, in terms of what a poll says |
| TaskStory.RestartSays | src-tauri/src/task_runner/incoming.rs:149-178 | After a restart, every field of the answer to a poll; nothing runs or waits, and the cap is 4 |
| Incoming.IncomingTasks.LoadFromDisk | src-tauri/src/task_runner/incoming.rs:149-178 | The constructor reloads every saved record, whatever order the map is walked in |
| Incoming.IncomingTasks.TryStartPending | src-tauri/src/task_runner/incoming.rs:108-125 | The in-place pull computes the specified one |
| Incoming.IncomingTasks.SetMaxConcurrent | src-tauri/src/task_runner/incoming.rs:89-94 | The in-place loop computes the specified cap change, for which TaskStory.SetMaxSets holds; keeps the invariant |
| Incoming.IncomingTasks.CreateAndRun | src-tauri/src/task_runner/incoming.rs:377-408 | Start or park a fresh task, refuse an empty command; keeps the invariant |
| Incoming.IncomingTasks.SpawnExecution | src-tauri/src/task_runner/incoming.rs:412-452 | Fills the live tables and switches to Running; nothing for an unknown task |
| Incoming.IncomingTasks.RecordResult | src-tauri/src/task_runner/incoming.rs:470-509 | The final record: a Cancelled status survives, the end time is stamped once |
| Incoming.IncomingTasks.Finish | src-tauri/src/task_runner/incoming.rs:454-522 | Completion in place: release, then one pull; keeps the invariant |
| Incoming.IncomingTasks.Cancel | src-tauri/src/task_runner/incoming.rs:527-568 | Cancel in place, with both refusals and the process to stop; keeps the invariant |
| Incoming.IncomingTasks.RemoveFinished | src-tauri/src/task_runner/incoming.rs:355-371 | Only terminal tasks are removed; keeps the invariant |
| Incoming.IncomingTasks.Get | src-tauri/src/task_runner/incoming.rs:320-328 | Both lookups with nothing in between: the answer for which TaskStory.PollsAreWhatWasSaid holds |
| SchedulerLocks.RunningAtMostCapPlusWindow | src-tauri/src/task_runner/incoming.rs:97-125 | For every interleaving of lock sections with at most k threads between cap check and switch, at most cap + k - 1 tasks are Running |
| SchedulerLocks.BoundIsSharp | src-tauri/src/task_runner/incoming.rs:395-452 | From every state at rest and for every k a run with at most k threads past the check reaches cap + k - 1 |
| SchedulerLocks.CancelIsFinalExactly | src-tauri/src/task_runner/incoming.rs:446-451 | At lock grain a cancelled task stays cancelled in every continuation exactly when no thread had claimed it |
| LockProgress.SoundRun | src-tauri/src/task_runner/incoming.rs:97-125 | Over every interleaving Running tasks have a thread, Queued ones are in the queue or in one thread's hands, and no task is in two places |
| LockProgress.AtHandExactly | src-tauri/src/task_runner/incoming.rs:97-125 | For every k from 1 to the cap: a lock section keeps k threads at hand while a task waits exactly unless one of the last k leaves, because it finds the queue empty before a failed submission has parked, or because its selection was removed |
| LockProgress.RunAtHandExactly | src-tauri/src/task_runner/incoming.rs:97-125 | A run has k threads at hand throughout exactly when it loses none of the last k in this sense |
| LockProgress.SlotsAreFilledAtRest | src-tauri/src/task_runner/incoming.rs:97-125 | When a run that loses no hand up to the cap has come to rest, a task waits only while live executions fill the cap |
| LockProgress.AwakeExactly | src-tauri/src/task_runner/incoming.rs:108-125 | The case of one thread: a lock section leaves a waiting task without anyone to wake it exactly when the last active thread leaves |
| LockProgress.RunAwakeExactly | src-tauri/src/task_runner/incoming.rs:108-125 | A run is awake throughout exactly when it loses no wake-up in this sense |
| LockProgress.NoTaskLeftBehind | src-tauri/src/task_runner/incoming.rs:512-521 | When a run that loses no wake-up has come to rest every task is over |
| LockProgress.LostWakeupLeavesTask | src-tauri/src/task_runner/incoming.rs:108-125 | Every lost wake-up has a continuation that comes to rest with a task Queued and nothing running |
| LockProgress.LateParkingIsLost | src-tauri/src/task_runner/incoming.rs:395-405 | From every state at rest with a full cap and an empty queue a submission can park after the last pull and is never started |
| LockProgress.RemovedSelectionIsLost | src-tauri/src/task_runner/incoming.rs:113-123 | From every state at rest with one execution and two parked tasks the removal of the selected one can leave the other waiting for ever |
| LockRuns.WakeupsAreLostFromEmpty | src-tauri/src/task_runner/incoming.rs:108-125 | Both happen from the empty application |
| LockRuns.StepRuns | src-tauri/src/task_runner/incoming.rs:97-125 | An operation that is not interrupted between its lock sections does exactly what the atomic model says, recursion of the pull included |
| LockRuns.AtomicRunIsLockRun | src-tauri/src/task_runner/incoming.rs:97-568 | Every run of the atomic scheduler with a fixed cap is a run of the lock sections that ends in the matching state |
| LockRuns.RestIsAwake | src-tauri/src/task_runner/incoming.rs:395-405 | Between operations a sound store is at rest at lock grain, with as many threads at hand as the cap while a task waits |
| LockOrder.FirstParkedFirstPopped | src-tauri/src/task_runner/incoming.rs:108-125 | For every interleaving: what was in the queue, then what is parked, is what is popped, then what is still in the queue, in that order |
| LockOrder.BehindIsNotStarted | src-tauri/src/task_runner/incoming.rs:108-125 | While a task is in the queue, no task parked behind it is in the hands of a thread, Running, or over with a result |
| LockOrder.PassesCheckExactly | src-tauri/src/task_runner/incoming.rs:395-405 | A submission passes its check exactly when the threads at hand without a Running task are more than those by which the threads at hand exceed the cap; these pull, pop, test or start a task, or execute one no longer Running; beside a waiting task, with no hand lost, there is such a thread |
| LockOrder.OvertakesWithoutCancel | src-tauri/src/task_runner/incoming.rs:509-521 | From every state at rest with a full cap: an execution ends, and a submission starts before the thread pulls, whatever was waiting |
| LockOrder.LaterParkedEndsFirst | src-tauri/src/task_runner/incoming.rs:108-125 | From every state at rest with a full cap of at least two and two parked tasks: the second can be completed while the first is still Queued |
| LockOrder.SlotStaysIdle | src-tauri/src/task_runner/incoming.rs:395-405 | From every state at rest with a full cap of at least two and an empty queue: a late parking comes to rest with a task in the queue and fewer tasks Running than the cap, and no wake-up is lost |
| LockOrder.OvertakenFromEmpty | src-tauri/src/task_runner/incoming.rs:395-405 | From the empty application, for every cap, a run without a cancel to a Running task that arrived after one still in the queue |
| LockOrder.LaterEndsFirstFromEmpty | src-tauri/src/task_runner/incoming.rs:108-125 | From the empty application, for every cap of at least two, a run without a cancel to a Completed task parked behind one still Queued |
| LockOrder.SlotIdlesFromEmpty | src-tauri/src/task_runner/incoming.rs:395-405 | From the empty application, for every cap of at least two, a run without a cancel or a lost wake-up to rest with a waiting task and an idle slot |
| Outgoing.OutgoingTasks.RemoveFinished | src-tauri/src/task_runner/outgoing.rs:290-307 | Only terminal tasks go, with their remote reference; both refusals |
| Outgoing.OutgoingTasks.PollUntilOver | src-tauri/src/http_api.rs:685-776 | The polling loop passes over failures and active answers, returns the first ended record, lost task or missing room as such, or else the local deadline, and the mirror has absorbed exactly the polls up to it |
| Outgoing.OutgoingTasks.FinishDispatch | src-tauri/src/http_api.rs:384-409 | The returned record is the local one with the peer's result, and is what the mirror holds |
| Outgoing.OutgoingTasks.CancelOutgoingTask | src-tauri/src/http_api.rs:417-453 | Without a reference only the mirror changes; with one the mirror changes only if the peer acknowledged |
| Outgoing.OutgoingTasks.HandleCancel | src-tauri/src/http_api.rs:455-491 | The mirror says Cancelled in every case, and the answer tells whether the peer acknowledged |
| MirrorLaws.MirrorShowsLastAnswer | src-tauri/src/task_runner/outgoing.rs:246-262 | For every sequence of polls, every field of the mirror: output and error output of the last answer, the last artifacts that were not empty, Running |
| MirrorLaws.PollingIsShown | src-tauri/src/http_api.rs:660-776 | The same from the moment the peer has accepted the task, with the reference to it |
| MirrorLaws.ReturnIsShown | src-tauri/src/http_api.rs:384-404 | Every field of the mirror after a return: the local submission with the peer's result; the reference is gone |
| MirrorLaws.FailureIsShown | src-tauri/src/task_runner/outgoing.rs:203-215 | After a failed dispatch: Failed with the error and what was mirrored before |
| MirrorLaws.CancelIsShown | src-tauri/src/task_runner/outgoing.rs:217-228 | After a cancel: Cancelled, with what was mirrored before |
| MirrorLaws.RemovalIsShown | src-tauri/src/task_runner/outgoing.rs:290-307 | Exactly the records that are over are removed, with the reference |
| PeerSections.EventKeepsFits | src-tauri/src/task_runner/incoming.rs:412-522 | Every lock section, print and drop keeps: records and statuses of the same tasks, live output exactly for tasks started, executing or about to drop it, and after an exit the live output equal to the record |
| PeerSections.LetGoIsFinal | src-tauri/src/task_runner/incoming.rs:470-516 | At lock grain a terminal record of a task in nobody's hands never changes |
| PeerSections.OverIsFinal | src-tauri/src/task_runner/incoming.rs:470-509 | At lock grain a Completed or Failed record never changes |
| PeerSections.AnswerIsTheRecordExactly | src-tauri/src/task_runner/incoming.rs:320-328 | The second lookup leaves an ended record as it is exactly unless the execution broke, its thread is between its two sections, and the process had written to its output, or to its error output something other than the error message |
| PeerSections.LockRunIsPeerRun | src-tauri/src/task_runner/incoming.rs:412-522 | Every run of the scheduler's lock sections is a run of the peer with its records |
| Dispatch.HistoryKeepsSound | src-tauri/src/http_api.rs:360-409 | Over every history of both machines and the network: while the peer has the task in hand nothing says that it ended by itself, and a poll that copied an ended record has copied the record there is |
| DispatchData.ClientAddressesItsTask | src-tauri/src/http_api.rs:417-453 | Over every history each poll and each cancel on its way names the task the peer accepted, and a cancel can be sent only while the client polls |
| DispatchData.PeerRunsWhatWasSent | src-tauri/src/task_runner/incoming.rs:377-393 | Over every history, restarts included, record, saved copy and answers are of the command that was sent |
| DispatchData.PrintIsSeen | src-tauri/src/task_runner/incoming.rs:320-328 | Between lock sections the answer to a poll grows by exactly what the process prints, and no other task's does |
| DispatchData.EndIsWritten | src-tauri/src/task_runner/incoming.rs:470-509 | The section that ends an execution: every field of the record, and the live output untouched |
| DispatchData.RestartIsWritten | src-tauri/src/task_runner/incoming.rs:149-178 | A restart: every field of every record, and no thread, queue or live output |
| DispatchReplies.AcceptedIsDecided | src-tauri/src/task_runner/incoming.rs:391-407 | Over every history, when an acceptance is on its way no thread of the peer is left that has yet to start or park the task |
| DispatchReplies.RestartRefuses | src-tauri/src/task_runner/incoming.rs:149-178 | A peer that restarts while it handles the submission never accepts it: the client never polls and the dispatch can only fail |
| DispatchReplies.ErrorsSayWhatHappened | src-tauri/src/http_api.rs:640-776 | Over every history a dispatch is refused exactly when it has not polled, loses its task only after the peer said so, and returns a record only after an acceptance and a poll |
| DispatchReplies.NothingIsLost | src-tauri/src/task_runner/incoming.rs:320-328 | Every poll that reaches the peer is answered by the record there is, or as unknown, and nothing on its way disappears except the polls a restart interrupts |
| DispatchReplies.ReferenceComesAndGoes | src-tauri/src/http_api.rs:417-453 | The reference is remembered on acceptance and forgotten after an acknowledged cancel, so that no second one is sent |
| DispatchResults.AcknowledgedCancelIsDecisiveExactly | src-tauri/src/http_api.rs:417-453 | From any state of any history: after the peer has acknowledged a cancel it says Cancelled for good, and the dispatch returns Cancelled if it returns a record, for every delay, loss, repetition and restart, exactly when no thread had claimed the task |
| DispatchResults.ClaimedCancelIsUndone | src-tauri/src/task_runner/incoming.rs:446-451 | Otherwise the peer can complete the task, and a polling dispatch can return Completed |
| DispatchWitnesses.AcknowledgedCancelCanBeUndone | src-tauri/src/task_runner/incoming.rs:108-125 | A history from a fresh peer in which that happens |
| DispatchResults.ReturnedResultIsThePeersRecordExactly | src-tauri/src/http_api.rs:384-409 | A returned Completed or Failed record agrees with the peer's in status, outputs, exit code and artifacts, at once and in every later state, while the peer has not restarted since it answered, exactly unless the answer was torn |
| DispatchResults.RestartedPeerAgreesExactly | src-tauri/src/task_runner/incoming.rs:149-197 | In every state since the peer's last restart, a returned Completed or Failed record agrees with the peer's exactly when it agrees with the copy that was loaded; a copy from before the end says Cancelled |
| Dispatch.UpSinceTheLastRestart | src-tauri/src/task_runner/incoming.rs:149-197 | Every history is of one of these two kinds |
| DispatchWitnesses.RestartLosesResult | src-tauri/src/task_runner/incoming.rs:149-197 | A history in which the dispatch returns Completed with the peer's record, and after its restart the peer says Cancelled |
| DispatchWitnesses.TornAnswerHappens | src-tauri/src/task_runner/incoming.rs:509-516 | A history in which a task breaks and the dispatch returns live output that is not in the peer's record |
| DispatchResults.MirrorAgreesExactly | src-tauri/src/task_runner/outgoing.rs:217-228 | After the return the mirror's status is the returned one exactly when that is Cancelled, or no cancel was acknowledged, refused or made locally since |
| DispatchResults.CancelledMirrorChangesExactly | src-tauri/src/task_runner/outgoing.rs:192-228 | A Cancelled mirror changes exactly with either end of the submission, and, while polling, with a poll that gives up or does not say Cancelled; after the return never |
| DispatchWitnesses.SubmissionRevivesMirror | src-tauri/src/http_api.rs:417-453 | A history in which a local cancel during the submission is overwritten when the peer accepts |
| DispatchWitnesses.LatePollRevivesMirror | src-tauri/src/task_runner/outgoing.rs:192-201 | A history in which an answer given before an acknowledged cancel sets the mirror back to Running |
| EphemeralKeys.EphemeralKey.Rotate | src-tauri/src/crypto.rs:277-285 | The new key is published and current, the old one expires after the grace period |
| EphemeralKeys.EphemeralKey.GcExpired | src-tauri/src/crypto.rs:289-296 | Only an expired key is dropped |
| EphemeralKeys.EphemeralKey.DhCandidates | src-tauri/src/crypto.rs:243-272 | One shared secret per key that is still accepted, the current one first |
| EphemeralKeys.EphemeralKey.DecryptRequestV2 | src-tauri/src/crypto.rs:662-678 | The candidate loop opens with the first key that fits and keeps the last error |
| Rotation.ErrorsExactly | src-tauri/src/crypto.rs:623-678 | For any envelope the error is that of its first faulty field, else that it does not open |
| Rotation.OpensExactly | src-tauri/src/crypto.rs:640-678 | Exactly which envelopes open, to what plaintext and with which session key: those sealed under the session key of an accepted secret in this room, with the nonce they carry |
| Rotation.BodyOpensExactly | src-tauri/src/peer_api.rs:383-391 | Exactly which request bodies open, by envelope version, and with which key the response is sealed; other versions are refused as such |
| Rotation.SealedBodyOpens | src-tauri/src/crypto.rs:560-591 | What a client seals for the current key is opened by the server |
| Rotation.StateHolds | src-tauri/src/crypto.rs:277-296 | After any history the state holds the newest key, and its predecessor until its minute is over and a sweep noticed |
| Rotation.AcceptedExactly | src-tauri/src/crypto.rs:243-272 | For any schedule of rotations and sweeps, exactly the current key and, for less than a minute, its predecessor are accepted |
| Rotation.EnvelopeOpensExactly | src-tauri/src/crypto.rs:549-591 | An envelope for a published key opens, to its plaintext and with equal session keys on both sides, exactly when that key is accepted and the rooms agree |
| Rotation.GraceIsKeptExactly | src-tauri/src/crypto.rs:171 | Every key replaced less than a minute ago is accepted exactly when the last rotation but one is a minute old |
| Rotation.SpacedRotationsKeepGrace | src-tauri/src/lib.rs:29-43 | With rotations at least a minute apart a key is accepted exactly when it is current or was replaced less than a minute ago |
| Rotation.OnlyTheTwoNewestAreHeld | src-tauri/src/crypto.rs:277-296 | At most two secrets are held, and a replaced one is gone by the next rotation |
| RequestAuth.DecimalRoundTrip | src-tauri/src/crypto.rs:450-490 | A printed timestamp parses back to itself, if it fits 64 bits |
| RequestAuth.NumbersExactly | src-tauri/src/crypto.rs:487 | A text is read as the number n exactly when it is an optional plus sign, any zeros and n in decimal, within 64 bits |
| RequestAuth.HeaderSpells | src-tauri/src/crypto.rs:442-471 | Every character of a computed header: the time, a colon, and two lower-case hexadecimal digits for each byte of the MAC |
| RequestAuth.AnswerSpells | src-tauri/src/crypto.rs:404-416 | Every character of the answer to a challenge |
| RequestAuth.FramesEqualExactly | src-tauri/src/crypto.rs:450-461 | When two MAC inputs are equal, for all methods and paths |
| RequestAuth.FrameIsInjective | src-tauri/src/crypto.rs:450-461 | For methods without newline equal MAC inputs have the same timestamp, method, path and body hash |
| RequestAuth.NewlineInMethodIsAmbiguous | src-tauri/src/crypto.rs:450-461 | With a newline in a method the framing is ambiguous |
| RequestAuth.DomainsAreDisjoint | src-tauri/src/crypto.rs:404-416 | No request input is a peer-verification input |
| RequestAuth.BindsExactlyOneRequest | src-tauri/src/crypto.rs:442-509 | A computed header verifies exactly in the window, under the same key and for the same method, path and body, when hash and MAC do not collide on them; outside the window the error carries the drift, inside it is a mismatch |
| RequestAuth.MalformedExactly | src-tauri/src/crypto.rs:484-490 | A header is malformed exactly when it is not a 64-bit number, a colon and something more |
| RequestAuth.AcceptedHeadersExactly | src-tauri/src/crypto.rs:477-509 | A request is authenticated by exactly the headers that spell a time in the window, with the MAC for that number |
| RequestAuth.AcceptedSpellingsExactly | src-tauri/src/crypto.rs:477-509 | The same, character by character: a time at most 30 seconds away either way, with or without a plus sign and leading zeros, a colon, and the MAC for that time |
| RequestAuth.AnswerIsNoRequestMac | src-tauri/src/crypto.rs:404-431 | The answer to a peer-verification challenge is never the MAC of a request |
| RequestAuth.AnswerBindsNonce | src-tauri/src/crypto.rs:420-431 | An answer to a challenge convinces exactly for its own nonce under the same key |
| Replay.ReplayCache.CheckAndInsert | src-tauri/src/peer_api.rs:62-86 | Prune, clear at the hard cap, refuse a known header, remember a new one |
| Replay.CacheStaysSmall | src-tauri/src/peer_api.rs:62-86 | The cache never holds more than 4096 headers, and starts again with the newest at that size |
| Replay.GuardedIsNeverAccepted | src-tauri/src/peer_api.rs:309-331 | Over whole runs a remembered header, or one too old to verify, is never accepted |
| Replay.AcceptedOnceExactly | src-tauri/src/peer_api.rs:50-86 | An accepted header is never accepted again, whatever else arrives while the cache stays below its cap, exactly when its timestamp is fewer than 30 whole seconds ahead |
| Replay.OtherHeaderExactly | src-tauri/src/peer_api.rs:62-86 | Another header of an accepted request is accepted exactly unless the cache remembers its text |
| Replay.OncePerTextNotPerRequest | src-tauri/src/peer_api.rs:50-86 | So acceptance at most once is per header text and not per request |
| Replay.SafeSkew | src-tauri/src/crypto.rs:490-495 | A timestamp at most 29 000 ms ahead is always accepted at most once |
| Replay.SafeSkewIsSharp | src-tauri/src/crypto.rs:490-495 | 29 001 ms ahead is not always enough |
| RequestHead.ParseHeadLines | src-tauri/src/peer_api.rs:749-770 | The header loop gives the specified head, or the specified error; what these are is stated by the rows of SentRequests |
| RequestHead.ParsedHasNoNewline | src-tauri/src/peer_api.rs:752-755 | Method and path of a parsed head contain no newline |
| RequestHead.LastContentLengthDecides | src-tauri/src/peer_api.rs:757-770 | With several content lengths the last one decides, whatever stands before and after |
| RequestReader.ReadRequest | src-tauri/src/peer_api.rs:726-798 | The reader's two loops compute the specified reading of the chunks |
| RequestReader.ReadRemaining | src-tauri/src/peer_api.rs:772-790 | The body loop |
| RequestReader.BlankLineOfAppend | src-tauri/src/peer_api.rs:800-802 | The first blank line found early is the first blank line of the whole stream, and none is missed |
| RequestReader.ReadIsParse | src-tauri/src/peer_api.rs:726-798 | Away from the size limit every legal split gives the request, or the error, that the whole stream means: the body is the first Content-Length bytes after the first blank line, or all there are |
| RequestReader.UnluckySplit | src-tauri/src/peer_api.rs:740-746 | Near the limit a legal split is refused as too big |
| RequestReader.SplitIsIrrelevantExactly | src-tauri/src/peer_api.rs:726-798 | The split into reads does not matter exactly unless the stream is over the limit and its blank line ends within one read of it |
| RequestReader.ReadRequestsAreBound | src-tauri/src/peer_api.rs:285-337 | For requests as read from the wire a header verifies for exactly the request it was computed for |
| RequestWriting.WrittenRequestIsRead | src-tauri/src/peer_api.rs:726-798 | Round trip: a request written by a client is read back with the same method, path, header fields and body, whatever follows it |
| RequestWriting.WrittenRequestArrives | src-tauri/src/peer_api.rs:726-798 | And so for every legal split of it into reads, away from the size limit |
| SentRequests.NamesExactly | src-tauri/src/peer_api.rs:766 | A field declares the length exactly when its name is content-length in any mix of cases |
| SentRequests.LengthIsTheNumber | src-tauri/src/peer_api.rs:767 | Its value counts as the number it spells, and as 0 if it spells none of 64 bits |
| SentRequests.SentRequestIsRead | src-tauri/src/peer_api.rs:726-798 | A request with exactly one such field, holding the length of its body in decimal, is read back with that body, and one with none and no body likewise, whatever follows |
| SentRequests.SentRequestArrives | src-tauri/src/peer_api.rs:726-798 | And so for every legal split of it, away from the limit |
| SentRequests.BodyIsAsDeclared | src-tauri/src/peer_api.rs:772-790 | For any declared number and any bytes after the head: over 32 MiB refused, else that many bytes or all there are, refused if they are not UTF-8 |
| SentRequests.HeadIsMissing | src-tauri/src/peer_api.rs:726-747 | Without a blank line within 32 MiB the request is too big or cut off, depending on its length |
| SentRequests.FieldIsRead | src-tauri/src/peer_api.rs:763-769 | Blanks around the name and the value of a field are dropped and nothing else, and a line without a colon is no field |
| SentRequests.MalformedHeads | src-tauri/src/peer_api.rs:749-755 | A head that is not UTF-8, one with a blank first line and one with a single word in it are refused, each in its own way |
| Utf8.ValidUpToIsLongest | src-tauri/src/sandbox/util.rs:26-29 | No longer prefix than valid_up_to is well-formed UTF-8 |
| Utf8.BoundaryIsCharEnd | src-tauri/src/sandbox/util.rs:50-53 | The byte test for a character boundary finds exactly the ends of well-formed prefixes |
| CodePoints.WellFormedExactly | src-tauri/src/sandbox/util.rs:26-29 | The bytes accepted as text are exactly the UTF-8 encodings of Unicode scalar values |
| CodePoints.DecodeOfEncode | src-tauri/src/http_api.rs:550-555 | Decoding an encoded text gives the text |
| CodePoints.EncodeOfDecode | src-tauri/src/http_api.rs:550-555 | Encoding what was decoded from well-formed bytes gives the bytes |
| CodePoints.LossyAppend | src-tauri/src/http_api.rs:544-557 | Decoding in pieces loses nothing when the cut is a character boundary |
| CodePoints.CutCharIsOneReplacement | src-tauri/src/http_api.rs:550-555 | However a character is cut short it decodes to one replacement character, and what stands around it is not affected |
| CodePoints.StrayByteIsOneReplacement | src-tauri/src/http_api.rs:550-555 | A byte that begins no character decodes to one of its own |
| Draining.AppendCapped | src-tauri/src/sandbox/util.rs:37-55 | The append and the search for a boundary |
| Draining.DrainStream | src-tauri/src/sandbox/util.rs:10-63 | The read loop computes the specified drain; the buffer stays well-formed and append-only |
| Draining.DrainKeepsText | src-tauri/src/sandbox/util.rs:10-63 | At every moment the buffer is well-formed, within the cap, and a prefix of every later one |
| Draining.LeftoverIsUnread | src-tauri/src/sandbox/util.rs:22-31 | What is carried over is exactly what follows the longest well-formed prefix read so far |
| Draining.ClipIsLongest | src-tauri/src/sandbox/util.rs:48-55 | The text a drain should end with is the longest well-formed prefix within the cap |
| Draining.SplitIsIrrelevantExactly | src-tauri/src/sandbox/util.rs:10-63 | Every legal split into reads ends with that text exactly when no character after the cut fits the room it left |
| Draining.CleanCases | src-tauri/src/sandbox/util.rs:42-55 | That is so when all the text fits, and when the cap falls on a character boundary, where the first cap bytes are kept |
| LiveOutput.EmitPrints | python/src/partagpu/remote.py:222-236 | After each chunk exactly the whole lines so far are printed and the rest is kept |
| LiveOutput.ShownIsLongestSeen | python/src/partagpu/remote.py:183-249 | For every schedule of polls, failed and outdated ones included, the user sees the longest polled output, each line once with its prefix, the unfinished last one too |
| LiveOutput.PipeReachesScreen | src-tauri/src/http_api.rs:544-557 | However the output is split into reads and whenever it is polled, one poll after the last read is enough to show all of the buffer |
| LiveOutput.ScreenIgnoresSplit | src-tauri/src/http_api.rs:544-557 | Two ways of reading and polling the same output show the same text |
| LivePolling.Stream.Write | python/src/partagpu/remote.py:222-236 | The line loop of one chunk |
| LivePolling.LivePoller.PollOnce | python/src/partagpu/remote.py:198-220 | Offsets move only with a non-empty chunk; a failed poll changes nothing |
| LivePolling.LivePoller.FlushTails | python/src/partagpu/remote.py:238-249 | Unfinished lines are printed once |
| LivePolling.LivePoller.RunAndStop | python/src/partagpu/remote.py:183-196 | Both streams come out as if each had been polled alone |
| ProcessTree.CollectDescendants | src-tauri/src/task_runner/monitor.rs:105-127 | Terminates on any process table, cyclic ones included, and in any order finds exactly the processes whose parent chain reaches the root |
| ProcessTree.TreesDisjointExactly | src-tauri/src/task_runner/monitor.rs:105-127 | Two trees are disjoint exactly when neither root is in the other's |
| ProcessTree.MemoryOfTree | src-tauri/src/task_runner/incoming.rs:245-258 | The memory sum of one tree, in any order |
| ProcessTree.NothingCountedTwice | src-tauri/src/task_runner/incoming.rs:242-258 | For unrelated roots the sums over the tasks equal the sum over all their processes |
| CommandLine.ParseCommand | src/components/TaskDispatcher.tsx:54-100 | The scan by index computes the specified parse |
| CommandLine.ParseSplitsExactly | src/components/TaskDispatcher.tsx:54-100 | Parsing distributes over a blank, for every continuation, exactly when the first part ends outside quotes and without a waiting backslash |
| CommandLine.LineParsesToItsMeaning | src/components/TaskDispatcher.tsx:52-100 | Any mix of plain, escaped, single-quoted and double-quoted pieces parses to the arguments meant |
| CommandLine.SpacedLineParses | src/components/TaskDispatcher.tsx:84-93 | The words may be set apart, preceded and followed by any spaces, tabs and newlines |
| CommandLine.QuotingRoundTrip | src/components/DDPDispatcher.tsx:38-86 | Any argument list survives double quoting with escapes, joining and parsing |
| DdpRanks.LocalRankMap | python/src/partagpu/distributed.py:112-122 | The counting loop gives each entry the number of earlier entries on its host |
| DdpRanks.LocalRanksAreExact | python/src/partagpu/distributed.py:112-122 | On every host the local ranks are 0, 1, ..., k - 1 in order |
| DdpRanks.Enumerate | src/components/DDPDispatcher.tsx:225-233 | The two loops list the selected devices |
| DdpRanks.AssignRanks | src/components/DDPDispatcher.tsx:240-256 | Ranks in order; a local rank is the number of earlier ranks at the same address |
| DdpRanks.NoDeviceTwiceExactly | src/components/DDPDispatcher.tsx:225-233 | No device of a peer is given to two ranks exactly when no selected peer is listed twice |
| DdpRanks.WorldSizeIsSelected | src/components/DDPDispatcher.tsx:158-161 | There are as many ranks as GPUs selected on the targets; the rest of the total shown is on peers that are no longer targets |
| DdpRanks.WorldSizeIgnoresOrder | src/components/DDPDispatcher.tsx:225-234 | Sorting the targets does not change the number of ranks |
| DdpRanks.MasterExistsExactly | src/components/DDPDispatcher.tsx:209-238 | After the form's check there is a rank 0 exactly when a GPU is selected on a target |
| DdpRanks.StaleSelectionHasNoMaster | src/components/DDPDispatcher.tsx:209-238 | One GPU selected and no target: the check passes and there is no rank 0 |
| DdpAbort.CancelsExactlyTheRest | python/src/partagpu/distributed.py:268-300 | For every order of completion the first failure cancels exactly the ranks not yet completed, each once, and nothing is cancelled later |
| DdpAbort.CancelSiblings | python/src/partagpu/distributed.py:268-273 | Cancels exactly the ranks without a result |
| DdpAbort.CollectResults | python/src/partagpu/distributed.py:275-325 | All results in rank order, the cancels that the first bad end calls for, and the first exception in rank order |
| DdpAbort.PythonCancels | python/src/partagpu/distributed.py:268-300 | The first rank that raised, or returned anything but Completed with no exit code or 0, cancels exactly the ranks without a result, each once; without such a rank nobody is cancelled |
| DdpAbort.Launch.TriggerAbort | src/components/DDPDispatcher.tsx:307-326 | The form's trigger fires once and cancels exactly the unsettled siblings |
| DdpAbort.Launch.DispatchEnded | src/components/DDPDispatcher.tsx:341-363 | One dispatch ending is one step of the same protocol |
| DdpAbort.Launch.AwaitAll | src/components/DDPDispatcher.tsx:328-366 | For every order of completion the first dispatch that throws or returns a Failed task cancels exactly the unsettled ones, each once; without one nobody is cancelled |
| Usage.AggregateByUser | src/lib/usage.ts:44-72 | The loop gives one entry per source, with the sums of its tasks, sorted by CPU |
| Usage.RunningTasksAre | src/lib/usage.ts:48 | Exactly the running tasks are aggregated |
| Usage.UsersAreTheSources | src/lib/usage.ts:44-72 | The users are distinct, sorted by CPU, and exactly the machines, or else users, or else the fixed label, that a running task names |
| Usage.UsersHoldAllRam | src/lib/usage.ts:44-72 | The memory of all users is the memory of all running tasks |
| Usage.UsersHoldAll | src/lib/usage.ts:44-72 | CPU, GPU and number of tasks of all users are those of all running tasks, too |
| Usage.UserShowsItsTasks | src/lib/usage.ts:48-69 | Every user has the sums and the number of its own tasks, and the color of its place in the order of first appearance |
| Usage.SortIsStable | src/lib/usage.ts:71 | Users with equal CPU stay in order of first appearance |
| Usage.SegmentsFillTheGauge | src/pages/MySharing.tsx:302-330 | Memory segments add up to the larger of the system's and the tasks' memory in whole megabytes, whether or not self is shown; CPU and GPU segments likewise, up to less than half a percent when it is not; self comes first, and only with a share that is not negligible |

## Left out

- Real cryptography, key derivation, base64 and JSON: primitives are ideal or parameters; comparison in constant time is plain equality.
- Sandbox construction, cgroups, signals, GPU queries and the privileged helper: the sandbox reports a process number, output and a result.
- Sockets, discovery, connection limits and the room and sharing checks before the header check: replaced by messages and parameters.
- Progress, CPU and GPU figures of tasks and the monitor thread: only the process tree and the memory sum of it are modelled; usage has CPU as a real number because it is sorted by it.
- Sandbox options of a task: a parked entry keeps its timeout only.
- Truncation of saved records: a saved copy may differ from the record in its texts and artifacts, which is all the truncation changes.
- SchedulerLaws.StepKeepsInv: work conservation for methods that are not interrupted; LockProgress.AtHandExactly says what is left of it between lock sections. The same for SchedulerLaws.RunKeepsInv.
- SchedulerLaws.FirstParkedFirstStarted: for methods that are not interrupted; between lock sections LockOrder.BehindIsNotStarted holds instead, and LockOrder.LaterEndsFirstFromEmpty shows the difference.
- SchedulerLaws.OvertakingExactly: for methods that are not interrupted; LockOrder.PassesCheckExactly is the condition between lock sections.
- SchedulerLaws.FinalAnswerIsSettled: a poll in one step; PeerSections.AnswerIsTheRecordExactly says what a poll in two steps answers.
- Incoming.IncomingTasks.Get: both lookups with nothing in between, likewise.
- LockProgress.AtHandExactly: the cap does not change between lock sections.
- PeerSections.EventKeepsFits: setting up the live output is merged with reading the arguments; start times, timeouts and process numbers are left to the atomic model, and the peer's cap does not change during a dispatch.
- SchedulerLocks.RunningAtMostCapPlusWindow: the sections that fill the tables of output, start time and timeout are merged with the switch to Running, and the cap does not change.
- Replay.AcceptedOnceExactly: the header check and the cache read the clock once together, and headers arrive trimmed.
- RequestReader.ReadRequest: a read error ends the reading with its own message and is not modelled; FindBlankLine and the splitting into lines and words are functions of the standard library in the code.
- Draining.DrainStream: a read error ends the stream like its end; a poisoned lock is not modelled.
- LivePolling.LivePoller.RunAndStop: the last poll of stop does not overlap a background poll, and output that shrinks after a sandbox error is outside the hypothesis of LiveOutput.ShownIsLongestSeen.
- Query parsing of the output endpoint, and its 400 and 404 answers: a poll that fails changes nothing.
- Usage.AggregateByUser: Array.sort is a stable insertion sort by descending CPU; NaN is not modelled.
- DdpRanks.Enumerate: takes the targets in the order the sort gave; locale comparison is not part of this model.
- DdpAbort.CollectResults: the keyboard interrupt, which cancels every rank, and the delivery of the cancel requests.
- Restart of the sending machine, and unique identifiers, which are taken as given.
- React rendering, translations and notifications.
