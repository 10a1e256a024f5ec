/** The peer of a dispatch at the grain of its locks: the scheduler's sections
    with the records they write, the live output beside them, and the two
    lookups of a poll. */
module PeerSections {
  import opened Tasks
  import S = Scheduler
  import Laws = SchedulerLaws
  import L = SchedulerLocks
  import P = LockProgress

  /** The status of a task is in core, everything else of its record in records.
      A thread in dropping has written its record and not yet dropped the live
      output of the task. */
  datatype Peer = Peer(
    core: L.State,
    records: map<TaskId, Task>,
    sinks: map<TaskId, S.Sink>,
    dropping: map<L.Tid, TaskId>
  )

  /** What a lock section needs besides its place in the code. */
  datatype Detail = Detail(args: seq<string>, result: S.SandboxResult, now: nat)

  datatype Event =
    | Section(e: L.Event, detail: Detail)
    | Drop(t: L.Tid)
    | Print(id: TaskId, out: Bytes, err: Bytes)

  predicate Over(status: Status) {
    status == Completed || status == Failed
  }

  function Record(p: Peer, id: TaskId): Task
    requires id in p.core.tasks && id in p.records
  {
    p.records[id].(status := p.core.tasks[id])
  }

  /** The sandbox reports the exit code and what was drained into the live output,
      or an error. */
  predicate Reports(p: Peer, id: TaskId, code: int, result: S.SandboxResult) {
    match result
    case Exited(c, out, err, _) => c == code && (id in p.sinks ==> S.Sink(out, err) == p.sinks[id])
    case Broken(_) => code != 0
  }

  predicate Possible(p: Peer, ev: Event) {
    match ev
    case Section(e, d) =>
      && L.Enabled(p.core, e)
      && (e.Turn? ==> e.t !in p.dropping
                      && (p.core.threads[e.t].Executing? ==> Reports(p, p.core.threads[e.t].id, e.code, d.result)))
    case Drop(t) => t in p.dropping
    case Print(id, _, _) => id in p.sinks && exists t :: t in p.core.threads && p.core.threads[t] == L.Executing(id)
  }

  function NextRecords(p: Peer, e: L.Event, d: Detail): map<TaskId, Task>
    requires L.Enabled(p.core, e)
  {
    match e
    case Arrive(_, id) => p.records[id := NewTask(d.args, d.now)]
    case CancelTask(id) =>
      if id in p.core.tasks && !p.core.tasks[id].Terminal() && id in p.records
      then p.records[id := p.records[id].(endedAt := Stamp(p.records[id].endedAt, d.now))] else p.records
    case Remove(id) => if id in p.core.tasks && p.core.tasks[id].Terminal() then p.records - {id} else p.records
    case Turn(t, _, _) =>
      var pc := p.core.threads[t];
      if pc.Executing? && pc.id in p.core.tasks && pc.id in p.records
      then p.records[pc.id := S.Conclude(Record(p, pc.id), d.result, d.now)] else p.records
    case Reapply(_) => p.records
  }

  /** The live output is set up when the arguments have been read. */
  function NextSinks(p: Peer, e: L.Event): map<TaskId, S.Sink>
    requires L.Enabled(p.core, e)
  {
    if e.Turn? && p.core.threads[e.t].Starting? && p.core.threads[e.t].id in p.core.tasks
    then p.sinks[p.core.threads[e.t].id := S.Sink([], [])] else p.sinks
  }

  function NextDropping(p: Peer, e: L.Event): map<L.Tid, TaskId>
    requires L.Enabled(p.core, e)
  {
    if e.Turn? && p.core.threads[e.t].Executing? then p.dropping[e.t := p.core.threads[e.t].id] else p.dropping
  }

  function Next(p: Peer, cap: nat, ev: Event): Peer
    requires Possible(p, ev)
  {
    match ev
    case Section(e, d) => Peer(L.Step(p.core, cap, e), NextRecords(p, e, d), NextSinks(p, e), NextDropping(p, e))
    case Drop(t) => p.(sinks := p.sinks - {p.dropping[t]}, dropping := p.dropping - {t})
    case Print(id, out, err) => p.(sinks := p.sinks[id := S.Sink(p.sinks[id].stdout + out, p.sinks[id].stderr + err)])
  }

  /** The first lookup of a poll. */
  function Clone(p: Peer, id: TaskId): Option<Task> {
    if id in p.core.tasks && id in p.records then Some(Record(p, id)) else None
  }

  /** The application starts again from a saved copy. */
  function Restart(p: Peer, saved: map<TaskId, Task>, note: Bytes, now: nat): Peer {
    Peer(L.State(map id | id in saved :: S.Revive(saved[id], note, now).status, [], map[], p.core.issued),
         map id | id in saved :: S.Revive(saved[id], note, now), map[], map[])
  }

  // ---------------------------------------------------------------------
  // What every section keeps
  // ---------------------------------------------------------------------

  /** Threads between record and live output have let go of their task. */
  ghost predicate DroppingFits(p: Peer) {
    && (forall t :: t in p.dropping ==>
          t in p.core.threads && p.core.threads[t] == L.Pulling(false)
          && p.dropping[t] in p.core.issued && !P.InHand(p.core, p.dropping[t]))
    && (forall t, u :: t in p.dropping && u in p.dropping && t != u ==> p.dropping[t] != p.dropping[u])
  }

  /** A task with live output is started, executing, or about to lose it. */
  predicate Live(p: Peer, id: TaskId) {
    || (exists t :: t in p.core.threads && (p.core.threads[t].Marking? || p.core.threads[t].Executing?) && p.core.threads[t].id == id)
    || (exists t :: t in p.dropping && p.dropping[t] == id)
  }

  ghost predicate SinksFit(p: Peer) {
    && (forall id :: id in p.sinks ==> Live(p, id))
    && (forall t :: t in p.core.threads && (p.core.threads[t].Marking? || p.core.threads[t].Executing?) ==>
          p.core.threads[t].id in p.sinks)
  }

  /** What a record says about its execution. */
  ghost predicate RecordFits(p: Peer, id: TaskId)
    requires id in p.core.tasks && id in p.records
  {
    && (Over(p.core.tasks[id]) ==> !P.InHand(p.core, id))
    && (P.InHand(p.core, id) ==> p.records[id].exitCode.None? && p.records[id].output == [])
    && (Over(p.core.tasks[id]) && id in p.sinks ==>
          if p.records[id].exitCode.Some? then p.sinks[id] == S.Sink(p.records[id].output, p.records[id].errorOutput)
          else p.records[id].output == [])
  }

  ghost predicate Fits(p: Peer) {
    && P.Sound(p.core) && p.records.Keys == p.core.tasks.Keys
    && DroppingFits(p) && SinksFit(p)
    && forall id :: id in p.core.tasks ==> RecordFits(p, id)
  }

  lemma RecordsFollow(p: Peer, cap: nat, e: L.Event, d: Detail)
    requires L.Enabled(p.core, e) && p.records.Keys == p.core.tasks.Keys
    ensures NextRecords(p, e, d).Keys == L.Step(p.core, cap, e).tasks.Keys
  {
  }

  lemma DroppingKept(p: Peer, cap: nat, e: L.Event, d: Detail)
    requires Fits(p) && Possible(p, Section(e, d))
    ensures DroppingFits(Next(p, cap, Section(e, d)))
  {
    hide SinksFit, RecordFits, NextRecords, NextSinks;
    var p' := Next(p, cap, Section(e, d));
    forall t | t in p'.dropping
      ensures t in p'.core.threads && p'.core.threads[t] == L.Pulling(false)
      ensures p'.dropping[t] in p'.core.issued && !P.InHand(p'.core, p'.dropping[t])
    {
      DroppingThreadKept(p, cap, e, t);
    }
    forall t, u | t in p'.dropping && u in p'.dropping && t != u
      ensures p'.dropping[t] != p'.dropping[u]
    {
      NewDropIsNew(p, e, t);
      NewDropIsNew(p, e, u);
    }
  }

  /** A task whose execution ends is not being dropped already. */
  lemma NewDropIsNew(p: Peer, e: L.Event, t: L.Tid)
    requires P.Sound(p.core) && DroppingFits(p) && L.Enabled(p.core, e) && t in NextDropping(p, e)
    ensures t !in p.dropping && e.Turn? && e.t == t && p.core.threads[t].Executing? ==>
      forall u :: u in p.dropping ==> p.dropping[u] != NextDropping(p, e)[t]
  {
    if t !in p.dropping && e.Turn? && e.t == t && p.core.threads[t].Executing? {
      assert P.Holds(p.core.threads[t], p.core.threads[t].id);
    }
  }

  lemma DroppingThreadKept(p: Peer, cap: nat, e: L.Event, t: L.Tid)
    requires P.Sound(p.core) && DroppingFits(p) && L.Enabled(p.core, e) && (e.Turn? ==> e.t !in p.dropping)
    requires t in NextDropping(p, e)
    ensures var core, id := L.Step(p.core, cap, e), NextDropping(p, e)[t];
      t in core.threads && core.threads[t] == L.Pulling(false) && id in core.issued && !P.InHand(core, id)
  {
    if e.Turn? && e.t == t {
      assert P.HasTask(p.core.threads[t]);
      P.ExecutionLetsGo(p.core, cap, t, e.child, e.code);
    } else {
      P.OthersStay(p.core, cap, e, t);
      assert NextDropping(p, e)[t] == p.dropping[t];
      if P.InHand(L.Step(p.core, cap, e), p.dropping[t]) {
        P.HandsComeFrom(p.core, cap, e, p.dropping[t]);
      }
    }
  }

  lemma SinksKept(p: Peer, cap: nat, e: L.Event, d: Detail)
    requires SinksFit(p) && Possible(p, Section(e, d))
    ensures SinksFit(Next(p, cap, Section(e, d)))
  {
    var p' := Next(p, cap, Section(e, d));
    hide NextRecords, NextSinks, NextDropping, Live, L.Step, Reports;
    forall id | id in p'.sinks
      ensures Live(p', id)
    {
      SinkKept(p, cap, e, d, id);
    }
    forall t | t in p'.core.threads && (p'.core.threads[t].Marking? || p'.core.threads[t].Executing?)
      ensures p'.core.threads[t].id in p'.sinks
    {
      ThreadHasSink(p, cap, e, t);
    }
  }

  lemma ThreadHasSink(p: Peer, cap: nat, e: L.Event, t: L.Tid)
    requires SinksFit(p) && L.Enabled(p.core, e)
    requires var core := L.Step(p.core, cap, e); t in core.threads && (core.threads[t].Marking? || core.threads[t].Executing?)
    ensures L.Step(p.core, cap, e).threads[t].id in NextSinks(p, e)
  {
    if e.Turn? && t != e.t && !(p.core.threads[e.t].Marking? && t == e.child) {
      assert t in p.core.threads && L.Step(p.core, cap, e).threads[t] == p.core.threads[t];
    }
  }

  lemma SinkKept(p: Peer, cap: nat, e: L.Event, d: Detail, id: TaskId)
    requires SinksFit(p) && Possible(p, Section(e, d)) && id in NextSinks(p, e)
    ensures Live(Next(p, cap, Section(e, d)), id)
  {
    hide NextRecords;
    var p' := Next(p, cap, Section(e, d));
    if e.Turn? && p.core.threads[e.t].Starting? && p.core.threads[e.t].id == id && id in p.core.tasks {
      assert p'.core.threads[e.t].Marking?;
    } else if u :| u in p.dropping && p.dropping[u] == id {
      assert p'.dropping[u] == id;
    } else {
      assert id in p.sinks;
      var u :| u in p.core.threads && (p.core.threads[u].Marking? || p.core.threads[u].Executing?) && p.core.threads[u].id == id;
      if e.Turn? && e.t == u {
        if p.core.threads[u].Marking? {
          assert p'.core.threads[e.child] == L.Executing(id);
        } else {
          assert p'.dropping[u] == id;
        }
      } else {
        P.OthersStay(p.core, cap, e, u);
        assert p'.core.threads[u] == p.core.threads[u];
      }
    }
  }

  /** The section that ends the execution of id. */
  predicate Concludes(p: Peer, ev: Event, id: TaskId)
    requires Possible(p, ev)
  {
    ev.Section? && ev.e.Turn? && p.core.threads[ev.e.t] == L.Executing(id)
  }

  /** Only that section writes the outputs and the exit code of a known record,
      and makes a task Completed or Failed. */
  lemma OthersWriteNothing(p: Peer, cap: nat, ev: Event, id: TaskId)
    requires p.records.Keys == p.core.tasks.Keys && Possible(p, ev) && id in p.core.issued
    requires !Concludes(p, ev, id)
    ensures var p' := Next(p, cap, ev);
      id in p'.core.tasks ==>
        && id in p.core.tasks && id in p'.records
        && p'.records[id].(endedAt := p.records[id].endedAt) == p.records[id]
        && (p.core.tasks[id].Terminal() ==> p'.records[id] == p.records[id])
        && (Over(p'.core.tasks[id]) ==> Over(p.core.tasks[id]))
        && (p.core.tasks[id].Terminal() ==> p'.core.tasks[id] == p.core.tasks[id] || P.InHand(p.core, id))
  {
    hide NextSinks, NextDropping;
    if ev.Section? && ev.e.Turn? && p.core.threads[ev.e.t].Marking? && p.core.threads[ev.e.t].id == id {
      assert P.Holds(p.core.threads[ev.e.t], id);
    }
  }

  lemma ConclusionIs(p: Peer, cap: nat, ev: Event, id: TaskId)
    requires p.records.Keys == p.core.tasks.Keys && Possible(p, ev) && id in p.core.tasks && Concludes(p, ev, id)
    ensures var p' := Next(p, cap, ev);
      && id in p'.core.tasks && id in p'.records && p'.sinks == p.sinks
      && p'.records[id] == S.Conclude(Record(p, id), ev.detail.result, ev.detail.now)
      && p'.core.tasks[id] == p'.records[id].status
  {
    Laws.ConcludeEnds(Record(p, id), ev.detail.result, ev.detail.now);
  }

  lemma RecordKept(p: Peer, cap: nat, e: L.Event, d: Detail, id: TaskId)
    requires Fits(p) && Possible(p, Section(e, d)) && id in L.Step(p.core, cap, e).tasks
    requires Next(p, cap, Section(e, d)).records.Keys == L.Step(p.core, cap, e).tasks.Keys
    ensures RecordFits(Next(p, cap, Section(e, d)), id)
  {
    var ev := Section(e, d);
    var p' := Next(p, cap, ev);
    hide SinksFit, DroppingFits, L.Step, NextRecords;
    if e.Arrive? && e.id == id {
      NewRecordFits(p, cap, e, d);
    } else if Concludes(p, ev, id) {
      KnownBefore(p, cap, e, id);
      ConclusionIs(p, cap, ev, id);
      P.ExecutionLetsGo(p.core, cap, e.t, e.child, e.code);
      ConcludedSink(p, e, d, id);
    } else {
      KnownBefore(p, cap, e, id);
      OthersWriteNothing(p, cap, ev, id);
      if P.InHand(p'.core, id) {
        P.HandsComeFrom(p.core, cap, e, id);
      }
      if Over(p.core.tasks[id]) {
        SinkOfOver(p, e, id);
      }
    }
  }

  lemma KnownBefore(p: Peer, cap: nat, e: L.Event, id: TaskId)
    requires P.Sound(p.core) && L.Enabled(p.core, e) && id in L.Step(p.core, cap, e).tasks && !(e.Arrive? && e.id == id)
    ensures id in p.core.tasks && id in p.core.issued
  {
  }

  lemma NewRecordFits(p: Peer, cap: nat, e: L.Event, d: Detail)
    requires Fits(p) && e.Arrive? && Possible(p, Section(e, d))
    ensures e.id in Next(p, cap, Section(e, d)).core.tasks && e.id in Next(p, cap, Section(e, d)).records
    ensures RecordFits(Next(p, cap, Section(e, d)), e.id)
  {
  }

  /** What the sandbox reports is what the live output shows. */
  lemma ConcludedSink(p: Peer, e: L.Event, d: Detail, id: TaskId)
    requires Fits(p) && Possible(p, Section(e, d)) && Concludes(p, Section(e, d), id) && id in p.core.tasks
    ensures var t := S.Conclude(Record(p, id), d.result, d.now);
      id in p.sinks && Over(t.status) ==>
        if t.exitCode.Some? then p.sinks[id] == S.Sink(t.output, t.errorOutput) else t.output == []
  {
    assert P.Holds(p.core.threads[e.t], id);
    assert RecordFits(p, id);
  }

  /** The live output of a task that is over is not set up again. */
  lemma SinkOfOver(p: Peer, e: L.Event, id: TaskId)
    requires Fits(p) && L.Enabled(p.core, e) && id in p.core.tasks && Over(p.core.tasks[id])
    ensures id in NextSinks(p, e) <==> id in p.sinks
    ensures id in p.sinks ==> NextSinks(p, e)[id] == p.sinks[id]
  {
    assert RecordFits(p, id);
    assert e.Turn? ==> !P.Holds(p.core.threads[e.t], id);
  }

  lemma SectionKeepsFits(p: Peer, cap: nat, e: L.Event, d: Detail)
    requires Fits(p) && Possible(p, Section(e, d))
    ensures Fits(Next(p, cap, Section(e, d)))
  {
    hide RecordFits, SinksFit, DroppingFits, L.Step, L.Enabled, P.Sound, NextRecords, NextSinks, NextDropping;
    P.SoundStep(p.core, cap, e);
    RecordsFollow(p, cap, e, d);
    DroppingKept(p, cap, e, d);
    SinksKept(p, cap, e, d);
    var p' := Next(p, cap, Section(e, d));
    forall id | id in p'.core.tasks
      ensures RecordFits(p', id)
    {
      RecordKept(p, cap, e, d, id);
    }
  }

  lemma DropKeepsFits(p: Peer, t: L.Tid)
    requires Fits(p) && t in p.dropping
    ensures Fits(Next(p, 0, Drop(t)))
  {
    var p' := Next(p, 0, Drop(t));
    forall id | id in p'.sinks
      ensures Live(p', id)
    {
      assert Live(p, id);
      if u :| u in p.dropping && p.dropping[u] == id {
        assert p'.dropping[u] == id;
      }
    }
    forall u | u in p'.core.threads && (p'.core.threads[u].Marking? || p'.core.threads[u].Executing?)
      ensures p'.core.threads[u].id in p'.sinks
    {
      assert P.Holds(p.core.threads[u], p.core.threads[u].id);
    }
    forall id | id in p'.core.tasks
      ensures RecordFits(p', id)
    {
      assert RecordFits(p, id);
    }
  }

  /** Only the live output of a task in execution grows. */
  lemma PrintedRecord(p: Peer, id: TaskId, sink: S.Sink, x: TaskId)
    requires x in p.core.tasks && x in p.records && RecordFits(p, x) && P.InHand(p.core, id) && id in p.sinks
    ensures RecordFits(p.(sinks := p.sinks[id := sink]), x)
  {
    hide P.InHand;
  }

  lemma PrintedSinks(p: Peer, id: TaskId, sink: S.Sink)
    requires SinksFit(p) && id in p.sinks
    ensures SinksFit(p.(sinks := p.sinks[id := sink]))
  {
    hide Live;
    forall x | x in p.sinks
      ensures Live(p.(sinks := p.sinks[id := sink]), x)
    {
      LiveIgnoresOutput(p, p.sinks[id := sink], x);
    }
  }

  lemma PrintKeepsFits(p: Peer, id: TaskId, out: Bytes, err: Bytes)
    requires Fits(p) && Possible(p, Print(id, out, err))
    ensures Fits(Next(p, 0, Print(id, out, err)))
  {
    var t :| t in p.core.threads && p.core.threads[t] == L.Executing(id);
    assert P.Holds(p.core.threads[t], id);
    assert P.InHand(p.core, id);
    hide P.Sound, DroppingFits, SinksFit, RecordFits, P.InHand;
    var sink := S.Sink(p.sinks[id].stdout + out, p.sinks[id].stderr + err);
    var p' := p.(sinks := p.sinks[id := sink]);
    PrintedSinks(p, id, sink);
    forall x | x in p'.core.tasks
      ensures RecordFits(p', x)
    {
      PrintedRecord(p, id, sink, x);
    }
    SameDropping(p, p'.sinks);
  }

  lemma LiveIgnoresOutput(p: Peer, sinks: map<TaskId, S.Sink>, x: TaskId)
    ensures Live(p.(sinks := sinks), x) <==> Live(p, x)
  {
  }

  lemma SameDropping(p: Peer, sinks: map<TaskId, S.Sink>)
    ensures DroppingFits(p.(sinks := sinks)) <==> DroppingFits(p)
  {
  }

  lemma EventKeepsFits(p: Peer, cap: nat, ev: Event)
    requires Fits(p) && Possible(p, ev)
    ensures Fits(Next(p, cap, ev))
  {
    hide Fits;
    match ev
    case Section(e, d) => SectionKeepsFits(p, cap, e, d);
    case Drop(t) => DropKeepsFits(p, t);
    case Print(id, out, err) => PrintKeepsFits(p, id, out, err);
  }

  lemma RestartFits(p: Peer, saved: map<TaskId, Task>, note: Bytes, now: nat)
    requires saved.Keys <= p.core.issued
    ensures Fits(Restart(p, saved, note, now))
  {
  }

  /** A terminal record of a task in nobody's hands never changes again; it can
      only be removed. */
  lemma LetGoIsFinal(p: Peer, cap: nat, ev: Event, id: TaskId)
    requires Fits(p) && Possible(p, ev) && id in p.core.tasks && p.core.tasks[id].Terminal() && !P.InHand(p.core, id)
    ensures var p' := Next(p, cap, ev);
      !P.InHand(p'.core, id) && (id in p'.core.tasks ==> id in p'.records && Record(p', id) == Record(p, id))
  {
    assert ev.Section? && ev.e.Turn? ==> !P.Holds(p.core.threads[ev.e.t], id);
    assert id in p.core.issued;
    StaysOut(p, cap, ev, id);
    hide L.Step, NextRecords, P.InHand;
    OthersWriteNothing(p, cap, ev, id);
  }

  lemma StaysOut(p: Peer, cap: nat, ev: Event, id: TaskId)
    requires Possible(p, ev) && id in p.core.issued && !P.InHand(p.core, id)
    ensures !P.InHand(Next(p, cap, ev).core, id)
  {
    hide P.InHand, L.Step, NextRecords, NextSinks, NextDropping;
    if ev.Section? && P.InHand(L.Step(p.core, cap, ev.e), id) {
      P.HandsComeFrom(p.core, cap, ev.e, id);
    }
  }

  /** So the record of a task that has Completed or Failed is final. */
  lemma OverIsFinal(p: Peer, cap: nat, ev: Event, id: TaskId)
    requires Fits(p) && Possible(p, ev) && id in p.core.tasks && Over(p.core.tasks[id])
    ensures var p' := Next(p, cap, ev);
      id in p'.core.tasks ==> id in p'.records && Record(p', id) == Record(p, id)
  {
    assert RecordFits(p, id);
    hide Fits, P.InHand, Next, Possible;
    LetGoIsFinal(p, cap, ev, id);
  }

  // ---------------------------------------------------------------------
  // A poll between two sections
  // ---------------------------------------------------------------------

  /** The execution of id broke, its thread is between its two sections, and the
      process had written something that the error message does not replace. */
  predicate Torn(p: Peer, id: TaskId) {
    && id in p.records && p.records[id].exitCode.None?
    && (exists t :: t in p.dropping && p.dropping[t] == id)
    && id in p.sinks && (p.sinks[id].stdout != [] || p.sinks[id].stderr != p.records[id].errorOutput)
  }

  /** Second lookup: what it makes of a record that is over is the record, exactly
      unless the execution broke after it had printed and its thread has not yet
      dropped the live output. */
  lemma AnswerIsTheRecordExactly(p: Peer, id: TaskId)
    requires Fits(p) && id in p.core.tasks && Over(p.core.tasks[id])
    ensures S.Overlay(p.sinks, id, Record(p, id)) == Record(p, id) <==> !Torn(p, id)
  {
    assert RecordFits(p, id);
    if id in p.sinks {
      assert Live(p, id);
      assert forall u :: u in p.core.threads ==> !P.Holds(p.core.threads[u], id);
    }
  }

  // ---------------------------------------------------------------------
  // Every run of the lock sections is a run of the peer
  // ---------------------------------------------------------------------

  predicate ValidEvents(p: Peer, cap: nat, evs: seq<Event>)
    decreases |evs|
  {
    evs == [] || (Possible(p, evs[0]) && ValidEvents(Next(p, cap, evs[0]), cap, evs[1..]))
  }

  function After(p: Peer, cap: nat, evs: seq<Event>): Peer
    requires ValidEvents(p, cap, evs)
    decreases |evs|
  {
    if evs == [] then p else After(Next(p, cap, evs[0]), cap, evs[1..])
  }

  lemma AfterCons(p: Peer, cap: nat, ev: Event, evs: seq<Event>)
    requires Possible(p, ev) && ValidEvents(Next(p, cap, ev), cap, evs)
    ensures ValidEvents(p, cap, [ev] + evs) && After(p, cap, [ev] + evs) == After(Next(p, cap, ev), cap, evs)
  {
    assert ([ev] + evs)[1..] == evs;
  }

  /** A detail with which the next section of t is possible. */
  function Plain(p: Peer, e: L.Event): Detail {
    var sink := if e.Turn? && e.t in p.core.threads && p.core.threads[e.t].Executing? && p.core.threads[e.t].id in p.sinks
                then p.sinks[p.core.threads[e.t].id] else S.Sink([], []);
    Detail(["command"], S.Exited(if e.Turn? then e.code else 0, sink.stdout, sink.stderr, []), 0)
  }

  lemma {:induction false} LockRunIsPeerRun(p: Peer, cap: nat, es: seq<L.Event>) returns (evs: seq<Event>)
    requires L.ValidRun(p.core, cap, es)
    ensures ValidEvents(p, cap, evs) && After(p, cap, evs).core == L.Run(p.core, cap, es)
    decreases |es|, if es != [] && es[0].Turn? && es[0].t in p.dropping then 1 else 0
  {
    hide L.Step, NextRecords, NextSinks, NextDropping;
    if es == [] {
      evs := [];
    } else {
      var e := es[0];
      var ev := if e.Turn? && e.t in p.dropping then Drop(e.t) else Section(e, Plain(p, e));
      var rest := LockRunIsPeerRun(Next(p, cap, ev), cap, if ev.Drop? then es else es[1..]);
      AfterCons(p, cap, ev, rest);
      evs := [ev] + rest;
    }
  }
}
