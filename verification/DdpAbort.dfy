/** The end of a distributed training: collecting the results of the ranks as
    they complete, and cancelling the others when the first one fails. */
module DdpAbort {
  import opened Tasks
  import opened Sequences

  /** What a rank's dispatch ended with: a task result, or an exception. */
  datatype Outcome = Returned(status: Status, exitCode: Option<int>) | Raised {
    /** TaskResult.ok */
    predicate Ok() {
      Returned? && status == Completed && (exitCode.None? || exitCode.value == 0)
    }
  }

  // ---------------------------------------------------------------------
  // The abort protocol
  // ---------------------------------------------------------------------

  /** Ranks that have settled, the rank that triggered the abort, and the cancel
      requests sent, in order. */
  datatype Abort = Abort(settled: set<nat>, source: Option<nat>, cancels: seq<nat>)

  const START := Abort({}, None, [])

  /** The ranks below n that have not settled. */
  function Unsettled(n: nat, settled: set<nat>): seq<nat> {
    if n == 0 then [] else Unsettled(n - 1, settled) + if n - 1 in settled then [] else [n - 1]
  }

  /** A rank settles; if it failed first, the others still out are cancelled. */
  function Settle(a: Abort, n: nat, rank: nat, failed: bool): Abort {
    var settled := a.settled + {rank};
    if failed && a.source.None?
    then Abort(settled, Some(rank), a.cancels + Unsettled(n, settled))
    else a.(settled := settled)
  }

  function Settles(n: nat, order: seq<nat>, failed: seq<bool>): Abort
    requires forall i :: 0 <= i < |order| ==> order[i] < |failed|
  {
    if order == [] then START
    else
      assert order[|order| - 1] < |failed|;
      Settle(Settles(n, Front(order), failed), n, Last(order), failed[Last(order)])
  }

  lemma SettlesNothing(n: nat, failed: seq<bool>)
    ensures Settles(n, [], failed) == START
  {
  }

  lemma SettlesStep(n: nat, order: seq<nat>, failed: seq<bool>)
    requires order != [] && forall i :: 0 <= i < |order| ==> order[i] < |failed|
    ensures Settles(n, order, failed) == Settle(Settles(n, Front(order), failed), n, Last(order), failed[Last(order)])
  {
  }

  function Elements(s: seq<nat>): (r: set<nat>)
    ensures forall x :: x in r <==> x in s
  {
    set x | x in s
  }

  lemma {:induction false} UnsettledIs(n: nat, settled: set<nat>)
    ensures forall r: nat :: r in Unsettled(n, settled) <==> r < n && r !in settled
    ensures forall i, j :: 0 <= i < j < |Unsettled(n, settled)| ==> Unsettled(n, settled)[i] < Unsettled(n, settled)[j]
  {
    if n > 0 {
      UnsettledIs(n - 1, settled);
      var before, last := Unsettled(n - 1, settled), if n - 1 in settled then [] else [n - 1];
      assert Unsettled(n, settled) == before + last;
      forall r: nat
        ensures r in before + last <==> r < n && r !in settled
      {
        assert r in last <==> r == n - 1 && r !in settled;
      }
      forall i | 0 <= i < |before|
        ensures before[i] < n - 1
      {
        assert before[i] in before;
      }
    }
  }

  /** Position k is the first in the order whose rank failed. */
  predicate FirstFailure(order: seq<nat>, failed: seq<bool>, k: nat)
    requires forall i :: 0 <= i < |order| ==> order[i] < |failed|
  {
    k < |order| && failed[order[k]] && forall i :: 0 <= i < k ==> !failed[order[i]]
  }

  predicate AbortedAt(a: Abort, n: nat, order: seq<nat>, failed: seq<bool>, k: nat)
    requires forall i :: 0 <= i < |order| ==> order[i] < |failed|
  {
    && FirstFailure(order, failed, k)
    && a.source == Some(order[k]) && a.cancels == Unsettled(n, Elements(order[..k + 1]))
  }

  lemma {:induction false} SettlesSoFar(n: nat, order: seq<nat>, failed: seq<bool>)
    requires forall i :: 0 <= i < |order| ==> order[i] < |failed|
    ensures var a := Settles(n, order, failed);
      && a.settled == Elements(order)
      && (a.source.None? ==> a.cancels == [] && forall i :: 0 <= i < |order| ==> !failed[order[i]])
      && (a.source.Some? ==> exists k: nat :: AbortedAt(a, n, order, failed, k))
    decreases |order|
  {
    if order != [] {
      var front := Front(order);
      SettlesSoFar(n, front, failed);
      var before, a := Settles(n, front, failed), Settles(n, order, failed);
      assert order == front + [Last(order)];
      assert Elements(order) == Elements(front) + {Last(order)};
      if before.source.Some? {
        var k: nat :| AbortedAt(before, n, front, failed, k);
        assert front[..k + 1] == order[..k + 1];
        assert AbortedAt(a, n, order, failed, k);
      } else if failed[Last(order)] {
        var k := |order| - 1;
        assert order[..k + 1] == order;
        assert AbortedAt(a, n, order, failed, k);
      }
    }
  }

  /** For every order of completion: no rank is cancelled when none fails;
      otherwise, when the first failing rank completes, exactly the ranks that
      have not completed are cancelled, each once, and later failures cancel
      nothing more. */
  lemma {:induction false} CancelsExactlyTheRest(n: nat, order: seq<nat>, failed: seq<bool>, k: nat)
    requires forall i :: 0 <= i < |order| ==> order[i] < |failed|
    requires FirstFailure(order, failed, k)
    ensures var cancels := Settles(n, order, failed).cancels;
      && (forall r: nat :: r in cancels <==> r < n && r !in order[..k + 1])
      && (forall i, j :: 0 <= i < j < |cancels| ==> cancels[i] != cancels[j])
    ensures Settles(n, order, failed).source == Some(order[k])
  {
    SettlesSoFar(n, order, failed);
    var a := Settles(n, order, failed);
    assert failed[order[k]];
    var first: nat :| AbortedAt(a, n, order, failed, first);
    assert first == k;
    UnsettledIs(n, Elements(order[..k + 1]));
  }

  /** And when none fails nobody is cancelled. */
  lemma NobodyIsCancelled(n: nat, order: seq<nat>, failed: seq<bool>)
    requires forall i :: 0 <= i < |order| ==> order[i] < |failed| && !failed[order[i]]
    ensures Settles(n, order, failed).cancels == [] && Settles(n, order, failed).source.None?
  {
    SettlesSoFar(n, order, failed);
  }

  /** The cancels that a first failure at position k calls for. */
  predicate CancelsAfter(cancels: seq<nat>, n: nat, order: seq<nat>, k: nat)
    requires k < |order|
  {
    && (forall r :: 0 <= r < n ==> (r in cancels <==> r !in order[..k + 1]))
    && (forall i :: 0 <= i < |cancels| ==> cancels[i] < n)
    && (forall i, j :: 0 <= i < j < |cancels| ==> cancels[i] != cancels[j])
  }

  lemma CancelsAreRanks(n: nat, order: seq<nat>, failed: seq<bool>, k: nat)
    requires forall i :: 0 <= i < |order| ==> order[i] < |failed|
    requires FirstFailure(order, failed, k)
    ensures CancelsAfter(Settles(n, order, failed).cancels, n, order, k)
  {
    CancelsExactlyTheRest(n, order, failed, k);
    var cancels := Settles(n, order, failed).cancels;
    forall i | 0 <= i < |cancels|
      ensures cancels[i] < n
    {
      assert cancels[i] in cancels;
    }
  }

  // ---------------------------------------------------------------------
  // distribute: the completion loop of the Python client
  // ---------------------------------------------------------------------

  function Failing(outcomes: seq<Outcome>): (failed: seq<bool>)
    ensures |failed| == |outcomes|
    ensures forall i :: 0 <= i < |failed| ==> failed[i] == !outcomes[i].Ok()
  {
    seq(|outcomes|, i requires 0 <= i < |outcomes| => !outcomes[i].Ok())
  }

  /** Each rank's dispatch completes once. */
  predicate CompletionOrder(order: seq<nat>, n: nat) {
    && (forall i :: 0 <= i < |order| ==> order[i] < n)
    && (forall i, j :: 0 <= i < j < |order| ==> order[i] != order[j])
    && (forall r :: 0 <= r < n ==> r in order)
  }

  /** The rank of the first exception in rank order. */
  predicate FirstRaised(outcomes: seq<Outcome>, raised: Option<nat>) {
    match raised
    case None => forall i :: 0 <= i < |outcomes| ==> !outcomes[i].Raised?
    case Some(r) => r < |outcomes| && outcomes[r].Raised? && forall i :: 0 <= i < r ==> !outcomes[i].Raised?
  }

  /** Cancel every rank without a result, except one. */
  method CancelSiblings(exceptRank: nat, results: seq<Option<Outcome>>, sent: seq<nat>) returns (cancels: seq<nat>)
    requires exceptRank < |results| && results[exceptRank].Some?
    ensures cancels == sent + Unsettled(|results|, set j | 0 <= j < |results| && results[j].Some?)
  {
    cancels := sent;
    ghost var settled := set j | 0 <= j < |results| && results[j].Some?;
    for j := 0 to |results|
      invariant cancels == sent + Unsettled(j, settled)
    {
      if j == exceptRank || results[j].Some? {
        continue;
      }
      cancels := cancels + [j];
    }
  }

  /** order is how the futures complete, outcomes what each ends with. */
  method CollectResults(order: seq<nat>, outcomes: seq<Outcome>)
    returns (results: seq<Option<Outcome>>, cancels: seq<nat>, raised: Option<nat>)
    requires CompletionOrder(order, |outcomes|)
    ensures |results| == |outcomes| && forall i :: 0 <= i < |results| ==> results[i] == Some(outcomes[i])
    ensures cancels == Settles(|outcomes|, order, Failing(outcomes)).cancels
    ensures forall k :: FirstBad(order, outcomes, k) ==> CancelsAfter(cancels, |outcomes|, order, k)
    ensures (forall i :: 0 <= i < |outcomes| ==> outcomes[i] in GOOD_ENDS) ==> cancels == []
    ensures FirstRaised(outcomes, raised)
  {
    hide Unsettled, Settles;
    var n := |outcomes|;
    results := seq(n, i => None);
    cancels := [];
    var erroredRank: Option<nat> := None;
    ghost var failed := Failing(outcomes);
    assert Settles(n, [], failed) == START by { SettlesNothing(n, failed); }
    for k := 0 to |order|
      invariant |results| == n
      invariant forall i :: 0 <= i < n ==> results[i] == if i in order[..k] then Some(outcomes[i]) else None
      invariant Abort(Elements(order[..k]), erroredRank, cancels) == Settles(n, order[..k], failed)
    {
      assert Front(order[..k + 1]) == order[..k] && Last(order[..k + 1]) == order[k];
      var i := order[k];
      results := results[i := Some(outcomes[i])];
      assert Elements(order[..k + 1]) == Elements(order[..k]) + {i};
      assert (set j | 0 <= j < n && results[j].Some?) == Elements(order[..k + 1]);
      SettlesStep(n, order[..k + 1], failed);
      if !outcomes[i].Ok() && erroredRank.None? {
        erroredRank := Some(i);
        cancels := CancelSiblings(i, results, cancels);
      }
    }
    assert order[..|order|] == order;
    PythonCancels(order, outcomes);
    raised := None;
    for i := 0 to n
      invariant forall j :: 0 <= j < i ==> !outcomes[j].Raised?
    {
      if results[i].value.Raised? {
        raised := Some(i);
        return;
      }
    }
  }

  /** The only good ends: a completed task without an exit code, or with 0. */
  const GOOD_ENDS: set<Outcome> := {Returned(Completed, None), Returned(Completed, Some(0))}

  /** Position k is the first in the order that ends otherwise. */
  ghost predicate FirstBad(order: seq<nat>, outcomes: seq<Outcome>, k: int)
    requires forall i :: 0 <= i < |order| ==> order[i] < |outcomes|
  {
    0 <= k < |order| && outcomes[order[k]] !in GOOD_ENDS && forall i :: 0 <= i < k ==> outcomes[order[i]] in GOOD_ENDS
  }

  /** Which ranks are cancelled, by what the dispatches ended with. */
  lemma PythonCancels(order: seq<nat>, outcomes: seq<Outcome>)
    requires CompletionOrder(order, |outcomes|)
    ensures var cancels := Settles(|outcomes|, order, Failing(outcomes)).cancels;
      && (forall k :: FirstBad(order, outcomes, k) ==> CancelsAfter(cancels, |outcomes|, order, k))
      && ((forall i :: 0 <= i < |outcomes| ==> outcomes[i] in GOOD_ENDS) ==> cancels == [])
  {
    hide Settles;
    var n, failed := |outcomes|, Failing(outcomes);
    assert forall i :: 0 <= i < n ==> (failed[i] <==> outcomes[i] !in GOOD_ENDS);
    forall k | FirstBad(order, outcomes, k)
      ensures CancelsAfter(Settles(n, order, failed).cancels, n, order, k)
    {
      assert FirstFailure(order, failed, k);
      CancelsAreRanks(n, order, failed, k);
    }
    if forall i :: 0 <= i < n ==> outcomes[i] in GOOD_ENDS {
      NobodyIsCancelled(n, order, failed);
    }
  }

  // ---------------------------------------------------------------------
  // The form: settled ids and the abort trigger
  // ---------------------------------------------------------------------

  /** A rank that threw or whose task failed; a cancelled one does not abort. */
  predicate FormFails(outcome: Outcome) {
    outcome.Raised? || outcome.status == Failed
  }

  /** The state a launch of the form keeps while its dispatches run. */
  class Launch {
    const localIds: seq<TaskId>
    var settledIds: set<TaskId>
    var abortTriggered: bool
    var cancelled: seq<TaskId>

    ghost predicate Valid() {
      forall i, j :: 0 <= i < j < |localIds| ==> localIds[i] != localIds[j]
    }

    /** The launch shows this state of the abort protocol. */
    ghost predicate Shows(a: Abort)
      reads this
    {
      && (forall r :: 0 <= r < |localIds| ==> (localIds[r] in settledIds <==> r in a.settled))
      && (abortTriggered <==> a.source.Some?)
      && |cancelled| == |a.cancels|
      && forall i :: 0 <= i < |a.cancels| ==> a.cancels[i] < |localIds| && cancelled[i] == localIds[a.cancels[i]]
    }

    constructor (localIds: seq<TaskId>)
      requires forall i, j :: 0 <= i < j < |localIds| ==> localIds[i] != localIds[j]
      ensures this.localIds == localIds && Valid() && Shows(START)
    {
      this.localIds := localIds;
      settledIds, abortTriggered, cancelled := {}, false, [];
    }

    method TriggerAbort(sourceRank: nat, ghost a: Abort)
      requires Valid() && sourceRank < |localIds| && Shows(a) && sourceRank in a.settled
      modifies this`abortTriggered, this`cancelled
      ensures Shows(if a.source.Some? then a
                    else Abort(a.settled, Some(sourceRank), a.cancels + Unsettled(|localIds|, a.settled)))
    {
      if abortTriggered {
        return;
      }
      abortTriggered := true;
      ghost var sent := a.cancels;
      for rank := 0 to |localIds|
        invariant sent == a.cancels + Unsettled(rank, a.settled) && abortTriggered
        invariant Shows(Abort(a.settled, Some(sourceRank), sent))
      {
        if rank == sourceRank || localIds[rank] in settledIds {
          continue;
        }
        cancelled := cancelled + [localIds[rank]];
        sent := sent + [rank];
      }
    }

    /** A dispatch returned a task or threw. */
    method DispatchEnded(rank: nat, outcome: Outcome, ghost a: Abort)
      requires Valid() && rank < |localIds| && Shows(a)
      modifies this
      ensures Shows(Settle(a, |localIds|, rank, FormFails(outcome)))
    {
      settledIds := settledIds + {localIds[rank]};
      ghost var settled := a.(settled := a.settled + {rank});
      assert Shows(settled) by {
        forall r | 0 <= r < |localIds|
          ensures localIds[r] in settledIds <==> r in settled.settled
        {
          assert localIds[r] == localIds[rank] <==> r == rank;
        }
      }
      if FormFails(outcome) && !abortTriggered {
        TriggerAbort(rank, settled);
      }
    }

    /** All dispatches of the launch, in the order in which they end. */
    method AwaitAll(order: seq<nat>, outcomes: seq<Outcome>)
      requires Valid() && CompletionOrder(order, |outcomes|) && |outcomes| == |localIds|
      requires Shows(START)
      modifies this
      ensures Shows(Settles(|localIds|, order, FormFailing(outcomes)))
      ensures forall k :: FirstFormFailure(order, outcomes, k) ==>
        && (forall r :: 0 <= r < |localIds| ==> (localIds[r] in cancelled <==> r !in order[..k + 1]))
        && (forall i, j :: 0 <= i < j < |cancelled| ==> cancelled[i] != cancelled[j])
      ensures (forall i :: 0 <= i < |outcomes| ==> outcomes[i].Returned? && outcomes[i].status != Failed) ==> cancelled == []
    {
      hide Settle, Settles, Shows;
      ghost var failed := FormFailing(outcomes);
      SettlesNothing(|localIds|, failed);
      for k := 0 to |order|
        invariant Shows(Settles(|localIds|, order[..k], failed))
      {
        assert Front(order[..k + 1]) == order[..k] && Last(order[..k + 1]) == order[k];
        SettlesStep(|localIds|, order[..k + 1], failed);
        DispatchEnded(order[k], outcomes[order[k]], Settles(|localIds|, order[..k], failed));
      }
      assert order[..|order|] == order;
      FormCancels(order, outcomes);
      ShowsCancels(Settles(|localIds|, order, failed), order);
    }

    lemma ShowsCancels(a: Abort, order: seq<nat>)
      requires Valid() && Shows(a)
      ensures |cancelled| == |a.cancels|
      ensures forall k :: 0 <= k < |order| && CancelsAfter(a.cancels, |localIds|, order, k) ==>
        && (forall r :: 0 <= r < |localIds| ==> (localIds[r] in cancelled <==> r !in order[..k + 1]))
        && (forall i, j :: 0 <= i < j < |cancelled| ==> cancelled[i] != cancelled[j])
    {
      forall r | 0 <= r < |localIds|
        ensures localIds[r] in cancelled <==> r in a.cancels
      {
        if localIds[r] in cancelled {
          var i :| 0 <= i < |cancelled| && cancelled[i] == localIds[r];
          assert a.cancels[i] == r;
        }
        if r in a.cancels {
          var i :| 0 <= i < |a.cancels| && a.cancels[i] == r;
          assert cancelled[i] == localIds[r];
        }
      }
    }
  }

  /** Position k is the first in the order that threw, or returned a task that
      failed. */
  ghost predicate FirstFormFailure(order: seq<nat>, outcomes: seq<Outcome>, k: int)
    requires forall i :: 0 <= i < |order| ==> order[i] < |outcomes|
  {
    && 0 <= k < |order|
    && (outcomes[order[k]].Returned? ==> outcomes[order[k]].status == Failed)
    && forall i :: 0 <= i < k ==> outcomes[order[i]].Returned? && outcomes[order[i]].status != Failed
  }

  lemma FormCancels(order: seq<nat>, outcomes: seq<Outcome>)
    requires CompletionOrder(order, |outcomes|)
    ensures var cancels := Settles(|outcomes|, order, FormFailing(outcomes)).cancels;
      && (forall k :: FirstFormFailure(order, outcomes, k) ==> CancelsAfter(cancels, |outcomes|, order, k))
      && ((forall i :: 0 <= i < |outcomes| ==> outcomes[i].Returned? && outcomes[i].status != Failed) ==> cancels == [])
  {
    hide Settles;
    var n, failed := |outcomes|, FormFailing(outcomes);
    forall k | FirstFormFailure(order, outcomes, k)
      ensures CancelsAfter(Settles(n, order, failed).cancels, n, order, k)
    {
      assert FirstFailure(order, failed, k);
      CancelsAreRanks(n, order, failed, k);
    }
    if forall i :: 0 <= i < n ==> outcomes[i].Returned? && outcomes[i].status != Failed {
      NobodyIsCancelled(n, order, failed);
    }
  }

  function FormFailing(outcomes: seq<Outcome>): (failed: seq<bool>)
    ensures |failed| == |outcomes|
    ensures forall i :: 0 <= i < |failed| ==> failed[i] == FormFails(outcomes[i])
  {
    seq(|outcomes|, i requires 0 <= i < |outcomes| => FormFails(outcomes[i]))
  }
}
