/** Which process of a distributed training runs where: ranks, devices and local
    ranks. */
module DdpRanks {
  import opened Sequences
  import opened Sums

  datatype Address = Address(text: string)
  datatype PeerId = PeerId(text: string)
  datatype Peer = Peer(id: PeerId, ip: Address)

  /** One GPU of a peer, assigned to one rank. */
  datatype Slot = Slot(peer: Peer, device: nat)

  // ---------------------------------------------------------------------
  // Local ranks
  // ---------------------------------------------------------------------

  function Count<T(==)>(hosts: seq<T>, host: T): nat {
    if hosts == [] then 0 else Count(Front(hosts), host) + if Last(hosts) == host then 1 else 0
  }

  /** Each entry's local rank: how many entries before it share its host. */
  function LocalRanks<T(==)>(hosts: seq<T>): (ranks: seq<nat>)
    ensures |ranks| == |hosts|
  {
    if hosts == [] then [] else LocalRanks(Front(hosts)) + [Count(Front(hosts), Last(hosts))]
  }

  method LocalRankMap<T(==)>(hosts: seq<T>) returns (out: seq<nat>)
    ensures out == LocalRanks(hosts)
  {
    var counts: map<T, nat> := map[];
    out := [];
    for i := 0 to |hosts|
      invariant out == LocalRanks(hosts[..i])
      invariant forall h :: At(counts, h) == Count(hosts[..i], h)
    {
      assert Front(hosts[..i + 1]) == hosts[..i] && Last(hosts[..i + 1]) == hosts[i];
      var local := At(counts, hosts[i]);
      out := out + [local];
      counts := counts[hosts[i] := local + 1];
    }
    assert hosts[..|hosts|] == hosts;
  }

  /** The local ranks given on one host, in rank order. */
  function OnHost<T(==)>(hosts: seq<T>, ranks: seq<nat>, host: T): seq<nat>
    requires |ranks| == |hosts|
  {
    if hosts == [] then []
    else OnHost(Front(hosts), Front(ranks), host) + if Last(hosts) == host then [Last(ranks)] else []
  }

  function UpTo(n: nat): (s: seq<nat>)
    ensures |s| == n
  {
    seq(n, i => i)
  }

  /** On every host the local ranks are 0, 1, ..., k - 1 in this order. */
  lemma {:induction false} LocalRanksAreExact<T>(hosts: seq<T>, host: T)
    ensures OnHost(hosts, LocalRanks(hosts), host) == UpTo(Count(hosts, host))
    decreases |hosts|
  {
    if hosts != [] {
      assert Front(LocalRanks(hosts)) == LocalRanks(Front(hosts));
      LocalRanksAreExact(Front(hosts), host);
    }
  }

  // ---------------------------------------------------------------------
  // Enumeration of the selected GPUs
  // ---------------------------------------------------------------------

  /** The GPUs of one peer. */
  function Devices(peer: Peer, n: nat): (s: seq<Slot>)
    ensures |s| == n
  {
    seq(n, i requires 0 <= i < n => Slot(peer, i))
  }

  function Flat(peers: seq<Peer>, selected: map<PeerId, nat>): seq<Slot> {
    if peers == [] then []
    else Flat(Front(peers), selected) + Devices(Last(peers), At(selected, Last(peers).id))
  }

  /** Walk the peers in order, and the devices of each. */
  method Enumerate(peers: seq<Peer>, selected: map<PeerId, nat>) returns (flat: seq<Slot>)
    ensures flat == Flat(peers, selected)
  {
    flat := [];
    for k := 0 to |peers|
      invariant flat == Flat(peers[..k], selected)
    {
      assert Front(peers[..k + 1]) == peers[..k] && Last(peers[..k + 1]) == peers[k];
      var want := At(selected, peers[k].id);
      ghost var before := flat;
      for i := 0 to want
        invariant flat == before + Devices(peers[k], i)
      {
        assert Devices(peers[k], i + 1) == Devices(peers[k], i) + [Slot(peers[k], i)];
        flat := flat + [Slot(peers[k], i)];
      }
    }
    assert peers[..|peers|] == peers;
  }

  datatype Assignment = Assignment(rank: nat, localRank: nat, worldSize: nat, peer: Peer, device: nat)

  function Hosts(flat: seq<Slot>): (hosts: seq<Address>)
    ensures |hosts| == |flat|
  {
    seq(|flat|, i requires 0 <= i < |flat| => flat[i].peer.ip)
  }

  /** Ranks in order, local ranks by address. */
  method AssignRanks(flat: seq<Slot>) returns (out: seq<Assignment>)
    ensures |out| == |flat|
    ensures forall r :: 0 <= r < |flat| ==>
      out[r] == Assignment(r, LocalRanks(Hosts(flat))[r], |flat|, flat[r].peer, flat[r].device)
    ensures forall r :: 0 <= r < |flat| ==> out[r].localRank == |Before(flat, r)|
  {
    var seenPerIp: map<Address, nat> := map[];
    out := [];
    ghost var hosts := Hosts(flat);
    ghost var ranks := [];
    for rank := 0 to |flat|
      invariant ranks == LocalRanks(hosts[..rank]) && |out| == rank
      invariant forall h :: At(seenPerIp, h) == Count(hosts[..rank], h)
      invariant forall r :: 0 <= r < rank ==>
        out[r] == Assignment(r, ranks[r], |flat|, flat[r].peer, flat[r].device)
    {
      assert Front(hosts[..rank + 1]) == hosts[..rank] && Last(hosts[..rank + 1]) == hosts[rank];
      var ip := flat[rank].peer.ip;
      var localRank := At(seenPerIp, ip);
      seenPerIp := seenPerIp[ip := localRank + 1];
      out := out + [Assignment(rank, localRank, |flat|, flat[rank].peer, flat[rank].device)];
      ranks := ranks + [localRank];
    }
    assert hosts[..|hosts|] == hosts;
    forall r | 0 <= r < |flat|
      ensures out[r].localRank == |Before(flat, r)|
    {
      LocalRankCounts(hosts, r);
      assert Before(flat, r) == EarlierOn(hosts, hosts[r], r);
    }
  }

  /** The earlier ranks at the same address. */
  function Before(flat: seq<Slot>, r: nat): set<nat>
    requires r < |flat|
  {
    set q: nat | q < r && flat[q].peer.ip == flat[r].peer.ip
  }

  function EarlierOn<T(==)>(hosts: seq<T>, host: T, r: nat): set<nat>
    requires r <= |hosts|
  {
    set q: nat | q < r && hosts[q] == host
  }

  lemma {:induction false} CountIs<T>(hosts: seq<T>, host: T)
    ensures Count(hosts, host) == |EarlierOn(hosts, host, |hosts|)|
    decreases |hosts|
  {
    if hosts != [] {
      CountIs(Front(hosts), host);
      var n := |hosts| - 1;
      var before := EarlierOn(Front(hosts), host, n);
      assert EarlierOn(hosts, host, |hosts|) == before + if Last(hosts) == host then {n} else {};
    }
  }

  /** A local rank is the number of earlier entries on the same host. */
  lemma {:induction false} LocalRankCounts<T>(hosts: seq<T>, r: nat)
    requires r < |hosts|
    ensures LocalRanks(hosts)[r] == |EarlierOn(hosts, hosts[r], r)|
    decreases |hosts|
  {
    if r < |hosts| - 1 {
      LocalRankCounts(Front(hosts), r);
      assert EarlierOn(Front(hosts), hosts[r], r) == EarlierOn(hosts, hosts[r], r);
    } else {
      CountIs(Front(hosts), Last(hosts));
      assert EarlierOn(Front(hosts), Last(hosts), r) == EarlierOn(hosts, hosts[r], r);
    }
  }

  lemma {:induction false} FlatGrows(peers: seq<Peer>, selected: map<PeerId, nat>, k: nat)
    requires k <= |peers|
    ensures Flat(peers[..k], selected) <= Flat(peers, selected)
    decreases |peers|
  {
    if k < |peers| {
      assert Front(peers)[..k] == peers[..k];
      FlatGrows(Front(peers), selected, k);
    } else {
      assert peers[..k] == peers;
    }
  }

  /** Where the devices of the k-th peer are. */
  lemma {:induction false} FlatAt(peers: seq<Peer>, selected: map<PeerId, nat>, k: nat, d: nat)
    requires k < |peers| && d < At(selected, peers[k].id)
    ensures var s := |Flat(peers[..k], selected)| + d;
      s < |Flat(peers[..k + 1], selected)| <= |Flat(peers, selected)|
      && Flat(peers, selected)[s] == Slot(peers[k], d)
  {
    assert Front(peers[..k + 1]) == peers[..k] && Last(peers[..k + 1]) == peers[k];
    FlatGrows(peers, selected, k + 1);
  }

  lemma {:induction false} FlatFrom(peers: seq<Peer>, selected: map<PeerId, nat>, s: nat) returns (k: nat)
    requires s < |Flat(peers, selected)|
    ensures k < |peers| && Flat(peers, selected)[s].peer == peers[k]
    ensures Flat(peers, selected)[s].device < At(selected, peers[k].id)
    ensures s == |Flat(peers[..k], selected)| + Flat(peers, selected)[s].device
    decreases |peers|
  {
    var before := Flat(Front(peers), selected);
    if s < |before| {
      k := FlatFrom(Front(peers), selected, s);
      assert Front(peers)[..k] == peers[..k];
    } else {
      k := |peers| - 1;
    }
  }

  ghost predicate NoDeviceTwice(flat: seq<Slot>) {
    forall s, t :: 0 <= s < t < |flat| ==> flat[s].peer.id != flat[t].peer.id || flat[s].device != flat[t].device
  }

  ghost predicate SelectedOnce(peers: seq<Peer>, selected: map<PeerId, nat>) {
    forall i, j :: 0 <= i < j < |peers| && peers[i].id == peers[j].id ==> At(selected, peers[i].id) == 0
  }

  /** No two ranks get the same device of the same peer, exactly when no selected
      peer is listed twice. */
  lemma NoDeviceTwiceExactly(peers: seq<Peer>, selected: map<PeerId, nat>)
    ensures NoDeviceTwice(Flat(peers, selected)) <==> SelectedOnce(peers, selected)
  {
    var flat := Flat(peers, selected);
    if SelectedOnce(peers, selected) {
      forall s, t | 0 <= s < t < |flat|
        ensures flat[s].peer.id != flat[t].peer.id || flat[s].device != flat[t].device
      {
        var i := FlatFrom(peers, selected, s);
        var j := FlatFrom(peers, selected, t);
      }
    }
    if NoDeviceTwice(flat) {
      forall i, j | 0 <= i < j < |peers| && peers[i].id == peers[j].id
        ensures At(selected, peers[i].id) == 0
      {
        if At(selected, peers[i].id) > 0 {
          FlatAt(peers, selected, i, 0);
          FlatAt(peers, selected, j, 0);
          assert peers[..j][..i + 1] == peers[..i + 1];
          FlatGrows(peers[..j], selected, i + 1);
        }
      }
    }
  }

  function Ids(peers: seq<Peer>): (ids: set<PeerId>)
    ensures forall id :: id in ids <==> exists i :: 0 <= i < |peers| && peers[i].id == id
  {
    set i | 0 <= i < |peers| :: peers[i].id
  }

  ghost predicate DistinctIds(peers: seq<Peer>) {
    forall i, j :: 0 <= i < j < |peers| ==> peers[i].id != peers[j].id
  }

  lemma IdsOfFront(peers: seq<Peer>)
    requires DistinctIds(peers) && peers != []
    ensures DistinctIds(Front(peers))
    ensures Last(peers).id in Ids(peers) && Ids(peers) - {Last(peers).id} == Ids(Front(peers))
  {
    assert peers[|peers| - 1] == Last(peers);
    forall i | 0 <= i < |peers| - 1
      ensures Front(peers)[i] == peers[i] && peers[i].id in Ids(Front(peers)) && peers[i].id != Last(peers).id
    {
    }
  }

  lemma {:induction false} FlatSize(peers: seq<Peer>, selected: map<PeerId, nat>)
    requires DistinctIds(peers)
    ensures |Flat(peers, selected)| == Sum(selected, Ids(peers))
    decreases |peers|
  {
    hide Ids;
    if peers == [] {
      assert Ids(peers) == {};
    } else {
      FlatSize(Front(peers), selected);
      IdsOfFront(peers);
      SumWithout(selected, Ids(peers), Last(peers).id);
    }
  }

  /** Every selected GPU of a target gets a rank; what is selected on peers that
      are no longer targets is the only difference to the total the form shows. */
  lemma WorldSizeIsSelected(peers: seq<Peer>, selected: map<PeerId, nat>)
    requires DistinctIds(peers)
    ensures |Flat(peers, selected)| == Sum(selected, Ids(peers) * selected.Keys)
    ensures Sum(selected, selected.Keys) == |Flat(peers, selected)| + Sum(selected, selected.Keys - Ids(peers))
  {
    FlatSize(peers, selected);
    SumOfWeighted(selected, Ids(peers));
    SumOfUnion(selected, Ids(peers) * selected.Keys, selected.Keys - Ids(peers));
    assert selected.Keys == Ids(peers) * selected.Keys + (selected.Keys - Ids(peers));
  }

  /** After the form's check that a GPU is selected there is a rank 0 exactly when
      one is selected on a target. */
  lemma MasterExistsExactly(peers: seq<Peer>, selected: map<PeerId, nat>)
    requires DistinctIds(peers) && Sum(selected, selected.Keys) >= 1
    ensures Flat(peers, selected) != [] <==> Sum(selected, selected.Keys - Ids(peers)) < Sum(selected, selected.Keys)
  {
    WorldSizeIsSelected(peers, selected);
  }

  /** A GPU selected on a peer that has left: the check passes, and there is no
      rank 0. */
  lemma StaleSelectionHasNoMaster(id: PeerId)
    ensures var selected := map[id := 1];
      Sum(selected, selected.Keys) >= 1 && Flat([], selected) == []
  {
    var selected := map[id := 1];
    SumWithout(selected, selected.Keys, id);
  }

  /** The order in which the targets are sorted does not change how many ranks
      there are. */
  lemma WorldSizeIgnoresOrder(a: seq<Peer>, b: seq<Peer>, selected: map<PeerId, nat>)
    requires DistinctIds(a) && DistinctIds(b) && Ids(a) == Ids(b)
    ensures |Flat(a, selected)| == |Flat(b, selected)|
  {
    FlatSize(a, selected);
    FlatSize(b, selected);
  }
}
