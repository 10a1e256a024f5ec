/** Per-user usage for the gauges: running tasks grouped by where they come from,
    and the segment of the local user. Memory is in whole megabytes. */
module Usage {
  import opened Tasks
  import opened Sequences

  datatype Label = Label(text: string)

  datatype Color = SelfColor | Palette(index: nat)

  const PALETTE_SIZE: nat := 8

  /** A task as the gauges read it. */
  datatype UsageTask = UsageTask(status: Status, sourceMachine: Label, sourceUser: Label, cpu: real, ramMb: nat, gpu: real)

  datatype UserUsage = UserUsage(name: Label, color: Color, cpu: real, ramMb: nat, gpu: real, taskCount: Option<nat>)

  /** The machine if it is named, else the user, else a fixed label. */
  function KeyOf(t: UsageTask, unknown: Label): Label {
    if t.sourceMachine.text != "" then t.sourceMachine
    else if t.sourceUser.text != "" then t.sourceUser
    else unknown
  }

  function RunningTasks(tasks: seq<UsageTask>): seq<UsageTask> {
    if tasks == [] then []
    else RunningTasks(Front(tasks)) + if Last(tasks).status == Running then [Last(tasks)] else []
  }

  /** The filter keeps the running tasks, all of them and nothing else. */
  lemma {:induction false} RunningTasksAre(tasks: seq<UsageTask>)
    ensures forall t :: multiset(RunningTasks(tasks))[t] == if t.status == Running then multiset(tasks)[t] else 0
  {
    if tasks != [] {
      RunningTasksAre(Front(tasks));
      assert tasks == Front(tasks) + [Last(tasks)];
    }
  }

  // ---------------------------------------------------------------------
  // What the groups are
  // ---------------------------------------------------------------------

  /** The sources of the tasks, each once, in order of first appearance. */
  function Sources(tasks: seq<UsageTask>, unknown: Label): seq<Label> {
    if tasks == [] then []
    else
      var before, key := Sources(Front(tasks), unknown), KeyOf(Last(tasks), unknown);
      if key in before then before else before + [key]
  }

  /** The tasks of one source. */
  function From(tasks: seq<UsageTask>, unknown: Label, key: Label): seq<UsageTask> {
    if tasks == [] then []
    else From(Front(tasks), unknown, key) + if KeyOf(Last(tasks), unknown) == key then [Last(tasks)] else []
  }

  function TaskRam(tasks: seq<UsageTask>): nat {
    if tasks == [] then 0 else TaskRam(Front(tasks)) + Last(tasks).ramMb
  }

  function TaskCpu(tasks: seq<UsageTask>): real {
    if tasks == [] then 0.0 else TaskCpu(Front(tasks)) + Last(tasks).cpu
  }

  function TaskGpu(tasks: seq<UsageTask>): real {
    if tasks == [] then 0.0 else TaskGpu(Front(tasks)) + Last(tasks).gpu
  }

  /** The entry of the i-th source. */
  function Group(tasks: seq<UsageTask>, unknown: Label, i: nat): UserUsage
    requires i < |Sources(tasks, unknown)|
  {
    var key := Sources(tasks, unknown)[i];
    var own := From(tasks, unknown, key);
    UserUsage(key, Palette(i % PALETTE_SIZE), TaskCpu(own), TaskRam(own), TaskGpu(own), Some(|own|))
  }

  function Groups(tasks: seq<UsageTask>, unknown: Label): (groups: seq<UserUsage>)
    ensures |groups| == |Sources(tasks, unknown)|
    ensures forall i :: 0 <= i < |groups| ==> groups[i] == Group(tasks, unknown, i)
  {
    seq(|Sources(tasks, unknown)|, i requires 0 <= i < |Sources(tasks, unknown)| => Group(tasks, unknown, i))
  }

  /** Array.sort by descending CPU, which is stable. */
  function Insert(u: UserUsage, sorted: seq<UserUsage>): seq<UserUsage> {
    if sorted == [] || Last(sorted).cpu >= u.cpu then sorted + [u]
    else Insert(u, Front(sorted)) + [Last(sorted)]
  }

  function SortByCpu(users: seq<UserUsage>): seq<UserUsage> {
    if users == [] then [] else Insert(Last(users), SortByCpu(Front(users)))
  }

  // ---------------------------------------------------------------------
  // The loop
  // ---------------------------------------------------------------------

  lemma SourcesDistinct(tasks: seq<UsageTask>, unknown: Label)
    ensures var s := Sources(tasks, unknown);
      forall i, j :: 0 <= i < j < |s| ==> s[i] != s[j]
  {
  }

  /** A group exists for a source exactly when it has tasks. */
  lemma {:induction false} SourceHasTasks(tasks: seq<UsageTask>, unknown: Label, key: Label)
    ensures key in Sources(tasks, unknown) <==> From(tasks, unknown, key) != []
  {
    if tasks != [] {
      SourceHasTasks(Front(tasks), unknown, key);
      var before := Sources(Front(tasks), unknown);
      assert forall k: Label, l: Label :: k in before + [l] <==> k in before || k == l;
    }
  }

  /** One more task of a source already known. */
  function Bump(e: UserUsage, t: UsageTask): UserUsage {
    e.(cpu := e.cpu + t.cpu, ramMb := e.ramMb + t.ramMb, gpu := e.gpu + t.gpu,
       taskCount := Some(1 + if e.taskCount.Some? then e.taskCount.value else 0))
  }

  lemma OneTask(t: UsageTask)
    ensures TaskCpu([t]) == t.cpu && TaskRam([t]) == t.ramMb && TaskGpu([t]) == t.gpu
  {
    assert Front([t]) == [];
    assert TaskCpu([t]) == TaskCpu([]) + t.cpu;
    assert TaskRam([t]) == TaskRam([]) + t.ramMb;
    assert TaskGpu([t]) == TaskGpu([]) + t.gpu;
  }

  lemma {:induction false} GroupStep(tasks: seq<UsageTask>, unknown: Label, i: nat)
    requires tasks != [] && i < |Sources(tasks, unknown)|
    ensures var before, t, key := Front(tasks), Last(tasks), KeyOf(Last(tasks), unknown);
      Group(tasks, unknown, i)
      == if i < |Sources(before, unknown)|
         then (if Sources(before, unknown)[i] == key then Bump(Group(before, unknown, i), t) else Group(before, unknown, i))
         else UserUsage(key, Palette(i % PALETTE_SIZE), t.cpu, t.ramMb, t.gpu, Some(1))
  {
    hide KeyOf, Sources;
    var before, t, key := Front(tasks), Last(tasks), KeyOf(Last(tasks), unknown);
    assert Sources(tasks, unknown) == if key in Sources(before, unknown) then Sources(before, unknown)
      else Sources(before, unknown) + [key] by { SourcesStep(tasks, unknown); }
    var own := From(before, unknown, Sources(tasks, unknown)[i]);
    assert own + [] == own && Front(own + [t]) == own;
    if i == |Sources(before, unknown)| {
      SourceHasTasks(before, unknown, key);
      assert Sources(tasks, unknown)[i] == key;
      assert own == [];
      assert own + [t] == [t];
      OneTask(t);
    }
  }

  lemma SourcesStep(tasks: seq<UsageTask>, unknown: Label)
    requires tasks != []
    ensures var before, key := Sources(Front(tasks), unknown), KeyOf(Last(tasks), unknown);
      Sources(tasks, unknown) == if key in before then before else before + [key]
  {
  }

  method AggregateByUser(tasks: seq<UsageTask>, unknown: Label) returns (users: seq<UserUsage>)
    ensures users == SortByCpu(Groups(RunningTasks(tasks), unknown))
  {
    hide KeyOf, Sources, Group, SortByCpu, RunningTasks;
    var running := RunningTasks(tasks);
    var entries: map<Label, UserUsage> := map[];
    var order: seq<Label> := [];
    assert Sources([], unknown) == [] by { NoSources(unknown); }
    for k := 0 to |running|
      invariant order == Sources(running[..k], unknown)
      invariant forall i :: 0 <= i < |order| ==> order[i] in entries && entries[order[i]] == Group(running[..k], unknown, i)
      invariant forall key :: key in entries ==> key in order
    {
      var task := running[k];
      var key := KeyOf(task, unknown);
      assert Front(running[..k + 1]) == running[..k] && Last(running[..k + 1]) == task;
      SourcesStep(running[..k + 1], unknown);
      SourcesDistinct(running[..k], unknown);
      if key in entries {
        entries := entries[key := Bump(entries[key], task)];
      } else {
        entries := entries[key := UserUsage(key, Palette(|order| % PALETTE_SIZE), task.cpu, task.ramMb, task.gpu, Some(1))];
        order := order + [key];
      }
      forall i | 0 <= i < |order|
        ensures order[i] in entries && entries[order[i]] == Group(running[..k + 1], unknown, i)
      {
        GroupStep(running[..k + 1], unknown, i);
      }
    }
    assert running[..|running|] == running;
    users := seq(|order|, i requires 0 <= i < |order| && order[i] in entries => entries[order[i]]);
    assert users == Groups(running, unknown);
    users := SortByCpu(users);
  }

  lemma NoSources(unknown: Label)
    ensures Sources([], unknown) == []
  {
  }

  // ---------------------------------------------------------------------
  // Conservation
  // ---------------------------------------------------------------------

  datatype Quantity = CpuShare | Memory | GpuShare | TaskCount

  function Amount(u: UserUsage, q: Quantity): real {
    match q
    case CpuShare => u.cpu
    case Memory => u.ramMb as real
    case GpuShare => u.gpu
    case TaskCount => if u.taskCount.Some? then u.taskCount.value as real else 0.0
  }

  function Load(t: UsageTask, q: Quantity): real {
    match q
    case CpuShare => t.cpu
    case Memory => t.ramMb as real
    case GpuShare => t.gpu
    case TaskCount => 1.0
  }

  function Total(users: seq<UserUsage>, q: Quantity): real {
    if users == [] then 0.0 else Total(Front(users), q) + Amount(Last(users), q)
  }

  function TotalLoad(tasks: seq<UsageTask>, q: Quantity): real {
    if tasks == [] then 0.0 else TotalLoad(Front(tasks), q) + Load(Last(tasks), q)
  }

  lemma {:induction false} InsertIs(u: UserUsage, s: seq<UserUsage>)
    ensures multiset(Insert(u, s)) == multiset(s) + multiset{u}
    ensures forall q :: Total(Insert(u, s), q) == Total(s, q) + Amount(u, q)
    decreases |s|
  {
    hide Amount;
    if s == [] || Last(s).cpu >= u.cpu {
      assert Front(s + [u]) == s;
    } else {
      InsertIs(u, Front(s));
      assert Front(Insert(u, Front(s)) + [Last(s)]) == Insert(u, Front(s));
      assert s == Front(s) + [Last(s)];
    }
  }

  /** Descending CPU. */
  predicate Sorted(s: seq<UserUsage>) {
    forall i, j :: 0 <= i < j < |s| ==> s[i].cpu >= s[j].cpu
  }

  lemma {:induction false} InsertSorts(u: UserUsage, s: seq<UserUsage>)
    requires Sorted(s)
    ensures Sorted(Insert(u, s))
    decreases |s|
  {
    if s != [] && Last(s).cpu < u.cpu {
      InsertSorts(u, Front(s));
      InsertIs(u, Front(s));
      var head := Insert(u, Front(s));
      forall i | 0 <= i < |head|
        ensures head[i].cpu >= Last(s).cpu
      {
        assert head[i] in multiset(head);
        assert head[i] == u || head[i] in Front(s);
      }
    }
  }

  lemma {:induction false} SortIs(users: seq<UserUsage>)
    ensures Sorted(SortByCpu(users)) && multiset(SortByCpu(users)) == multiset(users)
    ensures forall q :: Total(SortByCpu(users), q) == Total(users, q)
    decreases |users|
  {
    hide Insert, Amount;
    if users != [] {
      SortIs(Front(users));
      InsertSorts(Last(users), SortByCpu(Front(users)));
      InsertIs(Last(users), SortByCpu(Front(users)));
      assert users == Front(users) + [Last(users)];
    }
  }

  /** The users with this share of the CPU, in order. */
  function WithCpu(users: seq<UserUsage>, cpu: real): seq<UserUsage> {
    if users == [] then []
    else WithCpu(Front(users), cpu) + if Last(users).cpu == cpu then [Last(users)] else []
  }

  lemma {:induction false} InsertIsStable(u: UserUsage, s: seq<UserUsage>, cpu: real)
    requires Sorted(s)
    ensures WithCpu(Insert(u, s), cpu) == WithCpu(s, cpu) + if u.cpu == cpu then [u] else []
    decreases |s|
  {
    if s == [] || Last(s).cpu >= u.cpu {
      assert Front(s + [u]) == s;
    } else {
      InsertIsStable(u, Front(s), cpu);
      assert Front(Insert(u, Front(s)) + [Last(s)]) == Insert(u, Front(s));
      if u.cpu == cpu {
        assert WithCpu(s, cpu) == WithCpu(Front(s), cpu);
      }
    }
  }

  /** Users with equal shares stay in order of first appearance. */
  lemma {:induction false} SortIsStable(users: seq<UserUsage>, cpu: real)
    ensures WithCpu(SortByCpu(users), cpu) == WithCpu(users, cpu)
    decreases |users|
  {
    hide Insert;
    if users != [] {
      SortIsStable(Front(users), cpu);
      SortIs(Front(users));
      InsertIsStable(Last(users), SortByCpu(Front(users)), cpu);
    }
  }

  /** Total of the first n groups. */
  function GroupTotal(tasks: seq<UsageTask>, unknown: Label, n: nat, q: Quantity): real
    requires n <= |Sources(tasks, unknown)|
  {
    if n == 0 then 0.0 else GroupTotal(tasks, unknown, n - 1, q) + Amount(Group(tasks, unknown, n - 1), q)
  }

  lemma {:induction false} TotalOfGroups(tasks: seq<UsageTask>, unknown: Label, n: nat, q: Quantity)
    requires n <= |Sources(tasks, unknown)|
    ensures Total(Groups(tasks, unknown)[..n], q) == GroupTotal(tasks, unknown, n, q)
  {
    hide Group, Sources, Amount;
    if n > 0 {
      TotalOfGroups(tasks, unknown, n - 1, q);
      assert Front(Groups(tasks, unknown)[..n]) == Groups(tasks, unknown)[..n - 1];
    }
  }

  lemma BumpAdds(u: UserUsage, t: UsageTask, q: Quantity)
    ensures Amount(Bump(u, t), q) == Amount(u, q) + Load(t, q)
  {
  }

  /** Adding a task adds its load to exactly one group. */
  lemma {:induction false} GroupTotalStep(tasks: seq<UsageTask>, unknown: Label, n: nat, q: Quantity)
    requires tasks != [] && n <= |Sources(Front(tasks), unknown)|
    ensures n <= |Sources(tasks, unknown)|
    ensures GroupTotal(tasks, unknown, n, q) == GroupTotal(Front(tasks), unknown, n, q)
      + if KeyOf(Last(tasks), unknown) in Sources(Front(tasks), unknown)[..n] then Load(Last(tasks), q) else 0.0
    decreases n
  {
    hide KeyOf, Sources, Group, Amount, Load, Bump;
    SourcesStep(tasks, unknown);
    if n > 0 {
      var before := Sources(Front(tasks), unknown);
      GroupTotalStep(tasks, unknown, n - 1, q);
      GroupStep(tasks, unknown, n - 1);
      BumpAdds(Group(Front(tasks), unknown, n - 1), Last(tasks), q);
      SourcesDistinct(Front(tasks), unknown);
      assert before[..n] == before[..n - 1] + [before[n - 1]];
    }
  }

  lemma {:induction false} GroupsKeepTotal(tasks: seq<UsageTask>, unknown: Label, q: Quantity)
    ensures GroupTotal(tasks, unknown, |Sources(tasks, unknown)|, q) == TotalLoad(tasks, q)
    decreases |tasks|
  {
    hide KeyOf, Sources, Group;
    if tasks == [] {
      NoSources(unknown);
    } else {
      var before := Sources(Front(tasks), unknown);
      GroupsKeepTotal(Front(tasks), unknown, q);
      GroupTotalStep(tasks, unknown, |before|, q);
      assert before[..|before|] == before;
      SourcesStep(tasks, unknown);
      if KeyOf(Last(tasks), unknown) !in before {
        GroupStep(tasks, unknown, |before|);
      }
    }
  }

  /** The CPU, memory, GPU and number of tasks shown for all users are those of all
      running tasks. */
  lemma UsersHoldAll(tasks: seq<UsageTask>, unknown: Label, q: Quantity)
    ensures Total(SortByCpu(Groups(RunningTasks(tasks), unknown)), q) == TotalLoad(RunningTasks(tasks), q)
  {
    hide KeyOf, Sources, Group, SortByCpu, RunningTasks, Amount, Load;
    var running := RunningTasks(tasks);
    var groups := Groups(running, unknown);
    SortIs(groups);
    assert groups[..|groups|] == groups;
    TotalOfGroups(running, unknown, |groups|, q);
    GroupsKeepTotal(running, unknown, q);
  }

  function Ram(users: seq<UserUsage>): nat {
    if users == [] then 0 else Ram(Front(users)) + Last(users).ramMb
  }

  function Cpu(users: seq<UserUsage>): real {
    if users == [] then 0.0 else Cpu(Front(users)) + Last(users).cpu
  }

  function Gpu(users: seq<UserUsage>): real {
    if users == [] then 0.0 else Gpu(Front(users)) + Last(users).gpu
  }

  lemma {:induction false} TotalsAre(users: seq<UserUsage>)
    ensures Total(users, CpuShare) == Cpu(users) && Total(users, GpuShare) == Gpu(users)
    ensures Total(users, Memory) == Ram(users) as real
    decreases |users|
  {
    if users != [] {
      TotalsAre(Front(users));
    }
  }

  lemma {:induction false} LoadsAre(tasks: seq<UsageTask>)
    ensures TotalLoad(tasks, CpuShare) == TaskCpu(tasks) && TotalLoad(tasks, GpuShare) == TaskGpu(tasks)
    ensures TotalLoad(tasks, Memory) == TaskRam(tasks) as real
    ensures TotalLoad(tasks, TaskCount) == |tasks| as real
    decreases |tasks|
  {
    if tasks != [] {
      LoadsAre(Front(tasks));
    }
  }

  /** The memory shown for all users is the memory of all running tasks. */
  lemma UsersHoldAllRam(tasks: seq<UsageTask>, unknown: Label)
    ensures Ram(SortByCpu(Groups(RunningTasks(tasks), unknown))) == TaskRam(RunningTasks(tasks))
  {
    hide SortByCpu, RunningTasks, Groups;
    UsersHoldAll(tasks, unknown, Memory);
    TotalsAre(SortByCpu(Groups(RunningTasks(tasks), unknown)));
    LoadsAre(RunningTasks(tasks));
  }

  // ---------------------------------------------------------------------
  // Who the users are
  // ---------------------------------------------------------------------

  /** The task counts for this name: its machine, or else its user, or else the fixed
      label. */
  predicate CountsFor(t: UsageTask, unknown: Label, name: Label) {
    || (t.sourceMachine != Label("") && name == t.sourceMachine)
    || (t.sourceMachine == Label("") && t.sourceUser != Label("") && name == t.sourceUser)
    || (t.sourceMachine == Label("") && t.sourceUser == Label("") && name == unknown)
  }

  lemma KeyIs(t: UsageTask, unknown: Label, name: Label)
    ensures KeyOf(t, unknown) == name <==> CountsFor(t, unknown, name)
  {
  }

  lemma {:induction false} FromIs(tasks: seq<UsageTask>, unknown: Label, name: Label)
    ensures forall t :: t in From(tasks, unknown, name) <==> t in tasks && CountsFor(t, unknown, name)
    decreases |tasks|
  {
    hide KeyOf, CountsFor;
    if tasks != [] {
      FromIs(Front(tasks), unknown, name);
      KeyIs(Last(tasks), unknown, name);
      assert tasks == Front(tasks) + [Last(tasks)];
    }
  }

  lemma {:induction false} RunningIs(tasks: seq<UsageTask>)
    ensures forall t :: t in RunningTasks(tasks) <==> t in tasks && t.status == Running
    decreases |tasks|
  {
    if tasks != [] {
      RunningIs(Front(tasks));
      assert tasks == Front(tasks) + [Last(tasks)];
    }
  }

  /** The users are distinct, there is one for each source that has a running task
      and no other, and they come in descending order of CPU. */
  lemma UsersAreTheSources(tasks: seq<UsageTask>, unknown: Label)
    ensures var users := SortByCpu(Groups(RunningTasks(tasks), unknown));
      && Sorted(users)
      && (forall i, j :: 0 <= i < j < |users| ==> users[i].name != users[j].name)
      && (forall name :: HasName(users, name) <==> exists t :: t in tasks && t.status == Running && CountsFor(t, unknown, name))
  {
    hide KeyOf, Sources, Group, SortByCpu, RunningTasks, Sorted, CountsFor, From;
    var running := RunningTasks(tasks);
    var groups := Groups(running, unknown);
    var users := SortByCpu(groups);
    SortIs(groups);
    GroupsAreTheSources(running, unknown);
    NamesStayDistinct(groups, users);
    forall name
      ensures HasName(users, name) <==> exists t :: t in tasks && t.status == Running && CountsFor(t, unknown, name)
    {
      SameNames(groups, users, name);
      FromIs(running, unknown, name);
      RunningIs(tasks);
      var own := From(running, unknown, name);
      assert own != [] ==> own[0] in own;
    }
  }

  /** Every user is shown with the sums over the tasks that count for it, their number,
      and the color of its place in the order of first appearance. */
  lemma UserShowsItsTasks(tasks: seq<UsageTask>, unknown: Label, u: UserUsage)
    requires u in SortByCpu(Groups(RunningTasks(tasks), unknown))
    ensures var running, own := RunningTasks(tasks), From(RunningTasks(tasks), unknown, u.name);
      && u.cpu == TaskCpu(own) && u.ramMb == TaskRam(own) && u.gpu == TaskGpu(own) && u.taskCount == Some(|own|)
      && exists i :: 0 <= i < |Sources(running, unknown)| && Sources(running, unknown)[i] == u.name && u.color == Palette(i % 8)
  {
    hide KeyOf, Sources, SortByCpu, RunningTasks, From, TaskCpu, TaskRam, TaskGpu;
    var groups := Groups(RunningTasks(tasks), unknown);
    SortIs(groups);
    assert u in multiset(SortByCpu(groups));
    assert u in multiset(groups);
    assert u in groups;
    var i :| 0 <= i < |groups| && groups[i] == u;
    assert groups[i] == Group(RunningTasks(tasks), unknown, i);
  }

  predicate HasName(users: seq<UserUsage>, name: Label) {
    exists i :: 0 <= i < |users| && users[i].name == name
  }

  lemma GroupsAreTheSources(tasks: seq<UsageTask>, unknown: Label)
    ensures var groups := Groups(tasks, unknown);
      && (forall i, j :: 0 <= i < j < |groups| ==> groups[i].name != groups[j].name)
      && (forall name :: HasName(groups, name) <==> From(tasks, unknown, name) != [])
  {
    hide KeyOf, Sources, From;
    var groups := Groups(tasks, unknown);
    assert forall i :: 0 <= i < |groups| ==> groups[i].name == Sources(tasks, unknown)[i];
    SourcesDistinct(tasks, unknown);
    forall name
      ensures HasName(groups, name) <==> From(tasks, unknown, name) != []
    {
      SourceHasTasks(tasks, unknown, name);
    }
  }

  lemma SameNames(a: seq<UserUsage>, b: seq<UserUsage>, name: Label)
    requires multiset(a) == multiset(b)
    ensures HasName(a, name) <==> HasName(b, name)
  {
    forall i | 0 <= i < |a|
      ensures a[i] in b
    {
      assert a[i] in multiset(a);
    }
    forall i | 0 <= i < |b|
      ensures b[i] in a
    {
      assert b[i] in multiset(b);
    }
  }

  lemma {:induction false} NamesStayDistinct(a: seq<UserUsage>, b: seq<UserUsage>)
    requires multiset(a) == multiset(b)
    requires forall i, j :: 0 <= i < j < |a| ==> a[i].name != a[j].name
    ensures forall i, j :: 0 <= i < j < |b| ==> b[i].name != b[j].name
  {
    forall i, j | 0 <= i < j < |b|
      ensures b[i].name != b[j].name
    {
      assert b[i] in multiset(b) && b[j] in multiset(b);
      assert b[i] in a && b[j] in a;
      if b[i] == b[j] {
        TwiceInMultiset(b, i, j);
        OnceInMultiset(a, b[i]);
      }
    }
  }

  lemma TwiceInMultiset(s: seq<UserUsage>, i: nat, j: nat)
    requires i < j < |s| && s[i] == s[j]
    ensures multiset(s)[s[i]] >= 2
  {
    assert s == s[..j] + ([s[j]] + s[j + 1..]);
    assert s[i] in s[..j];
  }

  lemma {:induction false} OnceInMultiset(s: seq<UserUsage>, u: UserUsage)
    requires forall i, j :: 0 <= i < j < |s| ==> s[i].name != s[j].name
    ensures multiset(s)[u] <= 1
    decreases |s|
  {
    if s != [] {
      OnceInMultiset(Front(s), u);
      assert s == Front(s) + [Last(s)];
      if Last(s) == u {
        assert u !in Front(s);
      }
    }
  }

  // ---------------------------------------------------------------------
  // The local user
  // ---------------------------------------------------------------------

  function Max(a: nat, b: nat): nat {
    if a >= b then a else b
  }

  function MaxReal(a: real, b: real): real {
    if a >= b then a else b
  }

  function BuildSelfUsage(totalCpu: real, totalRamMb: nat, totalGpu: real, remote: seq<UserUsage>, self: Label): Option<UserUsage> {
    var cpu := MaxReal(0.0, totalCpu - Cpu(remote));
    var ramMb := if totalRamMb >= Ram(remote) then totalRamMb - Ram(remote) else 0;
    var gpu := MaxReal(0.0, totalGpu - Gpu(remote));
    if cpu < 0.5 && ramMb < 1 && gpu < 0.5 then None
    else Some(UserUsage(self, SelfColor, cpu, ramMb, gpu, None))
  }

  /** The segments of the memory gauge: the local user first, if shown. */
  function Segments(systemCpu: real, systemRamMb: nat, systemGpu: real, users: seq<UserUsage>, self: Label): seq<UserUsage> {
    var own := BuildSelfUsage(MaxReal(systemCpu, Cpu(users)), Max(systemRamMb, Ram(users)), MaxReal(systemGpu, Gpu(users)),
      users, self);
    if own.Some? then [own.value] + users else users
  }

  lemma {:induction false} TotalCons(u: UserUsage, users: seq<UserUsage>, q: Quantity)
    ensures Total([u] + users, q) == Amount(u, q) + Total(users, q)
    decreases |users|
  {
    hide Amount;
    var all := [u] + users;
    if users == [] {
      assert Front(all) == [];
    } else {
      assert Front(all) == [u] + Front(users);
      TotalCons(u, Front(users), q);
    }
  }

  /** What a gauge shows in all, when the system says so much. */
  function Shown(system: real, tasks: real): real {
    if system >= tasks then system else tasks
  }

  /** The segments of the memory gauge add up to the larger of the system's memory
      in use and the memory of the running tasks, in whole megabytes, whether or
      not the local user is shown; the CPU and GPU gauges likewise, up to less than
      half a percent when it is not. The local user comes first, under its own
      label and color; it is left out exactly when all its shares are negligible. */
  lemma SegmentsFillTheGauge(tasks: seq<UsageTask>, unknown: Label, systemCpu: real, systemRamMb: nat, systemGpu: real,
                             self: Label)
    ensures var running, users := RunningTasks(tasks), SortByCpu(Groups(RunningTasks(tasks), unknown));
      var segments := Segments(systemCpu, systemRamMb, systemGpu, users, self);
      var cpu, gpu := Shown(systemCpu, TaskCpu(running)), Shown(systemGpu, TaskGpu(running));
      && Total(segments, Memory) == Shown(systemRamMb as real, TaskRam(running) as real)
      && (if segments == users
          then cpu - 0.5 < Total(segments, CpuShare) <= cpu && gpu - 0.5 < Total(segments, GpuShare) <= gpu
               && systemRamMb <= TaskRam(running)
          else Total(segments, CpuShare) == cpu && Total(segments, GpuShare) == gpu
               && |segments| == |users| + 1 && segments[1..] == users
               && segments[0].name == self && segments[0].color == SelfColor && segments[0].taskCount.None?
               && (segments[0].cpu >= 0.5 || segments[0].ramMb >= 1 || segments[0].gpu >= 0.5))
  {
    hide SortByCpu, RunningTasks, Groups, Sources, TaskCpu, TaskRam, TaskGpu;
    var users := SortByCpu(Groups(RunningTasks(tasks), unknown));
    UsersHoldAll(tasks, unknown, Memory);
    UsersHoldAll(tasks, unknown, CpuShare);
    UsersHoldAll(tasks, unknown, GpuShare);
    TotalsAre(users);
    LoadsAre(RunningTasks(tasks));
    hide Total, TotalLoad, Cpu, Ram, Gpu;
    var own := BuildSelfUsage(MaxReal(systemCpu, Cpu(users)), Max(systemRamMb, Ram(users)), MaxReal(systemGpu, Gpu(users)),
      users, self);
    if own.Some? {
      TotalCons(own.value, users, Memory);
      TotalCons(own.value, users, CpuShare);
      TotalCons(own.value, users, GpuShare);
      assert |[own.value] + users| == |users| + 1;
    }
  }
}
