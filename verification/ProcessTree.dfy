/** The process tree of a task, from the parent links of the process table, and
    the memory counted for it. */
module ProcessTree {
  import opened Tasks
  import opened Sums

  type Pid = nat

  /** Every known process and its parent, if it has one. */
  type Table = map<Pid, Option<Pid>>

  /** pid is root, or climbing at most n parent links from it reaches root. */
  predicate Climbs(table: Table, root: Pid, pid: Pid, n: nat)
    decreases n
  {
    pid == root || (n > 0 && HasParent(table, pid) && Climbs(table, root, table[pid].value, n - 1))
  }

  predicate HasParent(table: Table, pid: Pid) {
    pid in table && table[pid].Some?
  }

  ghost predicate Reaches(table: Table, root: Pid, pid: Pid) {
    exists n: nat :: Climbs(table, root, pid, n)
  }

  ghost function Tree(table: Table, root: Pid): set<Pid> {
    set pid | pid in table.Keys + {root} && Reaches(table, root, pid)
  }

  lemma ParentReaches(table: Table, root: Pid, pid: Pid)
    requires HasParent(table, pid) && Reaches(table, root, table[pid].value)
    ensures Reaches(table, root, pid)
  {
    var n: nat :| Climbs(table, root, table[pid].value, n);
    assert Climbs(table, root, pid, n + 1);
  }

  /** A set that contains the root and every child of a member contains every
      process that climbs to the root. */
  lemma {:induction false} ClosedContains(table: Table, root: Pid, tree: set<Pid>, pid: Pid, n: nat)
    requires root in tree
    requires forall p :: HasParent(table, p) && table[p].value in tree ==> p in tree
    requires Climbs(table, root, pid, n)
    ensures pid in tree
    decreases n
  {
    if pid != root {
      ClosedContains(table, root, tree, table[pid].value, n - 1);
    }
  }

  /** Sweep the process table, in any order, until a sweep adds nothing. */
  method CollectDescendants(table: Table, root: Pid) returns (tree: set<Pid>)
    ensures tree == Tree(table, root)
  {
    tree := {root};
    assert Climbs(table, root, root, 0);
    var changed := true;
    while changed
      invariant root in tree && tree <= Tree(table, root)
      invariant !changed ==> forall p :: HasParent(table, p) && table[p].value in tree ==> p in tree
      decreases table.Keys - tree, changed
    {
      changed := false;
      var todo := table.Keys;
      ghost var before := tree;
      while todo != {}
        invariant todo <= table.Keys && root in tree && before <= tree <= Tree(table, root)
        invariant changed ==> table.Keys - tree < table.Keys - before
        invariant !changed ==> tree == before
        invariant !changed ==> forall p :: HasParent(table, p) && p !in todo && table[p].value in tree ==> p in tree
        decreases todo
      {
        var pid :| pid in todo;
        todo := todo - {pid};
        if pid !in tree && table[pid].Some? && table[pid].value in tree {
          ParentReaches(table, root, pid);
          assert pid in table.Keys - before && pid !in table.Keys - (tree + {pid});
          tree := tree + {pid};
          changed := true;
        }
      }
    }
    forall pid | pid in Tree(table, root)
      ensures pid in tree
    {
      var n: nat :| Climbs(table, root, pid, n);
      ClosedContains(table, root, tree, pid, n);
    }
  }

  // ---------------------------------------------------------------------
  // Several tasks
  // ---------------------------------------------------------------------

  lemma {:induction false} CommonMeansNested(table: Table, a: Pid, b: Pid, pid: Pid, n: nat, m: nat)
    requires Climbs(table, a, pid, n) && Climbs(table, b, pid, m)
    ensures Reaches(table, a, b) || Reaches(table, b, a)
    decreases n
  {
    if pid == a {
      assert Climbs(table, b, a, m);
    } else if pid == b {
      assert Climbs(table, a, b, n);
    } else {
      CommonMeansNested(table, a, b, table[pid].value, n - 1, m - 1);
    }
  }

  /** A root with ancestors is in the table, so it is in the tree of any root it
      climbs to. */
  lemma ReachesIsInTree(table: Table, root: Pid, pid: Pid)
    ensures Reaches(table, root, pid) <==> pid in Tree(table, root)
  {
    if Reaches(table, root, pid) && pid != root {
      var n: nat :| Climbs(table, root, pid, n);
    }
  }

  /** Two trees share no process exactly when neither root is in the other's
      tree. */
  lemma TreesDisjointExactly(table: Table, a: Pid, b: Pid)
    ensures Tree(table, a) !! Tree(table, b) <==> a !in Tree(table, b) && b !in Tree(table, a)
  {
    ReachesIsInTree(table, a, b);
    ReachesIsInTree(table, b, a);
    assert Climbs(table, a, a, 0) && Climbs(table, b, b, 0);
    forall pid | pid in Tree(table, a) && pid in Tree(table, b)
      ensures Reaches(table, a, b) || Reaches(table, b, a)
    {
      var n: nat :| Climbs(table, a, pid, n);
      var m: nat :| Climbs(table, b, pid, m);
      CommonMeansNested(table, a, b, pid, n, m);
    }
  }

  /** The sum the monitor computes for one task; a process that is gone counts
      nothing. */
  method MemoryOfTree(rss: map<Pid, nat>, tree: set<Pid>) returns (sum: nat)
    ensures sum == Sum(rss, tree)
  {
    sum := 0;
    var todo := tree;
    while todo != {}
      invariant todo <= tree
      invariant sum + Sum(rss, todo) == Sum(rss, tree)
      decreases todo
    {
      var pid :| pid in todo;
      SumWithout(rss, todo, pid);
      todo := todo - {pid};
      if pid in rss {
        sum := sum + rss[pid];
      }
    }
  }

  ghost function AllTrees(table: Table, roots: seq<Pid>): set<Pid> {
    if roots == [] then {} else Tree(table, roots[0]) + AllTrees(table, roots[1..])
  }

  ghost function SumOfTrees(table: Table, roots: seq<Pid>, rss: map<Pid, nat>): nat {
    if roots == [] then 0 else Sum(rss, Tree(table, roots[0])) + SumOfTrees(table, roots[1..], rss)
  }

  /** No root is in the tree of another. */
  ghost predicate Unrelated(table: Table, roots: seq<Pid>) {
    forall i, j :: 0 <= i < |roots| && 0 <= j < |roots| && i != j ==> roots[i] !in Tree(table, roots[j])
  }

  lemma {:induction false} TreeIsApart(table: Table, a: Pid, roots: seq<Pid>)
    requires forall i :: 0 <= i < |roots| ==> Tree(table, a) !! Tree(table, roots[i])
    ensures Tree(table, a) !! AllTrees(table, roots)
    decreases |roots|
  {
    if roots != [] {
      TreeIsApart(table, a, roots[1..]);
    }
  }

  /** What is counted for all tasks together is what their processes use: nothing
      is counted twice. */
  lemma {:induction false} NothingCountedTwice(table: Table, roots: seq<Pid>, rss: map<Pid, nat>)
    requires Unrelated(table, roots)
    ensures SumOfTrees(table, roots, rss) == Sum(rss, AllTrees(table, roots))
    decreases |roots|
  {
    if roots != [] {
      forall i | 1 <= i < |roots|
        ensures Tree(table, roots[0]) !! Tree(table, roots[i])
      {
        TreesDisjointExactly(table, roots[0], roots[i]);
      }
      TreeIsApart(table, roots[0], roots[1..]);
      SumOfUnion(rss, Tree(table, roots[0]), AllTrees(table, roots[1..]));
      NothingCountedTwice(table, roots[1..], rss);
    }
  }
}
