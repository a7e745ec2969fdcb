/** Collecting the pids below a process with one shared, growing set. */
module Descendants {
  import opened Processes
  import opened DependencyGraph

  /** `b` is reached from `a` by following `n` child links. */
  ghost predicate ReachedIn(g: Graph, a: Pid, b: Pid, n: nat)
    decreases n
  {
    if n == 0 then a == b else exists c :: c in g.Children(a) && ReachedIn(g, c, b, n - 1)
  }

  ghost predicate Reached(g: Graph, a: Pid, b: Pid) {
    exists n: nat :: ReachedIn(g, a, b, n)
  }

  /** Every process named as a child somewhere. */
  ghost function AllChildren(g: Graph): (r: set<Pid>)
    ensures forall p, c :: c in g.Children(p) ==> c in r
  {
    set p, c | p in g.children && c in g.children[p] :: c
  }

  ghost predicate ClosedWithin(g: Graph, xs: set<Pid>, all: set<Pid>) {
    forall x, c :: x in xs && c in g.Children(x) ==> c in all
  }

  lemma ReachedThroughChild(g: Graph, a: Pid, c: Pid, b: Pid)
    requires c in g.Children(a) && Reached(g, c, b)
    ensures Reached(g, a, b)
  {
    var n: nat :| ReachedIn(g, c, b, n);
    assert ReachedIn(g, a, b, n + 1);
  }

  lemma {:induction false} ClosedHoldsReached(g: Graph, xs: set<Pid>, a: Pid, b: Pid, n: nat)
    requires ClosedWithin(g, xs, xs) && a in xs && ReachedIn(g, a, b, n)
    ensures b in xs
    decreases n
  {
    if n > 0 {
      var c :| c in g.Children(a) && ReachedIn(g, c, b, n - 1);
      ClosedHoldsReached(g, xs, c, b, n - 1);
    }
  }

  /** `pids` is the set shared by the whole recursion. Cycles of child links end
      because a process already in it is not entered again. */
  method CollectDescendantPids(g: Graph, pid: Pid, pids0: set<Pid>) returns (pids: set<Pid>)
    ensures pids0 + {pid} <= pids
    ensures forall x :: x in pids && x !in pids0 ==> Reached(g, pid, x)
    ensures ClosedWithin(g, (pids - pids0) + {pid}, pids)
    decreases AllChildren(g) - pids0, if pid in AllChildren(g) - pids0 then 0 else 1
  {
    pids := pids0 + {pid};
    assert Reached(g, pid, pid) by {
      assert ReachedIn(g, pid, pid, 0);
    }
    var kids := g.Children(pid);
    for i := 0 to |kids|
      invariant pids0 + {pid} <= pids
      invariant forall x :: x in pids && x !in pids0 ==> Reached(g, pid, x)
      invariant ClosedWithin(g, pids - pids0 - {pid}, pids)
      invariant forall j :: 0 <= j < i ==> kids[j] in pids
    {
      if kids[i] !in pids {
        ghost var before := pids;
        assert kids[i] in g.Children(pid);
        pids := CollectDescendantPids(g, kids[i], pids);
        forall x | x in pids && x !in before ensures Reached(g, pid, x) {
          ReachedThroughChild(g, pid, kids[i], x);
        }
      }
    }
  }

  /** Starting from nothing, exactly the processes reached from the first one. */
  method DescendantsOf(g: Graph, pid: Pid) returns (pids: set<Pid>)
    ensures forall x :: x in pids <==> Reached(g, pid, x)
  {
    pids := CollectDescendantPids(g, pid, {});
    assert pids - {} + {pid} == pids;
    forall x | Reached(g, pid, x) ensures x in pids {
      var n: nat :| ReachedIn(g, pid, x, n);
      ClosedHoldsReached(g, pids, pid, x, n);
    }
  }
}
