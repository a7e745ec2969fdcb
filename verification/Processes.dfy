/** Process rows and the ancestry they describe. */
module Processes {

  type Pid = int
  type File = string

  datatype Process = Process(
    pid: Pid, ppid: Pid, cmdline: string, cwd: string, start: int, end: int, exitCode: int,
    userTime: int, sysTime: int, peakRss: int, ioRead: int, ioWrite: int, fileCount: int, failCount: int)

  type ProcMap = map<Pid, Process>

  // ---- Running side by side ----

  /** How long two processes run side by side; not positive if they do not. */
  function Overlap(a: Process, b: Process): int {
    (if a.end < b.end then a.end else b.end) - (if a.start > b.start then a.start else b.start)
  }

  ghost function Interval(from: int, to: int): (ts: set<int>)
    ensures forall t :: t in ts <==> from <= t < to
    ensures |ts| == (if from < to then to - from else 0)
    decreases if from < to then to - from else 0
  {
    if from < to then {from} + Interval(from + 1, to) else {}
  }

  /** The instants, in microseconds, at which a process runs; the end is not one of them. */
  ghost function Lifetime(p: Process): set<int> {
    Interval(p.start, p.end)
  }

  ghost function SharedInstants(a: Process, b: Process): set<int> {
    Lifetime(a) * Lifetime(b)
  }

  /** The overlap computed is the number of instants shared, once there is one. */
  lemma OverlapCounts(a: Process, b: Process)
    ensures |SharedInstants(a, b)| == (if Overlap(a, b) > 0 then Overlap(a, b) else 0)
  {
    var from := if a.start > b.start then a.start else b.start;
    var to := if a.end < b.end then a.end else b.end;
    assert SharedInstants(a, b) == Interval(from, to);
  }

  lemma SharedBothWays(a: Process, b: Process)
    ensures SharedInstants(a, b) == SharedInstants(b, a)
  {
  }

  // ---- Ancestry: what the parent links mean, cycles included ----

  /** `a` is reached from `d` by following `n` parent links inside the table. */
  ghost predicate Up(procs: ProcMap, d: Pid, n: nat, a: Pid)
    decreases n
  {
    d in procs && if n == 0 then a == d else Up(procs, procs[d].ppid, n - 1, a)
  }

  ghost predicate Ancestor(procs: ProcMap, a: Pid, d: Pid) {
    exists n: nat :: Up(procs, d, n, a)
  }

  predicate IsRoot(procs: ProcMap, p: Pid) {
    p in procs && procs[p].ppid !in procs
  }

  /** Following `n` parent links from `d` ends at a root. */
  ghost predicate RootAt(procs: ProcMap, d: Pid, n: nat)
    decreases n
  {
    d in procs && if n == 0 then IsRoot(procs, d) else RootAt(procs, procs[d].ppid, n - 1)
  }

  ghost predicate Rooted(procs: ProcMap, d: Pid) {
    exists n: nat :: RootAt(procs, d, n)
  }

  ghost predicate Forest(procs: ProcMap) {
    forall p :: p in procs ==> Rooted(procs, p)
  }

  lemma {:induction false} UpTrans(procs: ProcMap, d: Pid, n: nat, b: Pid, m: nat, a: Pid)
    requires Up(procs, d, n, b) && Up(procs, b, m, a)
    ensures Up(procs, d, n + m, a)
    decreases n
  {
    if n > 0 {
      UpTrans(procs, procs[d].ppid, n - 1, b, m, a);
    }
  }

  lemma AncestorRefl(procs: ProcMap, p: Pid)
    requires p in procs
    ensures Ancestor(procs, p, p)
  {
    assert Up(procs, p, 0, p);
  }

  lemma AncestorTrans(procs: ProcMap, a: Pid, b: Pid, d: Pid)
    requires Ancestor(procs, a, b) && Ancestor(procs, b, d)
    ensures Ancestor(procs, a, d)
  {
    var m: nat :| Up(procs, b, m, a);
    var n: nat :| Up(procs, d, n, b);
    UpTrans(procs, d, n, b, m, a);
  }

  lemma AncestorOfChild(procs: ProcMap, a: Pid, d: Pid)
    requires d in procs && Ancestor(procs, a, procs[d].ppid)
    ensures Ancestor(procs, a, d)
  {
    var n: nat :| Up(procs, procs[d].ppid, n, a);
    assert Up(procs, d, n + 1, a);
  }

  /** A proper ancestor of `d` is an ancestor-or-self of `d`'s parent. */
  lemma AncestorStep(procs: ProcMap, a: Pid, d: Pid)
    requires Ancestor(procs, a, d) && a != d
    ensures d in procs && procs[d].ppid in procs && Ancestor(procs, a, procs[d].ppid)
  {
    var n: nat :| Up(procs, d, n, a);
    assert Up(procs, procs[d].ppid, n - 1, a);
  }

  lemma {:induction false} AncestorInMap(procs: ProcMap, a: Pid, d: Pid, n: nat)
    requires Up(procs, d, n, a)
    ensures a in procs && d in procs
    decreases n
  {
    if n > 0 {
      AncestorInMap(procs, a, procs[d].ppid, n - 1);
    }
  }

  lemma {:induction false} DepthUnique(procs: ProcMap, d: Pid, n: nat, m: nat)
    requires RootAt(procs, d, n) && RootAt(procs, d, m)
    ensures n == m
    decreases n
  {
    if n > 0 && m > 0 {
      DepthUnique(procs, procs[d].ppid, n - 1, m - 1);
    }
  }

  ghost function Depth(procs: ProcMap, d: Pid): (n: nat)
    requires Rooted(procs, d)
    ensures RootAt(procs, d, n)
  {
    var n: nat :| RootAt(procs, d, n); n
  }

  /** Each parent link followed lowers the depth by exactly one. */
  lemma {:induction false} DepthAlong(procs: ProcMap, d: Pid, n: nat, a: Pid)
    requires Up(procs, d, n, a) && (Rooted(procs, d) || Rooted(procs, a))
    ensures Rooted(procs, d) && Rooted(procs, a)
    ensures Depth(procs, d) == Depth(procs, a) + n
    decreases n
  {
    if n > 0 {
      var q := procs[d].ppid;
      AncestorInMap(procs, a, q, n - 1);
      if Rooted(procs, d) {
        var k := Depth(procs, d);
        assert RootAt(procs, q, k - 1);
      }
      DepthAlong(procs, q, n - 1, a);
      assert RootAt(procs, d, Depth(procs, q) + 1);
      DepthUnique(procs, d, Depth(procs, d), Depth(procs, q) + 1);
    }
  }

  lemma RootedChild(procs: ProcMap, c: Pid)
    requires c in procs && procs[c].ppid in procs
    ensures Rooted(procs, c) <==> Rooted(procs, procs[c].ppid)
  {
    assert Up(procs, c, 1, procs[c].ppid) by {
      assert Up(procs, procs[c].ppid, 0, procs[c].ppid);
    }
    if Rooted(procs, c) || Rooted(procs, procs[c].ppid) {
      DepthAlong(procs, c, 1, procs[c].ppid);
    }
  }

  lemma NotOwnParent(procs: ProcMap, p: Pid)
    requires Rooted(procs, p)
    ensures p in procs && procs[p].ppid != p
  {
    var k := Depth(procs, p);
    if p in procs && procs[p].ppid == p {
      DepthUnique(procs, p, k, k + 1);
    }
  }

  /** Two ancestors of the same process lie on one chain. */
  lemma {:induction false} AncestorsComparable(procs: ProcMap, a: Pid, n: nat, b: Pid, m: nat, d: Pid)
    requires Up(procs, d, n, a) && Up(procs, d, m, b)
    ensures Ancestor(procs, a, b) || Ancestor(procs, b, a)
  {
    if n == 0 {
      assert Up(procs, a, m, b);
    } else if m == 0 {
      assert Up(procs, b, n, a);
    } else {
      AncestorsComparable(procs, a, n - 1, b, m - 1, procs[d].ppid);
    }
  }

  // ---- Cycles ----

  /** Following parent links from `p` leads back to `p`. */
  ghost predicate OnCycle(procs: ProcMap, p: Pid) {
    p in procs && Ancestor(procs, p, procs[p].ppid)
  }

  lemma RootedIsAcyclic(procs: ProcMap, p: Pid)
    requires Rooted(procs, p)
    ensures !OnCycle(procs, p)
  {
    if OnCycle(procs, p) {
      var n: nat :| Up(procs, procs[p].ppid, n, p);
      assert Up(procs, p, n + 1, p);
      DepthAlong(procs, p, n + 1, p);
    }
  }

  /** Two processes above each other are on a cycle. */
  lemma BothWaysIsCycle(procs: ProcMap, a: Pid, b: Pid)
    requires Ancestor(procs, a, b) && Ancestor(procs, b, a) && a != b
    ensures OnCycle(procs, a)
  {
    AncestorStep(procs, b, a);
    AncestorTrans(procs, a, b, procs[a].ppid);
  }

  /** Below a process that is on no cycle there is none. */
  lemma ChildAcyclic(procs: ProcMap, p: Pid, c: Pid)
    requires !OnCycle(procs, p) && c in procs && procs[c].ppid == p
    ensures !OnCycle(procs, c) && !Ancestor(procs, c, p)
  {
    if Ancestor(procs, c, p) && c != p {
      var n: nat :| Up(procs, p, n, c);
      AncestorRefl(procs, p);
      AncestorOfChild(procs, p, c);
      BothWaysIsCycle(procs, p, c);
    }
  }

  // ---- Subtrees ----

  ghost predicate Below(procs: ProcMap, top: Pid, d: Pid) {
    Ancestor(procs, top, d) && top != d
  }

  ghost function Subtree(procs: ProcMap, p: Pid): set<Pid> {
    set d | d in procs.Keys && Ancestor(procs, p, d)
  }

  lemma ChildSubtreeSmaller(procs: ProcMap, p: Pid, c: Pid)
    requires !OnCycle(procs, p) && p in procs && c in procs && procs[c].ppid == p
    ensures Subtree(procs, c) < Subtree(procs, p)
    ensures Below(procs, p, c)
  {
    AncestorRefl(procs, p);
    AncestorRefl(procs, c);
    AncestorOfChild(procs, p, c);
    ChildAcyclic(procs, p, c);
    forall d | d in Subtree(procs, c) ensures d in Subtree(procs, p) {
      AncestorTrans(procs, p, c, d);
    }
    assert p in Subtree(procs, p) && p !in Subtree(procs, c);
  }
}
