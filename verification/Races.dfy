/** Race detection: an explicit-stack DFS gives every process an interval, and
    interval containment replaces the ancestor test. */
module Races {
  import opened Ordering
  import opened Processes
  import opened DependencyGraph

  // ---- The depth-first search ----

  datatype Frame = Frame(pid: Pid, entering: bool)

  datatype Search = Search(stack: seq<Frame>, tin: map<Pid, int>, tout: map<Pid, int>, timer: int)

  ghost predicate Open(s: Search, p: Pid) {
    p in s.tin && p !in s.tout
  }

  ghost predicate OpenAt(s: Search, j: int, p: Pid) {
    0 <= j < |s.stack| && s.stack[j] == Frame(p, false)
  }

  ghost predicate Pending(s: Search, p: Pid) {
    Frame(p, true) in s.stack
  }

  /** What the stack holds: each process at most once, waiting frames for
      processes not entered yet, closing frames for exactly the open ones. */
  ghost predicate StackShape(g: Graph, s: Search) {
    && (forall i, j :: 0 <= i < j < |s.stack| ==> s.stack[i].pid != s.stack[j].pid)
    && (forall i :: 0 <= i < |s.stack| ==> Rooted(g.procs, s.stack[i].pid))
    && (forall i :: 0 <= i < |s.stack| ==> s.stack[i].entering == (s.stack[i].pid !in s.tin))
    && (forall i :: 0 <= i < |s.stack| ==> s.stack[i].pid !in s.tout)
    && (forall p :: Open(s, p) ==> Frame(p, false) in s.stack)
  }

  /** Every stacked process lies below all open frames under it, and its parent
      is one of them unless it is a root. */
  ghost predicate StackChain(g: Graph, s: Search) {
    && (forall i, j :: 0 <= j < i < |s.stack| && !s.stack[j].entering ==>
          Ancestor(g.procs, s.stack[j].pid, s.stack[i].pid))
    && (forall i :: 0 <= i < |s.stack| && s.stack[i].pid in g.procs && g.procs[s.stack[i].pid].ppid in g.procs ==>
          exists j :: j < i && OpenAt(s, j, g.procs[s.stack[i].pid].ppid))
  }

  ghost predicate Covered(g: Graph, s: Search) {
    && (forall p :: p in s.tin ==> Rooted(g.procs, p))
    && (forall p :: IsRoot(g.procs, p) ==> p in s.tin || Pending(s, p))
    && (forall p, c :: p in s.tin && c in g.Children(p) ==> c in s.tin || Pending(s, c))
    && (forall c :: c in s.tin && c in g.procs && g.procs[c].ppid in g.procs ==> g.procs[c].ppid in s.tin)
  }

  ghost predicate Stamped(g: Graph, s: Search) {
    && s.tout.Keys <= s.tin.Keys <= g.procs.Keys
    && 0 <= s.timer
    && (forall p :: p in s.tin ==> 0 <= s.tin[p] < s.timer)
    && (forall p :: p in s.tout ==> s.tin[p] < s.tout[p] < s.timer)
    && (forall p, q :: p in s.tin && q in s.tin && p != q ==> s.tin[p] != s.tin[q])
  }

  /** A parent's interval encloses its children's. */
  ghost predicate Encloses(g: Graph, s: Search)
    requires Stamped(g, s)
  {
    forall c :: c in s.tin && g.procs[c].ppid in s.tin ==>
      && s.tin[g.procs[c].ppid] < s.tin[c]
      && (g.procs[c].ppid in s.tout ==> c in s.tout && s.tout[c] < s.tout[g.procs[c].ppid])
  }

  /** A process entered while `p` is open is a descendant of `p`. */
  ghost predicate Nested(g: Graph, s: Search)
    requires Stamped(g, s)
  {
    forall p, q :: p in s.tin && q in s.tin && s.tin[p] <= s.tin[q] && (p in s.tout ==> s.tin[q] < s.tout[p]) ==>
      Ancestor(g.procs, p, q)
  }

  ghost predicate Valid(g: Graph, s: Search) {
    && StackShape(g, s) && StackChain(g, s) && Covered(g, s)
    && Stamped(g, s) && Encloses(g, s) && Nested(g, s)
  }

  function Entering(ps: seq<Pid>): seq<Frame> {
    seq(|ps|, i requires 0 <= i < |ps| => Frame(ps[|ps| - 1 - i], true))
  }

  function Enter(g: Graph, s: Search): Search
    requires |s.stack| > 0
  {
    var p := s.stack[|s.stack| - 1].pid;
    Search(s.stack[..|s.stack| - 1] + [Frame(p, false)] + Entering(g.Children(p)),
           s.tin[p := s.timer], s.tout, s.timer + 1)
  }

  function Leave(s: Search): Search
    requires |s.stack| > 0
  {
    var p := s.stack[|s.stack| - 1].pid;
    Search(s.stack[..|s.stack| - 1], s.tin, s.tout[p := s.timer], s.timer + 1)
  }

  /** The frames pushed for the children of the process being entered. */
  ghost predicate Fresh(g: Graph, s: Search, c: Pid) {
    c !in s.tin && c !in s.tout && Rooted(g.procs, c) && forall f :: f in s.stack ==> f.pid != c
  }

  lemma ChildrenFresh(g: Graph, s: Search, c: Pid)
    requires TreeConsistent(g) && Valid(g, s)
    requires |s.stack| > 0 && s.stack[|s.stack| - 1].entering && c in g.Children(s.stack[|s.stack| - 1].pid)
    ensures Fresh(g, s, c)
  {
    hide Encloses, Nested, Ancestor, Rooted;
    var n := |s.stack| - 1;
    var p := s.stack[n].pid;
    assert Rooted(g.procs, p) && p !in s.tin;
    assert p in g.procs by { var k := Depth(g.procs, p); }
    NotOwnParent(g.procs, p);
    RootedChild(g.procs, c);
    forall f | f in s.stack ensures f.pid != c {
      var i :| 0 <= i < |s.stack| && s.stack[i] == f;
    }
  }

  lemma PushShape(g: Graph, s: Search, front: seq<Frame>, p: Pid, ch: seq<Pid>)
    requires StackShape(g, s) && s.stack == front + [Frame(p, true)]
    requires NoDup(ch) && p !in ch && forall c :: c in ch ==> Fresh(g, s, c)
    ensures StackShape(g, Search(front + [Frame(p, false)] + Entering(ch), s.tin[p := s.timer], s.tout, s.timer + 1))
  {
    hide Rooted, Ancestor;
    var t := Search(front + [Frame(p, false)] + Entering(ch), s.tin[p := s.timer], s.tout, s.timer + 1);
    var n := |front|;
    assert s.stack[n] == Frame(p, true);
    assert forall i :: 0 <= i < n ==> t.stack[i] == s.stack[i] == front[i];
    assert t.stack[n] == Frame(p, false);
    forall i | n < i < |t.stack|
      ensures t.stack[i].entering && t.stack[i].pid in ch && t.stack[i].pid == ch[|ch| - (i - n)]
      ensures Fresh(g, s, t.stack[i].pid)
    {
      assert t.stack[i] == Entering(ch)[i - n - 1];
      assert ch[|ch| - (i - n)] in ch;
    }
    forall i, j | 0 <= i < j < |t.stack| ensures t.stack[i].pid != t.stack[j].pid {
      if i <= n < j {
        assert s.stack[i] in s.stack;
      }
    }
    forall q | Open(t, q) ensures Frame(q, false) in t.stack {
      if q == p {
        assert t.stack[n] == Frame(p, false);
      } else {
        assert Open(s, q);
        var j :| 0 <= j < |s.stack| && s.stack[j] == Frame(q, false);
        assert t.stack[j] == Frame(q, false);
      }
    }
  }

  lemma EnterShape(g: Graph, s: Search)
    requires TreeConsistent(g) && Valid(g, s)
    requires |s.stack| > 0 && s.stack[|s.stack| - 1].entering
    ensures StackShape(g, Enter(g, s))
  {
    var n := |s.stack| - 1;
    var p := s.stack[n].pid;
    forall c | c in g.Children(p) ensures Fresh(g, s, c) {
      ChildrenFresh(g, s, c);
    }
    assert s.stack == s.stack[..n] + [Frame(p, true)];
    assert Rooted(g.procs, p);
    NotOwnParent(g.procs, p);
    PushShape(g, s, s.stack[..n], p, g.Children(p));
  }

  lemma EnterChain(g: Graph, s: Search)
    requires TreeConsistent(g) && StackShape(g, s) && StackChain(g, s)
    requires |s.stack| > 0 && s.stack[|s.stack| - 1].entering
    ensures StackChain(g, Enter(g, s))
  {
    var n := |s.stack| - 1;
    var p := s.stack[n].pid;
    var t := Enter(g, s);
    var ch := g.Children(p);
    assert p in g.procs by { var k := Depth(g.procs, p); }
    assert forall i :: 0 <= i < n ==> t.stack[i] == s.stack[i];
    assert t.stack[n] == Frame(p, false);
    assert forall i :: n < i < |t.stack| ==> t.stack[i].pid == ch[|ch| - (i - n)] && t.stack[i].entering;
    AncestorRefl(g.procs, p);
    forall i, j | 0 <= j < i < |t.stack| && !t.stack[j].entering
      ensures Ancestor(g.procs, t.stack[j].pid, t.stack[i].pid)
    {
      assert j < n ==> Ancestor(g.procs, s.stack[j].pid, s.stack[if i <= n then i else n].pid);
      if i > n {
        assert t.stack[i].pid in ch;
        AncestorOfChild(g.procs, t.stack[j].pid, t.stack[i].pid);
      }
    }
    forall i | 0 <= i < |t.stack| && t.stack[i].pid in g.procs && g.procs[t.stack[i].pid].ppid in g.procs
      ensures exists j :: j < i && OpenAt(t, j, g.procs[t.stack[i].pid].ppid)
    {
      if i > n {
        assert t.stack[i].pid in ch;
        assert OpenAt(t, n, p);
      } else {
        assert t.stack[i].pid == s.stack[i].pid;
        var j :| j < i && OpenAt(s, j, g.procs[s.stack[i].pid].ppid);
        assert OpenAt(t, j, g.procs[t.stack[i].pid].ppid);
      }
    }
  }

  lemma EnterStamps(g: Graph, s: Search)
    requires StackShape(g, s) && StackChain(g, s) && Covered(g, s) && Stamped(g, s) && Encloses(g, s)
    requires |s.stack| > 0 && s.stack[|s.stack| - 1].entering
    ensures var t := Enter(g, s); Stamped(g, t) && Encloses(g, t)
  {
    var n := |s.stack| - 1;
    var p := s.stack[n].pid;
    var t := Enter(g, s);
    assert p !in s.tin && p !in s.tout;
    assert p in g.procs by { var k := Depth(g.procs, p); }
    assert Stamped(g, t);
    if g.procs[p].ppid in t.tin {
      NotOwnParent(g.procs, p);
      var j :| j < n && OpenAt(s, j, g.procs[s.stack[n].pid].ppid);
      assert s.stack[j].entering == (s.stack[j].pid !in s.tin);
    }
  }

  lemma EnterNested(g: Graph, s: Search)
    requires StackShape(g, s) && StackChain(g, s) && Stamped(g, s) && Nested(g, s)
    requires |s.stack| > 0 && s.stack[|s.stack| - 1].entering
    requires Stamped(g, Enter(g, s))
    ensures Nested(g, Enter(g, s))
  {
    var n := |s.stack| - 1;
    var p := s.stack[n].pid;
    var t := Enter(g, s);
    assert p !in s.tin && p !in s.tout;
    forall a | Open(s, a) ensures Ancestor(g.procs, a, p) {
      var j :| 0 <= j < |s.stack| && s.stack[j] == Frame(a, false);
      assert Ancestor(g.procs, s.stack[j].pid, s.stack[n].pid);
    }
    AncestorRefl(g.procs, p);
    forall a, q | a in t.tin && q in t.tin && t.tin[a] <= t.tin[q] && (a in t.tout ==> t.tin[q] < t.tout[a])
      ensures Ancestor(g.procs, a, q)
    {
      if q == p && a != p {
        assert Open(s, a);
      }
    }
  }

  lemma EnterCovered(g: Graph, s: Search)
    requires TreeConsistent(g) && StackShape(g, s) && StackChain(g, s) && Covered(g, s)
    requires |s.stack| > 0 && s.stack[|s.stack| - 1].entering
    ensures Covered(g, Enter(g, s))
  {
    hide Ancestor, Up;
    var n := |s.stack| - 1;
    var p := s.stack[n].pid;
    var t := Enter(g, s);
    var ch := g.Children(p);
    assert p in g.procs by { var k := Depth(g.procs, p); }
    forall q | Pending(s, q) ensures q in t.tin || Pending(t, q) {
      var j :| 0 <= j < |s.stack| && s.stack[j] == Frame(q, true);
      if j < n {
        assert t.stack[j] == Frame(q, true);
      }
    }
    forall c | c in ch ensures Pending(t, c) {
      var k :| 0 <= k < |ch| && ch[k] == c;
      assert Entering(ch)[|ch| - 1 - k] == Frame(c, true);
      assert t.stack[n + 1 + (|ch| - 1 - k)] == Frame(c, true);
    }
    if g.procs[p].ppid in g.procs {
      var j :| j < n && OpenAt(s, j, g.procs[p].ppid);
      assert s.stack[j].pid in s.tin;
    }
  }

  lemma OpenChildAbove(g: Graph, s: Search, c: Pid, n: int)
    requires StackShape(g, s) && StackChain(g, s) && Open(s, c) && c in g.procs
    requires OpenAt(s, n, g.procs[c].ppid) && g.procs[c].ppid in g.procs
    ensures exists i :: n < i < |s.stack| && s.stack[i].pid == c
  {
    var i :| 0 <= i < |s.stack| && s.stack[i] == Frame(c, false);
    var j :| j < i && OpenAt(s, j, g.procs[s.stack[i].pid].ppid);
    assert s.stack[j].pid == s.stack[n].pid;
    assert j == n;
  }

  lemma LeaveStack(g: Graph, s: Search)
    requires StackShape(g, s) && StackChain(g, s)
    requires |s.stack| > 0 && !s.stack[|s.stack| - 1].entering
    ensures StackShape(g, Leave(s)) && StackChain(g, Leave(s))
  {
    var t := Leave(s);
    forall q | Open(t, q) ensures Frame(q, false) in t.stack {
      assert Open(s, q);
      var j :| 0 <= j < |s.stack| && s.stack[j] == Frame(q, false);
      assert t.stack[j] == Frame(q, false);
    }
    forall i | 0 <= i < |t.stack| && t.stack[i].pid in g.procs && g.procs[t.stack[i].pid].ppid in g.procs
      ensures exists j :: j < i && OpenAt(t, j, g.procs[t.stack[i].pid].ppid)
    {
      var j :| j < i && OpenAt(s, j, g.procs[s.stack[i].pid].ppid);
      assert OpenAt(t, j, g.procs[t.stack[i].pid].ppid);
    }
  }

  lemma LeaveStamps(g: Graph, s: Search)
    requires Valid(g, s) && |s.stack| > 0 && !s.stack[|s.stack| - 1].entering
    ensures Stamped(g, Leave(s)) && Encloses(g, Leave(s))
  {
    var n := |s.stack| - 1;
    var p := s.stack[n].pid;
    assert p in s.tin && p !in s.tout;
    // every child of the process being closed is closed already
    forall c | c in s.tin && g.procs[c].ppid == p ensures c in s.tout {
      if c !in s.tout {
        OpenChildAbove(g, s, c, n);
      }
    }
    assert Stamped(g, Leave(s));
  }

  lemma LeaveCovered(g: Graph, s: Search)
    requires Covered(g, s) && |s.stack| > 0 && !s.stack[|s.stack| - 1].entering
    ensures Covered(g, Leave(s))
  {
    var t := Leave(s);
    forall q | Pending(s, q) ensures Pending(t, q) {
      var j :| 0 <= j < |s.stack| && s.stack[j] == Frame(q, true);
      assert t.stack[j] == Frame(q, true);
    }
  }

  lemma LeaveNested(g: Graph, s: Search)
    requires Stamped(g, s) && Nested(g, s) && |s.stack| > 0 && Stamped(g, Leave(s))
    requires s.stack[|s.stack| - 1].pid !in s.tout
    ensures Nested(g, Leave(s))
  {
  }

  lemma {:induction false} AllRootedEntered(g: Graph, s: Search, p: Pid, n: nat)
    requires TreeConsistent(g) && Covered(g, s) && s.stack == [] && RootAt(g.procs, p, n)
    ensures p in s.tin
    decreases n
  {
    if n > 0 {
      var q := g.procs[p].ppid;
      AllRootedEntered(g, s, q, n - 1);
      assert p in g.Children(q);
    }
  }

  lemma {:induction false} AncestorEncloses(g: Graph, s: Search, d: Pid, n: nat, a: Pid)
    requires Stamped(g, s) && Covered(g, s) && Encloses(g, s) && d in s.tin && Up(g.procs, d, n, a)
    ensures a in s.tin && s.tin[a] <= s.tin[d]
    ensures a in s.tout ==> d in s.tout && s.tout[d] <= s.tout[a]
    decreases n
  {
    if n > 0 {
      AncestorInMap(g.procs, a, g.procs[d].ppid, n - 1);
      AncestorEncloses(g, s, g.procs[d].ppid, n - 1, a);
    }
  }

  ghost predicate Contains(tin: map<Pid, int>, tout: map<Pid, int>, a: Pid, d: Pid)
    requires {a, d} <= tin.Keys && {a, d} <= tout.Keys
  {
    tin[a] <= tin[d] && tout[a] >= tout[d]
  }

  lemma AllClosed(g: Graph, s: Search)
    requires StackShape(g, s) && Stamped(g, s) && s.stack == []
    ensures s.tin.Keys == s.tout.Keys
  {
    forall p | p in s.tin ensures p in s.tout {
      if p !in s.tout {
        assert Open(s, p);
      }
    }
  }

  lemma IntervalsDecide(g: Graph, s: Search)
    requires TreeConsistent(g) && Valid(g, s) && s.stack == []
    ensures DecidesAncestry(g.procs, s.tin, s.tout)
  {
    AllClosed(g, s);
    forall p | Rooted(g.procs, p) ensures p in s.tin {
      AllRootedEntered(g, s, p, Depth(g.procs, p));
    }
    forall a, d | a in s.tin && d in s.tin && Ancestor(g.procs, a, d)
      ensures Contains(s.tin, s.tout, a, d)
    {
      var n: nat :| Up(g.procs, d, n, a);
      AncestorEncloses(g, s, d, n, a);
    }
  }

  lemma StartValid(g: Graph, roots: seq<Pid>)
    requires NoDup(roots) && forall p :: p in roots <==> IsRoot(g.procs, p)
    ensures Valid(g, Search(seq(|roots|, i requires 0 <= i < |roots| => Frame(roots[i], true)), map[], map[], 0))
  {
    var s := Search(seq(|roots|, i requires 0 <= i < |roots| => Frame(roots[i], true)), map[], map[], 0);
    forall i | 0 <= i < |roots| ensures Rooted(g.procs, roots[i]) {
      assert roots[i] in roots;
      assert RootAt(g.procs, roots[i], 0);
    }
    forall p | IsRoot(g.procs, p) ensures Pending(s, p) {
      var i :| 0 <= i < |roots| && roots[i] == p;
      assert s.stack[i] == Frame(p, true);
    }
    assert forall i :: 0 <= i < |s.stack| ==> IsRoot(g.procs, roots[i]) by {
      assert forall i :: 0 <= i < |roots| ==> roots[i] in roots;
    }
  }

  lemma EnterValid(g: Graph, s: Search)
    requires TreeConsistent(g) && Valid(g, s) && |s.stack| > 0 && s.stack[|s.stack| - 1].entering
    ensures Valid(g, Enter(g, s))
    ensures s.stack[|s.stack| - 1].pid in g.procs.Keys - s.tin.Keys
  {
    EnterShape(g, s);
    EnterChain(g, s);
    EnterStamps(g, s);
    EnterNested(g, s);
    EnterCovered(g, s);
    assert Rooted(g.procs, s.stack[|s.stack| - 1].pid);
    var k := Depth(g.procs, s.stack[|s.stack| - 1].pid);
  }

  lemma LeaveValid(g: Graph, s: Search)
    requires TreeConsistent(g) && Valid(g, s) && |s.stack| > 0 && !s.stack[|s.stack| - 1].entering
    ensures Valid(g, Leave(s))
  {
    LeaveStack(g, s);
    LeaveStamps(g, s);
    LeaveNested(g, s);
    LeaveCovered(g, s);
  }

  ghost function RootsIn(procs: ProcMap, pids: seq<Pid>): (r: seq<Pid>)
    ensures forall p :: p in r <==> p in pids && IsRoot(procs, p)
  {
    if pids == [] then []
    else
      var p := pids[|pids| - 1];
      RootsIn(procs, pids[..|pids| - 1]) + if IsRoot(procs, p) then [p] else []
  }

  lemma {:induction false} RootsInDistinct(procs: ProcMap, pids: seq<Pid>)
    requires NoDup(pids)
    ensures NoDup(RootsIn(procs, pids))
  {
    if pids != [] {
      RootsInDistinct(procs, pids[..|pids| - 1]);
      assert pids[|pids| - 1] !in pids[..|pids| - 1];
    }
  }

  lemma RootsInSnoc(procs: ProcMap, pids: seq<Pid>, i: nat)
    requires i < |pids|
    ensures RootsIn(procs, pids[..i + 1]) == RootsIn(procs, pids[..i]) + if IsRoot(procs, pids[i]) then [pids[i]] else []
  {
    assert pids[..i + 1][..i] == pids[..i];
  }

  /** The rows in which a list of numbers can be looked up. */
  ghost predicate AllIn(procs: ProcMap, pids: seq<Pid>) {
    forall i :: 0 <= i < |pids| ==> pids[i] in procs
  }

  lemma AscendingRows(procs: ProcMap, pids: seq<Pid>)
    requires Enumerates(pids, procs.Keys)
    ensures AllIn(procs, pids) && NoDup(RootsIn(procs, pids))
    ensures forall p :: p in RootsIn(procs, pids) <==> IsRoot(procs, p)
    ensures RootsIn(procs, pids[..0]) == []
  {
    RootsInDistinct(procs, pids);
    forall i | 0 <= i < |pids| ensures pids[i] in procs {
      assert pids[i] in pids;
    }
  }

  method Roots(procs: ProcMap) returns (roots: seq<Pid>)
    ensures NoDup(roots) && forall p :: p in roots <==> IsRoot(procs, p)
  {
    hide Ascending, Enumerates, StrictlyAscending, NoDup, RootsIn, IsRoot;
    roots := [];
    var pids := Ascending(procs.Keys);
    AscendingRows(procs, pids);
    for i := 0 to |pids|
      invariant roots == RootsIn(procs, pids[..i])
    {
      var p := pids[i];
      RootsInSnoc(procs, pids, i);
      RootOrNot(procs, p);
      if procs[p].ppid !in procs {
        roots := roots + [p];
      }
    }
    assert pids[..|pids|] == pids;
  }

  lemma RootOrNot(procs: ProcMap, p: Pid)
    requires p in procs
    ensures IsRoot(procs, p) <==> procs[p].ppid !in procs
  {
  }

  /** What the stamps are for: every process below a root has an interval, and
      containment of intervals is ancestry. */
  ghost predicate DecidesAncestry(procs: ProcMap, tin: map<Pid, int>, tout: map<Pid, int>) {
    && tin.Keys == tout.Keys
    && (forall p :: p in tin <==> Rooted(procs, p))
    && (forall a, d :: a in tin && d in tin ==> (Contains(tin, tout, a, d) <==> Ancestor(procs, a, d)))
  }

  /** Enter and leave times for every process a root leads to. Cycles of parent
      links are never entered, so the search ends on any table. */
  method AncestorIntervals(g: Graph) returns (tin: map<Pid, int>, tout: map<Pid, int>)
    requires TreeConsistent(g)
    ensures DecidesAncestry(g.procs, tin, tout)
  {
    hide Valid, TreeConsistent;
    var roots := Roots(g.procs);
    var s := Search(seq(|roots|, i requires 0 <= i < |roots| => Frame(roots[i], true)), map[], map[], 0);
    StartValid(g, roots);
    while |s.stack| > 0
      invariant Valid(g, s)
      decreases g.procs.Keys - s.tin.Keys, |s.stack|
    {
      if s.stack[|s.stack| - 1].entering {
        EnterValid(g, s);
        s := Enter(g, s);
      } else {
        LeaveValid(g, s);
        s := Leave(s);
      }
    }
    IntervalsDecide(g, s);
    return s.tin, s.tout;
  }

  // ---- The races reported ----

  datatype Race = Race(file: File, writer: Pid, reader: Pid, overlap: int)

  /** Both processes hang below roots and one is an ancestor of the other. */
  ghost predicate Related(procs: ProcMap, a: Pid, b: Pid) {
    Rooted(procs, a) && Rooted(procs, b) && (Ancestor(procs, a, b) || Ancestor(procs, b, a))
  }

  ghost predicate Racy(g: Graph, w: Pid, r: Pid) {
    && w != r && w in g.procs && r in g.procs
    && SharedInstants(g.procs[w], g.procs[r]) != {} && !Related(g.procs, w, r)
  }

  ghost function ReaderRaces(g: Graph, f: File, w: Pid, rs: seq<Pid>): seq<Race> {
    if rs == [] then []
    else
      var r := rs[|rs| - 1];
      ReaderRaces(g, f, w, rs[..|rs| - 1])
      + if Racy(g, w, r) then [Race(f, w, r, |SharedInstants(g.procs[w], g.procs[r])|)] else []
  }

  ghost function WriterRaces(g: Graph, f: File, ws: seq<Pid>): seq<Race> {
    if ws == [] then []
    else WriterRaces(g, f, ws[..|ws| - 1]) + ReaderRaces(g, f, ws[|ws| - 1], Ascending(g.Readers(f)))
  }

  ghost function FileRaces(g: Graph, fs: seq<File>): seq<Race> {
    if fs == [] then []
    else
      var f := fs[|fs| - 1];
      FileRaces(g, fs[..|fs| - 1]) + WriterRaces(g, f, Ascending(g.Writers(f)))
  }

  lemma {:induction false} InReaderRaces(g: Graph, f: File, w: Pid, rs: seq<Pid>, e: Race)
    ensures e in ReaderRaces(g, f, w, rs) <==>
      e.file == f && e.writer == w && e.reader in rs && Racy(g, w, e.reader)
      && e.overlap == |SharedInstants(g.procs[w], g.procs[e.reader])|
  {
    if rs != [] {
      InReaderRaces(g, f, w, rs[..|rs| - 1], e);
    }
  }

  lemma {:induction false} InWriterRaces(g: Graph, f: File, ws: seq<Pid>, e: Race)
    ensures e in WriterRaces(g, f, ws) <==>
      e.file == f && e.writer in ws && e.reader in g.Readers(f) && Racy(g, e.writer, e.reader)
      && e.overlap == |SharedInstants(g.procs[e.writer], g.procs[e.reader])|
  {
    if ws != [] {
      InWriterRaces(g, f, ws[..|ws| - 1], e);
      InReaderRaces(g, f, ws[|ws| - 1], Ascending(g.Readers(f)), e);
    }
  }

  /** The reported entries are exactly the file, writer, reader triples that
      overlap in time and are not related by ancestry. */
  lemma {:induction false} ReportedExactly(g: Graph, fs: seq<File>, e: Race)
    ensures e in FileRaces(g, fs) <==>
      e.file in fs && e.writer in g.Writers(e.file) && e.reader in g.Readers(e.file)
      && Racy(g, e.writer, e.reader) && e.overlap == |SharedInstants(g.procs[e.writer], g.procs[e.reader])|
  {
    if fs != [] {
      var f := fs[|fs| - 1];
      ReportedExactly(g, fs[..|fs| - 1], e);
      InWriterRaces(g, f, Ascending(g.Writers(f)), e);
    }
  }

  lemma {:induction false} ReaderRacesNoDup(g: Graph, f: File, w: Pid, rs: seq<Pid>)
    requires NoDup(rs)
    ensures NoDup(ReaderRaces(g, f, w, rs))
  {
    if rs != [] {
      var front := rs[..|rs| - 1];
      ReaderRacesNoDup(g, f, w, front);
      forall e | e in ReaderRaces(g, f, w, front) ensures e.reader in front {
        InReaderRaces(g, f, w, front, e);
      }
    }
  }

  lemma {:induction false} WriterRacesNoDup(g: Graph, f: File, ws: seq<Pid>)
    requires NoDup(ws)
    ensures NoDup(WriterRaces(g, f, ws))
  {
    if ws != [] {
      var front, w, rs := ws[..|ws| - 1], ws[|ws| - 1], Ascending(g.Readers(f));
      WriterRacesNoDup(g, f, front);
      ReaderRacesNoDup(g, f, w, rs);
      forall e | e in WriterRaces(g, f, front) ensures e !in ReaderRaces(g, f, w, rs) {
        InWriterRaces(g, f, front, e);
        InReaderRaces(g, f, w, rs, e);
      }
      NoDupJoin(WriterRaces(g, f, front), ReaderRaces(g, f, w, rs));
    }
  }

  lemma {:induction false} NoRaceReportedTwice(g: Graph, fs: seq<File>)
    requires NoDup(fs)
    ensures NoDup(FileRaces(g, fs))
  {
    if fs != [] {
      var front, f := fs[..|fs| - 1], fs[|fs| - 1];
      var ws := Ascending(g.Writers(f));
      NoRaceReportedTwice(g, front);
      WriterRacesNoDup(g, f, ws);
      forall e | e in FileRaces(g, front) ensures e !in WriterRaces(g, f, ws) {
        ReportedExactly(g, front, e);
        InWriterRaces(g, f, ws, e);
      }
      NoDupJoin(FileRaces(g, front), WriterRaces(g, f, ws));
    }
  }

  /** Stopping after fewer files reports a prefix of the full list. */
  lemma {:induction false} CutIsPrefix(g: Graph, fs: seq<File>, k: nat)
    requires k <= |fs|
    ensures FileRaces(g, fs[..k]) <= FileRaces(g, fs)
    decreases |fs|
  {
    if k < |fs| {
      CutIsPrefix(g, fs[..|fs| - 1], k);
      assert fs[..|fs| - 1][..k] == fs[..k];
    } else {
      assert fs[..k] == fs;
    }
  }

  /** On a forest nothing but time and ancestry separates the two sides, and the
      overlap reported is the earlier end minus the later start. */
  lemma ReportedOnForest(g: Graph, fs: seq<File>, e: Race)
    requires Forest(g.procs)
    ensures e in FileRaces(g, fs) <==>
      && e.file in fs && e.writer in g.Writers(e.file) && e.reader in g.Readers(e.file)
      && e.writer in g.procs && e.reader in g.procs && e.writer != e.reader
      && var w, r := g.procs[e.writer], g.procs[e.reader];
      && w.start < w.end && w.start < r.end && r.start < w.end && r.start < r.end
      && e.overlap == (if w.end < r.end then w.end else r.end) - (if w.start > r.start then w.start else r.start)
      && !Ancestor(g.procs, e.writer, e.reader) && !Ancestor(g.procs, e.reader, e.writer)
  {
    ReportedExactly(g, fs, e);
    if e.writer in g.procs && e.reader in g.procs {
      OverlapCounts(g.procs[e.writer], g.procs[e.reader]);
    }
  }

  /** Whether one of two stamped processes contains the other. */
  predicate IntervalsNest(tin: map<Pid, int>, tout: map<Pid, int>, w: Pid, r: Pid) {
    && w in tin && w in tout && r in tin && r in tout
    && ((tin[w] <= tin[r] && tout[w] >= tout[r]) || (tin[r] <= tin[w] && tout[r] >= tout[w]))
  }

  lemma NestingIsRelation(procs: ProcMap, tin: map<Pid, int>, tout: map<Pid, int>, w: Pid, r: Pid)
    requires DecidesAncestry(procs, tin, tout)
    ensures IntervalsNest(tin, tout, w, r) <==> Related(procs, w, r)
  {
    if w in tin && r in tin {
      assert Contains(tin, tout, w, r) <==> Ancestor(procs, w, r);
      assert Contains(tin, tout, r, w) <==> Ancestor(procs, r, w);
    }
  }

  /** One more reader, with the overlap computed and the interval test. */
  lemma NextReader(g: Graph, tin: map<Pid, int>, tout: map<Pid, int>, f: File, w: Pid, rs: seq<Pid>, j: nat)
    requires DecidesAncestry(g.procs, tin, tout) && w in g.procs && j < |rs|
    ensures ReaderRaces(g, f, w, rs[..j + 1]) == ReaderRaces(g, f, w, rs[..j]) +
      if rs[j] != w && rs[j] in g.procs && Overlap(g.procs[w], g.procs[rs[j]]) > 0
         && !IntervalsNest(tin, tout, w, rs[j])
      then [Race(f, w, rs[j], Overlap(g.procs[w], g.procs[rs[j]]))] else []
  {
    assert rs[..j + 1][..j] == rs[..j] && rs[..j + 1][j] == rs[j];
    NestingIsRelation(g.procs, tin, tout, w, rs[j]);
    if rs[j] in g.procs {
      OverlapCounts(g.procs[w], g.procs[rs[j]]);
    }
    hide DecidesAncestry, SharedInstants, Overlap, IntervalsNest, Related;
  }

  method ScanReaders(g: Graph, tin: map<Pid, int>, tout: map<Pid, int>, f: File, w: Pid, found: seq<Race>)
    returns (races: seq<Race>)
    requires DecidesAncestry(g.procs, tin, tout) && w in g.procs
    ensures races == found + ReaderRaces(g, f, w, Ascending(g.Readers(f)))
  {
    races := found;
    var rs := Ascending(g.Readers(f));
    assert found + ReaderRaces(g, f, w, rs[..0]) == found;
    hide DecidesAncestry, ReaderRaces, Overlap, IntervalsNest, Ascending, NoDup, StrictlyAscending, Enumerates;
    for j := 0 to |rs|
      invariant races == found + ReaderRaces(g, f, w, rs[..j])
    {
      var r := rs[j];
      NextReader(g, tin, tout, f, w, rs, j);
      if r != w && r in g.procs {
        var overlap := Overlap(g.procs[w], g.procs[r]);
        if overlap > 0 && !IntervalsNest(tin, tout, w, r) {
          races := races + [Race(f, w, r, overlap)];
        }
      }
    }
    assert rs[..|rs|] == rs;
  }

  method ScanWriters(g: Graph, tin: map<Pid, int>, tout: map<Pid, int>, f: File, found: seq<Race>)
    returns (races: seq<Race>)
    requires DecidesAncestry(g.procs, tin, tout)
    ensures races == found + WriterRaces(g, f, Ascending(g.Writers(f)))
  {
    hide DecidesAncestry, ReaderRaces;
    races := found;
    var ws := Ascending(g.Writers(f));
    for i := 0 to |ws|
      invariant races == found + WriterRaces(g, f, ws[..i])
    {
      if ws[i] in g.procs {
        races := ScanReaders(g, tin, tout, f, ws[i], races);
      } else {
        NoRacesWithout(g, f, ws[i], Ascending(g.Readers(f)));
      }
      assert ws[..i + 1][..i] == ws[..i] && ws[..i + 1][i] == ws[i];
    }
    assert ws[..|ws|] == ws;
  }

  ghost predicate ExpiresAt(expired: nat -> bool, k: nat) {
    expired(k) && forall j :: 0 <= j < k ==> !expired(j)
  }

  /** `fileOrder` is the order the map of readers is walked in; `expired(k)` is
      the outcome of the clock check made before the k-th file. */
  method DetectRaces(g: Graph, fileOrder: seq<File>, expired: nat -> bool)
    returns (complete: bool, races: seq<Race>)
    requires TreeConsistent(g) && Enumerates(fileOrder, g.readers.Keys)
    ensures complete <==> forall k :: 0 <= k < |fileOrder| ==> !expired(k)
    ensures complete ==> races == FileRaces(g, fileOrder)
    ensures complete ==> forall e :: e in races <==>
      && e.file in g.readers && e.writer in g.Writers(e.file) && e.reader in g.Readers(e.file)
      && e.writer in g.procs && e.reader in g.procs && e.writer != e.reader
      && e.overlap == |SharedInstants(g.procs[e.writer], g.procs[e.reader])| > 0
      && !Related(g.procs, e.writer, e.reader)
    ensures forall k :: 0 <= k < |fileOrder| && ExpiresAt(expired, k) ==> races == FileRaces(g, fileOrder[..k])
  {
    var tin, tout := AncestorIntervals(g);
    races := [];
    for k := 0 to |fileOrder|
      invariant forall j :: 0 <= j < k ==> !expired(j)
      invariant races == FileRaces(g, fileOrder[..k])
    {
      if expired(k) {
        return false, races;
      }
      races := ScanWriters(g, tin, tout, fileOrder[k], races);
      assert fileOrder[..k + 1][..k] == fileOrder[..k] && fileOrder[..k + 1][k] == fileOrder[k];
    }
    assert fileOrder[..|fileOrder|] == fileOrder;
    complete := true;
    forall e { ReportedExactly(g, fileOrder, e); }
  }

  lemma {:induction false} NoRacesWithout(g: Graph, f: File, w: Pid, rs: seq<Pid>)
    requires w !in g.procs
    ensures ReaderRaces(g, f, w, rs) == []
  {
    if rs != [] {
      NoRacesWithout(g, f, w, rs[..|rs| - 1]);
    }
  }
}
