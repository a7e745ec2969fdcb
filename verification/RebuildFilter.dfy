/** Reducing the stale processes to the rows worth showing. */
module RebuildFilter {
  import opened Ordering
  import opened Processes
  import opened DependencyGraph
  import opened Sorting

  // ---- What is shown ----

  /** `collapses(row)` says that the command name of a row is one whose subtree is folded. */
  datatype Query = Query(g: Graph, affected: set<Pid>, collapses: Process -> bool)

  predicate Collapsed(q: Query, p: Pid) {
    p in q.g.procs && q.collapses(q.g.procs[p])
  }

  /** Stale and folded away under some collapsed process. */
  ghost predicate Hidden(q: Query, p: Pid) {
    p in q.affected && exists c :: Collapsed(q, c) && Below(q.g.procs, c, p)
  }

  predicate Produces(q: Query, p: Pid) {
    p in q.affected && p in q.g.outputs
  }

  ghost predicate HasProducingChild(q: Query, p: Pid) {
    exists c :: Produces(q, c) && c in q.g.procs && q.g.procs[c].ppid == p
  }

  /** A row for a collapsed process stands for itself or for what it hides. */
  ghost predicate Represents(q: Query, c: Pid) {
    Collapsed(q, c) && (c in q.affected || exists d :: Hidden(q, d) && Below(q.g.procs, c, d))
  }

  ghost predicate Shown(q: Query, p: Pid) {
    && !Hidden(q, p)
    && if Collapsed(q, p) then Represents(q, p) else Produces(q, p) && !HasProducingChild(q, p)
  }

  /** What the function needs of its caller: the row of a stale producer without
      a producing child is looked up without a check, and the walks below a
      collapsed process, which keep no visited set, end unless it is on a cycle of
      parent links. */
  ghost predicate WellPosed(q: Query) {
    && TreeConsistent(q.g)
    && (forall c :: Collapsed(q, c) ==> !OnCycle(q.g.procs, c))
    && (forall p :: Produces(q, p) && !HasProducingChild(q, p) ==> p in q.g.procs)
  }

  // ---- Nothing is lost ----

  /** The topmost collapsed process above `p`. */
  lemma {:induction false} TopCollapsed(q: Query, c: Pid, p: Pid) returns (top: Pid)
    requires WellPosed(q) && Collapsed(q, c) && Below(q.g.procs, c, p)
    ensures Collapsed(q, top) && Below(q.g.procs, top, p)
    ensures forall b :: Collapsed(q, b) ==> !Below(q.g.procs, b, top)
    decreases q.g.procs.Keys - Subtree(q.g.procs, c)
  {
    top := c;
    if b :| Collapsed(q, b) && Below(q.g.procs, b, c) {
      HigherIsLarger(q.g.procs, b, c);
      AncestorTrans(q.g.procs, b, c, p);
      assert b in Subtree(q.g.procs, c) <==> Ancestor(q.g.procs, c, b);
      top := TopCollapsed(q, b, p);
    }
  }

  lemma HigherIsLarger(procs: ProcMap, b: Pid, c: Pid)
    requires Below(procs, b, c) && b in procs && !OnCycle(procs, c)
    ensures Subtree(procs, c) <= Subtree(procs, b)
    ensures b in Subtree(procs, b) && b !in Subtree(procs, c)
  {
    AncestorRefl(procs, b);
    forall d | d in Subtree(procs, c) ensures d in Subtree(procs, b) {
      AncestorTrans(procs, b, c, d);
    }
    if Ancestor(procs, c, b) {
      BothWaysIsCycle(procs, c, b);
    }
  }

  /** A hidden process is folded under a shown collapsed ancestor. */
  lemma HiddenIsRepresented(q: Query, p: Pid) returns (top: Pid)
    requires WellPosed(q) && Hidden(q, p)
    ensures Collapsed(q, top) && Below(q.g.procs, top, p) && Shown(q, top)
  {
    var c :| Collapsed(q, c) && Below(q.g.procs, c, p);
    top := TopCollapsed(q, c, p);
  }

  ghost predicate Accounted(q: Query, p: Pid) {
    || (exists d :: Ancestor(q.g.procs, p, d) && Shown(q, d))
    || (exists c :: Collapsed(q, c) && Shown(q, c) && Below(q.g.procs, c, p))
  }

  /** No stale producer is lost: it is shown, or a descendant is, or it is
      listed under a shown collapsed ancestor. */
  lemma {:induction false} NothingLost(q: Query, p: Pid)
    requires WellPosed(q) && Produces(q, p) && p in q.g.procs && !OnCycle(q.g.procs, p)
    ensures Accounted(q, p)
    decreases Subtree(q.g.procs, p)
  {
    AncestorRefl(q.g.procs, p);
    if Hidden(q, p) {
      var top := HiddenIsRepresented(q, p);
    } else if !Shown(q, p) {
      var c :| Produces(q, c) && c in q.g.procs && q.g.procs[c].ppid == p;
      ChildSubtreeSmaller(q.g.procs, p, c);
      ChildAcyclic(q.g.procs, p, c);
      NothingLost(q, c);
      if d :| Ancestor(q.g.procs, c, d) && Shown(q, d) {
        AncestorTrans(q.g.procs, p, c, d);
      } else {
        var top :| Collapsed(q, top) && Shown(q, top) && Below(q.g.procs, top, c);
        AncestorStep(q.g.procs, top, c);
      }
    }
  }

  // ---- The tree walks ----

  /** A breadth-first walk below `top` that keeps no visited set. */
  ghost predicate WalkValid(q: Query, top: Pid, seen: set<Pid>, queue: seq<Pid>) {
    && NoDup(queue) && (forall x :: x in queue ==> x !in seen)
    && (forall x :: x in seen || x in queue ==> x in q.g.procs && Ancestor(q.g.procs, top, x))
    && (forall x :: (x in seen || x in queue) && x != top ==> q.g.procs[x].ppid in seen)
    && (forall x, c :: x in seen && c in q.g.Children(x) ==> c in seen || c in queue)
    && (top in seen || top in queue)
  }

  /** The children of a queued process are new to the walk, because a forest
      gives every process a single way in. */
  lemma ChildrenNew(q: Query, top: Pid, seen: set<Pid>, queue: seq<Pid>, c: Pid)
    requires TreeConsistent(q.g) && !OnCycle(q.g.procs, top) && |queue| > 0 && WalkValid(q, top, seen, queue)
    requires c in q.g.Children(queue[0])
    ensures c in q.g.procs && q.g.procs[c].ppid == queue[0] && Ancestor(q.g.procs, top, c)
    ensures c !in seen && c !in queue && c != top && c != queue[0]
  {
    hide Ancestor, OnCycle;
    var p := queue[0];
    assert c in q.g.procs && q.g.procs[c].ppid == p;
    assert p in queue && p in q.g.procs && Ancestor(q.g.procs, top, p);
    AncestorOfChild(q.g.procs, top, c);
    if c == top {
      ParentAbove(q.g.procs, top);
    }
  }

  lemma ParentAbove(procs: ProcMap, c: Pid)
    requires !OnCycle(procs, c) && c in procs
    ensures !Ancestor(procs, c, procs[c].ppid)
  {
  }

  lemma WalkExtend(q: Query, top: Pid, seen: set<Pid>, p: Pid, rest: seq<Pid>)
    requires WalkValid(q, top, seen, [p] + rest) && NoDup(q.g.Children(p))
    requires forall c :: c in q.g.Children(p) ==>
      && c in q.g.procs && q.g.procs[c].ppid == p && Ancestor(q.g.procs, top, c)
      && c !in seen && c !in rest && c != top && c != p
    ensures WalkValid(q, top, seen + {p}, rest + q.g.Children(p))
    ensures p in q.g.procs.Keys - seen
  {
    hide Ancestor;
    var ch := q.g.Children(p);
    var queue := [p] + rest;
    assert queue[0] == p && queue[1..] == rest;
    assert forall x :: x in queue <==> x == p || x in rest;
    forall x | x in rest ensures x != p && x !in ch {
      var k :| 0 <= k < |rest| && rest[k] == x;
      assert queue[k + 1] == x;
    }
    assert NoDup(rest) by {
      assert forall i :: 0 <= i < |rest| ==> rest[i] == queue[i + 1];
    }
    NoDupJoin(rest, ch);
  }

  lemma WalkStep(q: Query, top: Pid, seen: set<Pid>, queue: seq<Pid>)
    requires TreeConsistent(q.g) && !OnCycle(q.g.procs, top) && |queue| > 0 && WalkValid(q, top, seen, queue)
    ensures WalkValid(q, top, seen + {queue[0]}, queue[1..] + q.g.Children(queue[0]))
    ensures queue[0] in q.g.procs.Keys - seen
    ensures forall c :: c in q.g.Children(queue[0]) ==> c !in seen && c !in queue && c != top
  {
    var p, rest := queue[0], queue[1..];
    assert queue == [p] + rest;
    forall c | c in q.g.Children(p)
      ensures c in q.g.procs && q.g.procs[c].ppid == p && Ancestor(q.g.procs, top, c)
      ensures c !in seen && c !in queue && c !in rest && c != top && c != p
    {
      ChildrenNew(q, top, seen, queue, c);
    }
    assert NoDup(q.g.Children(p));
    hide WalkValid, Ancestor, TreeConsistent, OnCycle;
    WalkExtend(q, top, seen, p, rest);
  }

  lemma {:induction false} WalkReachesAll(q: Query, top: Pid, seen: set<Pid>, d: Pid, n: nat)
    requires TreeConsistent(q.g) && WalkValid(q, top, seen, []) && Up(q.g.procs, d, n, top)
    ensures d in seen
    decreases n
  {
    if n > 0 {
      WalkReachesAll(q, top, seen, q.g.procs[d].ppid, n - 1);
      assert d in q.g.Children(q.g.procs[d].ppid);
    }
  }

  lemma WalkDone(q: Query, top: Pid, seen: set<Pid>)
    requires TreeConsistent(q.g) && WalkValid(q, top, seen, [])
    ensures forall d :: d in seen <==> Ancestor(q.g.procs, top, d)
  {
    forall d | Ancestor(q.g.procs, top, d) ensures d in seen {
      var n: nat :| Up(q.g.procs, d, n, top);
      WalkReachesAll(q, top, seen, d, n);
    }
  }

  function Among(ps: seq<Pid>, xs: set<Pid>): (r: seq<Pid>)
    ensures forall p :: p in r <==> p in ps && p in xs
    ensures |r| <= |ps|
  {
    if ps == [] then []
    else Among(ps[..|ps| - 1], xs) + if ps[|ps| - 1] in xs then [ps[|ps| - 1]] else []
  }

  lemma {:induction false} AmongNoDup(ps: seq<Pid>, xs: set<Pid>)
    requires NoDup(ps)
    ensures NoDup(Among(ps, xs))
  {
    if ps != [] {
      AmongNoDup(ps[..|ps| - 1], xs);
      assert ps[|ps| - 1] !in ps[..|ps| - 1];
    }
  }

  ghost predicate ListsBelow(q: Query, top: Pid, listed: seq<Pid>) {
    NoDup(listed) && forall d :: d in listed <==> d in q.affected && Below(q.g.procs, top, d)
  }

  lemma WalkStarts(q: Query, top: Pid)
    requires TreeConsistent(q.g) && top in q.g.procs
    ensures WalkValid(q, top, {}, [top])
  {
    AncestorRefl(q.g.procs, top);
  }

  /** The affected processes the walk has met so far, each listed once. */
  ghost predicate Met(q: Query, top: Pid, seen: set<Pid>, queue: seq<Pid>, listed: seq<Pid>) {
    && NoDup(listed)
    && forall d :: d in listed <==> d in q.affected && d != top && (d in seen || d in queue)
  }

  lemma MeetChildren(q: Query, top: Pid, seen: set<Pid>, p: Pid, rest: seq<Pid>, listed: seq<Pid>)
    requires Met(q, top, seen, [p] + rest, listed) && NoDup(q.g.Children(p))
    requires forall c :: c in q.g.Children(p) ==> c !in seen && c !in [p] + rest && c != top
    ensures Met(q, top, seen + {p}, rest + q.g.Children(p), listed + Among(q.g.Children(p), q.affected))
  {
    var found := Among(q.g.Children(p), q.affected);
    AmongNoDup(q.g.Children(p), q.affected);
    hide NoDup, Among;
    assert forall d :: d in [p] + rest <==> d == p || d in rest;
    forall x | x in found ensures x !in listed {
      assert x in q.g.Children(p) && x in q.affected;
    }
    NoDupJoin(listed, found);
  }

  method StaleBelow(q: Query, top: Pid) returns (listed: seq<Pid>)
    requires WellPosed(q) && top in q.g.procs && !OnCycle(q.g.procs, top)
    ensures ListsBelow(q, top, listed)
  {
    var queue := [top];
    listed := [];
    ghost var seen: set<Pid> := {};
    WalkStarts(q, top);
    assert Met(q, top, seen, queue, listed);
    while |queue| > 0
      invariant WalkValid(q, top, seen, queue) && Met(q, top, seen, queue, listed)
      decreases q.g.procs.Keys - seen
    {
      var p := queue[0];
      WalkStep(q, top, seen, queue);
      assert NoDup(q.g.Children(p));
      assert queue == [p] + queue[1..];
      hide WalkValid, TreeConsistent, WellPosed, OnCycle, Below, Among, NoDup, Met;
      MeetChildren(q, top, seen, p, queue[1..], listed);
      listed := listed + Among(q.g.Children(p), q.affected);
      queue := queue[1..] + q.g.Children(p);
      seen := seen + {p};
    }
    WalkDone(q, top, seen);
  }

  method HasBelow(q: Query, hidden: set<Pid>, top: Pid) returns (found: bool)
    requires WellPosed(q) && top in q.g.procs && !OnCycle(q.g.procs, top)
    ensures found <==> exists d :: d in hidden && Below(q.g.procs, top, d)
  {
    var queue := [top];
    ghost var seen: set<Pid> := {};
    WalkStarts(q, top);
    while |queue| > 0
      invariant WalkValid(q, top, seen, queue)
      invariant forall d :: d in hidden && (d in seen || d in queue) ==> d == top
      decreases q.g.procs.Keys - seen
    {
      var p := queue[0];
      WalkStep(q, top, seen, queue);
      assert queue == [p] + queue[1..];
      var found := Among(q.g.Children(p), hidden);
      if |found| > 0 {
        assert found[0] in found;
        WalkedBelow(q, top, seen + {p}, queue[1..] + q.g.Children(p), found[0]);
        return true;
      }
      queue := queue[1..] + q.g.Children(p);
      seen := seen + {p};
    }
    WalkDone(q, top, seen);
    return false;
  }

  lemma WalkedBelow(q: Query, top: Pid, seen: set<Pid>, queue: seq<Pid>, d: Pid)
    requires WalkValid(q, top, seen, queue) && d in queue && d != top
    ensures Below(q.g.procs, top, d)
  {
  }

  // ---- The filter ----

  datatype Result = Result(processes: seq<Process>, totalAffected: nat, collapsedChildren: map<Pid, seq<Pid>>)

  /** The hidden set and the folded lists after the collapsed processes in `done`. */
  ghost predicate Folded(q: Query, done: set<Pid>, hidden: set<Pid>, lists: map<Pid, seq<Pid>>) {
    && (forall d :: d in hidden <==> d in q.affected && exists c :: c in done && Below(q.g.procs, c, d))
    && (forall c :: c in lists ==> c in done && |lists[c]| > 0 && ListsBelow(q, c, lists[c]))
    && (forall c, d :: c in done && d in q.affected && Below(q.g.procs, c, d) ==> c in lists)
  }

  function CollapsedSet(q: Query): (r: set<Pid>)
    ensures forall p :: p in r <==> Collapsed(q, p)
  {
    set p | p in q.g.procs && q.collapses(q.g.procs[p])
  }

  lemma FoldOne(q: Query, done: set<Pid>, hidden: set<Pid>, lists: map<Pid, seq<Pid>>, c: Pid, listed: seq<Pid>)
    requires Folded(q, done, hidden, lists) && ListsBelow(q, c, listed)
    ensures Folded(q, done + {c}, hidden + set d | d in listed, if |listed| > 0 then lists[c := listed] else lists)
  {
    hide Below;
    if |listed| > 0 {
      assert listed[0] in listed;
    }
  }

  method Fold(q: Query) returns (hidden: set<Pid>, lists: map<Pid, seq<Pid>>)
    requires WellPosed(q)
    ensures Folded(q, CollapsedSet(q), hidden, lists)
  {
    hidden, lists := {}, map[];
    var cs := Ascending(CollapsedSet(q));
    ghost var done: set<Pid> := {};
    for i := 0 to |cs|
      invariant forall c :: c in done <==> c in cs[..i]
      invariant Folded(q, done, hidden, lists)
    {
      assert cs[i] in cs && cs[..i + 1] == cs[..i] + [cs[i]];
      hide Folded, ListsBelow, TreeConsistent, OnCycle;
      var listed := StaleBelow(q, cs[i]);
      FoldOne(q, done, hidden, lists, cs[i], listed);
      hidden := hidden + set d | d in listed;
      lists := if |listed| > 0 then lists[cs[i] := listed] else lists;
      done := done + {cs[i]};
    }
    assert cs[..|cs|] == cs;
    assert done == CollapsedSet(q) by {
      assert forall c :: c in done <==> c in CollapsedSet(q);
    }
  }

  ghost predicate ParentAmong(q: Query, cs: seq<Pid>, p: Pid) {
    exists c :: c in cs && Produces(q, c) && c in q.g.procs && q.g.procs[c].ppid == p
  }

  method ProducingParents(q: Query) returns (parents: set<Pid>)
    ensures forall p :: p in parents <==> Produces(q, p) && HasProducingChild(q, p)
  {
    parents := {};
    var ps := Ascending(q.affected);
    for i := 0 to |ps|
      invariant forall p :: p in parents <==> (Produces(q, p) && ParentAmong(q, ps[..i], p))
    {
      assert ps[i] in ps && ps[..i + 1] == ps[..i] + [ps[i]];
      if ps[i] in q.g.outputs && ps[i] in q.g.procs {
        var ppid := q.g.procs[ps[i]].ppid;
        if ppid in q.affected && ppid in q.g.outputs {
          parents := parents + {ppid};
        }
      }
    }
    assert ps[..|ps|] == ps;
  }

  method Representatives(q: Query, hidden: set<Pid>) returns (reps: set<Pid>)
    requires WellPosed(q) && forall p :: p in hidden <==> Hidden(q, p)
    ensures forall p :: p in reps <==> Represents(q, p)
  {
    reps := {};
    var cs := Ascending(CollapsedSet(q));
    for i := 0 to |cs|
      invariant forall p :: p in reps <==> p in cs[..i] && Represents(q, p)
    {
      assert cs[i] in cs && cs[..i + 1] == cs[..i] + [cs[i]];
      var found := HasBelow(q, hidden, cs[i]);
      if found || cs[i] in q.affected {
        reps := reps + {cs[i]};
      }
    }
    assert cs[..|cs|] == cs;
  }

  method ShownProducers(q: Query, hidden: set<Pid>, parents: set<Pid>) returns (pids: seq<Pid>)
    requires WellPosed(q) && forall p :: p in hidden <==> Hidden(q, p)
    requires forall p :: p in parents <==> Produces(q, p) && HasProducingChild(q, p)
    ensures NoDup(pids) && forall p :: p in pids <==> Shown(q, p) && !Collapsed(q, p)
  {
    pids := [];
    var ps := Ascending(q.affected);
    for i := 0 to |ps|
      invariant NoDup(pids)
      invariant forall p :: p in pids <==> p in ps[..i] && Shown(q, p) && !Collapsed(q, p)
    {
      var p := ps[i];
      assert p in ps && ps[..i + 1] == ps[..i] + [p];
      assert p !in ps[..i];
      if p !in hidden && !Collapsed(q, p) && p in q.g.outputs && p !in parents {
        pids := pids + [p];
      }
    }
    assert ps[..|ps|] == ps;
  }

  lemma ShownCollapsed(q: Query, p: Pid)
    ensures Shown(q, p) && Collapsed(q, p) <==> Represents(q, p) && !Hidden(q, p)
  {
    hide Hidden, Below;
  }

  method ShownRepresentatives(q: Query, hidden: set<Pid>, reps: set<Pid>) returns (pids: seq<Pid>)
    requires forall p :: p in hidden <==> Hidden(q, p)
    requires forall p :: p in reps <==> Represents(q, p)
    ensures NoDup(pids) && forall p :: p in pids <==> Shown(q, p) && Collapsed(q, p)
  {
    pids := [];
    var cs := Ascending(reps);
    hide Shown, Hidden, Represents, Collapsed, Ascending, Below;
    for i := 0 to |cs|
      invariant NoDup(pids)
      invariant forall p :: p in pids <==> p in cs[..i] && p !in hidden
    {
      assert cs[i] in cs && cs[..i + 1] == cs[..i] + [cs[i]];
      assert cs[i] !in cs[..i];
      if cs[i] !in hidden {
        pids := pids + [cs[i]];
      }
    }
    assert cs[..|cs|] == cs;
    forall p ensures Shown(q, p) && Collapsed(q, p) <==> p in reps && p !in hidden {
      ShownCollapsed(q, p);
    }
  }

  function RowsFor(q: Query, pids: seq<Pid>): (rows: seq<Process>)
    requires forall i :: 0 <= i < |pids| ==> pids[i] in q.g.procs
  {
    seq(|pids|, i requires 0 <= i < |pids| && pids[i] in q.g.procs => q.g.procs[pids[i]])
  }

  ghost predicate HasRow(rows: seq<Process>, p: Pid) {
    exists i :: 0 <= i < |rows| && rows[i].pid == p
  }

  lemma RowsForDistinct(q: Query, pids: seq<Pid>)
    requires TreeConsistent(q.g) && NoDup(pids) && forall i :: 0 <= i < |pids| ==> pids[i] in q.g.procs
    ensures NoDup(RowsFor(q, pids))
    ensures forall r: Process :: r in RowsFor(q, pids) <==> r.pid in pids && r == q.g.procs[r.pid]
  {
    var rows := RowsFor(q, pids);
    forall i | 0 <= i < |pids| ensures rows[i].pid == pids[i] {
      assert pids[i] in pids;
    }
    forall r: Process | r.pid in pids && r == q.g.procs[r.pid] ensures r in rows {
      var i :| 0 <= i < |pids| && pids[i] == r.pid;
      assert rows[i] == r;
    }
  }

  /** The rows, in start order, of exactly the shown processes, each once. */
  ghost predicate Displays(q: Query, rows: seq<Process>) {
    && SortedByStart(rows)
    && (forall i, j :: 0 <= i < j < |rows| ==> rows[i].pid != rows[j].pid)
    && (forall i :: 0 <= i < |rows| ==> rows[i].pid in q.g.procs && rows[i] == q.g.procs[rows[i].pid])
    && (forall p :: HasRow(rows, p) <==> Shown(q, p))
  }

  lemma DisplaysShown(q: Query, pids: seq<Pid>, rows: seq<Process>)
    requires TreeConsistent(q.g) && NoDup(pids)
    requires forall p :: p in pids <==> Shown(q, p)
    requires forall i :: 0 <= i < |pids| ==> pids[i] in q.g.procs
    requires SortedByStart(rows) && multiset(rows) == multiset(RowsFor(q, pids))
    ensures Displays(q, rows)
  {
    hide Shown;
    RowsForDistinct(q, pids);
    PermutedNoDup(RowsFor(q, pids), rows);
    forall i | 0 <= i < |rows| ensures rows[i].pid in pids && rows[i] == q.g.procs[rows[i].pid] {
      assert rows[i] in rows;
    }
    forall p | p in pids ensures HasRow(rows, p) {
      assert q.g.procs[p] in RowsFor(q, pids);
      assert q.g.procs[p] in rows;
    }
  }

  method FilterRebuildSet(q: Query) returns (res: Result)
    requires WellPosed(q)
    ensures res.totalAffected == |q.affected|
    ensures Displays(q, res.processes)
    ensures forall i, j :: 0 <= i < j < |res.processes| ==> res.processes[i].start <= res.processes[j].start
    ensures forall p, c :: HasRow(res.processes, p) && !Collapsed(q, p) ==>
      && p in q.affected && p in q.g.outputs
      && !(c in q.affected && c in q.g.outputs && c in q.g.procs && q.g.procs[c].ppid == p)
      && !(Collapsed(q, c) && Below(q.g.procs, c, p))
    ensures forall p |
        && p in q.affected && p in q.g.outputs && !Collapsed(q, p)
        && (forall c :: c in q.affected && c in q.g.outputs && c in q.g.procs ==> q.g.procs[c].ppid != p)
        && (forall c :: Collapsed(q, c) ==> !Below(q.g.procs, c, p))
      :: HasRow(res.processes, p)
    ensures forall p |
        Collapsed(q, p) && (p in q.affected ==> forall c :: Collapsed(q, c) ==> !Below(q.g.procs, c, p))
      :: HasRow(res.processes, p) <==> p in q.affected || exists d :: d in q.affected && Below(q.g.procs, p, d)
    ensures forall p, c :: Collapsed(q, c) && Below(q.g.procs, c, p) && p in q.affected ==> !HasRow(res.processes, p)
    ensures forall c :: c in res.collapsedChildren <==>
      (Collapsed(q, c) && exists d :: d in q.affected && Below(q.g.procs, c, d))
    ensures forall c :: c in res.collapsedChildren ==> ListsBelow(q, c, res.collapsedChildren[c])
  {
    var hidden, lists := Fold(q);
    FoldedIsHidden(q, hidden, lists);
    var parents := ProducingParents(q);
    var reps := Representatives(q, hidden);
    var producers := ShownProducers(q, hidden, parents);
    var folded := ShownRepresentatives(q, hidden, reps);
    var pids := producers + folded;
    ShownHasRow(q);
    hide Shown, Hidden, Collapsed, Folded, Below;
    assert forall p :: p in producers ==> p !in folded;
    NoDupJoin(producers, folded);
    assert forall p :: p in pids <==> Shown(q, p);
    forall i | 0 <= i < |pids| ensures pids[i] in q.g.procs {
      assert pids[i] in pids && Shown(q, pids[i]);
    }
    var rows := SortByStart(RowsFor(q, pids));
    DisplaysShown(q, pids, rows);
    LeavesHaveRows(q, rows);
    CollapsedHaveRows(q, rows);
    res := Result(rows, |q.affected|, lists);
  }

  /** Among the processes that are not collapsed the rows are the leaves: the
      affected ones with outputs, no affected child with outputs, and nothing
      collapsed above them. */
  lemma LeavesHaveRows(q: Query, rows: seq<Process>)
    requires Displays(q, rows)
    ensures forall p, c :: HasRow(rows, p) && !Collapsed(q, p) ==>
      && p in q.affected && p in q.g.outputs
      && !(c in q.affected && c in q.g.outputs && c in q.g.procs && q.g.procs[c].ppid == p)
      && !(Collapsed(q, c) && Below(q.g.procs, c, p))
    ensures forall p |
        && p in q.affected && p in q.g.outputs && !Collapsed(q, p)
        && (forall c :: c in q.affected && c in q.g.outputs && c in q.g.procs ==> q.g.procs[c].ppid != p)
        && (forall c :: Collapsed(q, c) ==> !Below(q.g.procs, c, p))
      :: HasRow(rows, p)
  {
    hide Collapsed, Below, HasRow;
  }

  /** A collapsed process has a row exactly if it is affected or something below
      it is; an affected process below a collapsed one never has. */
  lemma CollapsedHaveRows(q: Query, rows: seq<Process>)
    requires Displays(q, rows)
    ensures forall p |
        Collapsed(q, p) && (p in q.affected ==> forall c :: Collapsed(q, c) ==> !Below(q.g.procs, c, p))
      :: HasRow(rows, p) <==> p in q.affected || exists d :: d in q.affected && Below(q.g.procs, p, d)
    ensures forall p, c :: Collapsed(q, c) && Below(q.g.procs, c, p) && p in q.affected ==> !HasRow(rows, p)
  {
    hide Collapsed, Below, HasRow;
  }

  lemma ShownHasRow(q: Query)
    requires WellPosed(q)
    ensures forall p :: Shown(q, p) ==> p in q.g.procs
  {
  }

  lemma FoldedIsHidden(q: Query, hidden: set<Pid>, lists: map<Pid, seq<Pid>>)
    requires Folded(q, CollapsedSet(q), hidden, lists)
    ensures forall p :: p in hidden <==> Hidden(q, p)
    ensures forall c :: c in lists <==> (Collapsed(q, c) && exists d :: d in q.affected && Below(q.g.procs, c, d))
    ensures forall c :: c in lists ==> ListsBelow(q, c, lists[c])
  {
    hide Below;
    forall c | c in lists ensures exists d :: d in q.affected && Below(q.g.procs, c, d) {
      var d := lists[c][0];
      assert d in lists[c] && ListsBelow(q, c, lists[c]);
      assert d in q.affected && Below(q.g.procs, c, d);
    }
  }
}
