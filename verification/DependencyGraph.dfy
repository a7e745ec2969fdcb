/** The in-memory dependency graph every analysis walks, and how it is built
    from the recorded rows. */
module DependencyGraph {
  import opened Ordering
  import opened Processes
  import opened FileModes

  datatype FileAccess = FileAccess(pid: Pid, file: File, mode: Mode)

  datatype Graph = Graph(
    readers: map<File, set<Pid>>,
    outputs: map<Pid, set<File>>,
    writers: map<File, set<Pid>>,
    procs: ProcMap,
    children: map<Pid, seq<Pid>>)
  {
    function Readers(f: File): set<Pid> { if f in readers then readers[f] else {} }
    function Outputs(p: Pid): set<File> { if p in outputs then outputs[p] else {} }
    function Writers(f: File): set<Pid> { if f in writers then writers[f] else {} }
    function Children(p: Pid): seq<Pid> { if p in children then children[p] else [] }
  }

  /** The child lists hold each process once, under the parent its row names. */
  ghost predicate TreeConsistent(g: Graph) {
    && (forall p :: NoDup(g.Children(p)))
    && (forall p, c :: c in g.Children(p) <==> c in g.procs && g.procs[c].ppid == p)
    && (forall p :: p in g.procs ==> g.procs[p].pid == p)
  }

  // ---- What the recorded rows say ----

  /** Some access of `p` to `f` has one of these modes. */
  ghost predicate Accessed(accs: seq<FileAccess>, p: Pid, f: File, modes: set<Mode>) {
    exists i :: 0 <= i < |accs| && accs[i].pid == p && accs[i].file == f && accs[i].mode in modes
  }

  ghost predicate AccessedAny(accs: seq<FileAccess>, p: Pid, modes: set<Mode>) {
    exists f :: Accessed(accs, p, f, modes)
  }

  ghost const INPUTS: set<Mode> := {Read, ReadWrite, Exec, Stat, Access, ReadLink}
  ghost const OUTPUTS: set<Mode> := {Write, ReadWrite, RenameDst, LinkDst, SymlinkLink, Truncate, MkNod, MkDir}

  ghost predicate Reads(accs: seq<FileAccess>, p: Pid, f: File) {
    Accessed(accs, p, f, INPUTS)
  }

  ghost predicate Writes(accs: seq<FileAccess>, p: Pid, f: File) {
    Accessed(accs, p, f, OUTPUTS)
  }

  ghost predicate ReadsAny(accs: seq<FileAccess>, p: Pid) {
    exists f :: Reads(accs, p, f)
  }

  ghost predicate WritesAny(accs: seq<FileAccess>, p: Pid) {
    exists f :: Writes(accs, p, f)
  }

  ghost function UpTo(procs: ProcMap, q: Pid): set<Pid> {
    set x | x in procs.Keys && x <= q
  }

  lemma UpToShrinks(procs: ProcMap, r: Pid, q: Pid)
    requires q in procs && r < q
    ensures UpTo(procs, r) < UpTo(procs, q)
  {
    assert q in UpTo(procs, q) && q !in UpTo(procs, r);
  }

  /** The outputs a process can hand down by the time its children are visited.
      Parents are visited in ascending order, so outputs travel through a reader
      that wrote nothing only when its own parent has a smaller pid. */
  ghost predicate HandsDown(accs: seq<FileAccess>, procs: ProcMap, q: Pid, f: File)
    decreases UpTo(procs, q)
  {
    if WritesAny(accs, q) then Writes(accs, q, f)
    else if q in procs && ReadsAny(accs, q) && procs[q].ppid < q then
      UpToShrinks(procs, procs[q].ppid, q);
      HandsDown(accs, procs, procs[q].ppid, f)
    else false
  }

  /** The outputs credited to a process: what it wrote, or, for a reader that
      wrote nothing (a shell redirect), what its parent hands down. */
  ghost predicate Credited(accs: seq<FileAccess>, procs: ProcMap, p: Pid, f: File) {
    if WritesAny(accs, p) then Writes(accs, p, f)
    else p in procs && ReadsAny(accs, p) && HandsDown(accs, procs, procs[p].ppid, f)
  }

  // ---- Building the graph ----

  ghost predicate NoEmptyEntries(g: Graph) {
    && (forall f :: f in g.readers ==> g.readers[f] != {})
    && (forall p :: p in g.outputs ==> g.outputs[p] != {})
    && (forall f :: f in g.writers ==> g.writers[f] != {})
  }

  ghost predicate Recorded(g: Graph, accs: seq<FileAccess>) {
    && (forall f, p :: p in g.Readers(f) <==> Reads(accs, p, f))
    && (forall p, f :: f in g.Outputs(p) <==> Writes(accs, p, f))
    && (forall f, p :: p in g.Writers(f) <==> Writes(accs, p, f))
  }

  function AddReader(g: Graph, f: File, p: Pid): Graph {
    g.(readers := g.readers[f := g.Readers(f) + {p}])
  }

  function AddOutput(g: Graph, p: Pid, f: File): Graph {
    g.(outputs := g.outputs[p := g.Outputs(p) + {f}], writers := g.writers[f := g.Writers(f) + {p}])
  }

  lemma ReadsSnoc(accs: seq<FileAccess>, a: FileAccess, p: Pid, f: File)
    ensures Reads(accs + [a], p, f) <==> Reads(accs, p, f) || (p == a.pid && f == a.file && IsInput(a.mode))
  {
    var more := accs + [a];
    if Reads(accs, p, f) {
      var k :| 0 <= k < |accs| && accs[k].pid == p && accs[k].file == f && accs[k].mode in INPUTS;
      assert more[k] == accs[k];
    }
    assert more[|accs|] == a;
  }

  lemma WritesSnoc(accs: seq<FileAccess>, a: FileAccess, p: Pid, f: File)
    ensures Writes(accs + [a], p, f) <==> Writes(accs, p, f) || (p == a.pid && f == a.file && IsOutput(a.mode))
  {
    var more := accs + [a];
    if Writes(accs, p, f) {
      var k :| 0 <= k < |accs| && accs[k].pid == p && accs[k].file == f && accs[k].mode in OUTPUTS;
      assert more[k] == accs[k];
    }
    assert more[|accs|] == a;
  }

  function Record(g: Graph, a: FileAccess): Graph {
    var g1 := if IsInput(a.mode) then AddReader(g, a.file, a.pid) else g;
    if IsOutput(a.mode) then AddOutput(g1, a.pid, a.file) else g1
  }

  lemma RecordInput(g: Graph, accs: seq<FileAccess>, a: FileAccess, p: Pid, f: File)
    requires Recorded(g, accs)
    ensures p in Record(g, a).Readers(f) <==> Reads(accs + [a], p, f)
  {
    ReadsSnoc(accs, a, p, f);
    assert p in g.Readers(f) <==> Reads(accs, p, f);
  }

  lemma RecordOutput(g: Graph, accs: seq<FileAccess>, a: FileAccess, p: Pid, f: File)
    requires Recorded(g, accs)
    ensures f in Record(g, a).Outputs(p) <==> Writes(accs + [a], p, f)
    ensures p in Record(g, a).Writers(f) <==> Writes(accs + [a], p, f)
  {
    WritesSnoc(accs, a, p, f);
    assert f in g.Outputs(p) <==> Writes(accs, p, f);
    assert p in g.Writers(f) <==> Writes(accs, p, f);
  }

  lemma RecordOne(g: Graph, accs: seq<FileAccess>, a: FileAccess)
    requires NoEmptyEntries(g) && Recorded(g, accs)
    ensures NoEmptyEntries(Record(g, a)) && Recorded(Record(g, a), accs + [a])
  {
    hide Reads, Writes, Record;
    forall p, f
      ensures p in Record(g, a).Readers(f) <==> Reads(accs + [a], p, f)
      ensures f in Record(g, a).Outputs(p) <==> Writes(accs + [a], p, f)
      ensures p in Record(g, a).Writers(f) <==> Writes(accs + [a], p, f)
    {
      RecordInput(g, accs, a, p, f);
      RecordOutput(g, accs, a, p, f);
    }
    RecordNoEmpty(g, a);
  }

  lemma RecordNoEmpty(g: Graph, a: FileAccess)
    requires NoEmptyEntries(g)
    ensures NoEmptyEntries(Record(g, a))
  {
    hide IsInput, IsOutput;
    assert NoEmptyEntries(AddReader(g, a.file, a.pid)) by {
      assert a.pid in g.Readers(a.file) + {a.pid};
    }
    var g1 := if IsInput(a.mode) then AddReader(g, a.file, a.pid) else g;
    assert a.pid in g1.Writers(a.file) + {a.pid};
    assert a.file in g1.Outputs(a.pid) + {a.file};
  }

  method RecordAccesses(accs: seq<FileAccess>) returns (g: Graph)
    ensures NoEmptyEntries(g) && Recorded(g, accs) && g.procs == map[] && g.children == map[]
  {
    g := Graph(map[], map[], map[], map[], map[]);
    for i := 0 to |accs|
      invariant NoEmptyEntries(g) && Recorded(g, accs[..i]) && g.procs == map[] && g.children == map[]
    {
      RecordOne(g, accs[..i], accs[i]);
      assert accs[..i] + [accs[i]] == accs[..i + 1];
      g := Record(g, accs[i]);
    }
    assert accs[..|accs|] == accs;
  }

  /** Rows come from a table keyed by pid. */
  ghost predicate KeyedByPid(rows: seq<Process>) {
    forall i, j :: 0 <= i < j < |rows| ==> rows[i].pid != rows[j].pid
  }

  ghost predicate Tabulated(procs: ProcMap, rows: seq<Process>) {
    && (forall i :: 0 <= i < |rows| ==> rows[i].pid in procs && procs[rows[i].pid] == rows[i])
    && (forall p :: p in procs ==> exists i :: 0 <= i < |rows| && rows[i].pid == p)
  }

  function AddProcess(g: Graph, row: Process): Graph {
    g.(procs := g.procs[row.pid := row],
       children := g.children[row.ppid := g.Children(row.ppid) + [row.pid]])
  }

  lemma AddProcessConsistent(g: Graph, row: Process)
    requires TreeConsistent(g) && row.pid !in g.procs
    ensures TreeConsistent(AddProcess(g, row))
  {
    var h := AddProcess(g, row);
    forall p ensures h.Children(p) == if p == row.ppid then g.Children(p) + [row.pid] else g.Children(p) {
    }
    assert row.pid !in g.Children(row.ppid);
  }

  lemma AddProcessTabulated(procs: ProcMap, rows: seq<Process>, row: Process)
    requires Tabulated(procs, rows) && KeyedByPid(rows + [row])
    ensures row.pid !in procs && Tabulated(procs[row.pid := row], rows + [row])
  {
    var more := rows + [row];
    assert more[|rows|] == row && forall i :: 0 <= i < |rows| ==> more[i] == rows[i];
    forall i | 0 <= i < |rows| ensures rows[i].pid != row.pid {
      assert more[i].pid != more[|rows|].pid;
    }
    var after := procs[row.pid := row];
    forall p | p in after ensures exists i :: 0 <= i < |more| && more[i].pid == p {
      if p in procs && p != row.pid {
        var i :| 0 <= i < |rows| && rows[i].pid == p;
        assert more[i] == rows[i];
      }
    }
  }

  method RecordProcesses(g0: Graph, rows: seq<Process>) returns (g: Graph)
    requires KeyedByPid(rows) && g0.procs == map[] && g0.children == map[]
    ensures g == g0.(procs := g.procs, children := g.children)
    ensures Tabulated(g.procs, rows) && TreeConsistent(g)
  {
    g := g0;
    for i := 0 to |rows|
      invariant g == g0.(procs := g.procs, children := g.children)
      invariant Tabulated(g.procs, rows[..i]) && TreeConsistent(g)
    {
      assert KeyedByPid(rows[..i] + [rows[i]]) && rows[..i] + [rows[i]] == rows[..i + 1];
      hide Tabulated, TreeConsistent;
      AddProcessTabulated(g.procs, rows[..i], rows[i]);
      AddProcessConsistent(g, rows[i]);
      g := AddProcess(g, rows[i]);
    }
    assert rows[..|rows|] == rows;
  }

  /** Outputs once the children of the parents in `done` have been visited. */
  ghost predicate CreditedSoFar(g: Graph, accs: seq<FileAccess>, done: set<Pid>) {
    && (forall p, f :: f in g.Outputs(p) <==>
          if WritesAny(accs, p) then Writes(accs, p, f)
          else p in g.procs && ReadsAny(accs, p) && g.procs[p].ppid in done
               && HandsDown(accs, g.procs, g.procs[p].ppid, f))
    && (forall f, p :: p in g.Writers(f) <==> f in g.Outputs(p))
  }

  /** The parent's outputs credited to one more process. */
  function Credit(g: Graph, parent: Pid, child: Pid): Graph
    requires parent in g.outputs
  {
    g.(outputs := g.outputs[child := g.Outputs(child) + g.outputs[parent]],
       writers := map f | f in g.writers.Keys + g.outputs[parent] ::
         if f in g.outputs[parent] then g.Writers(f) + {child} else g.Writers(f))
  }

  /** Mid-way through one parent: the children in `visited` have been treated. */
  ghost predicate CreditedWithin(g: Graph, accs: seq<FileAccess>, done: set<Pid>, parent: Pid, visited: set<Pid>) {
    && (forall p, f :: f in g.Outputs(p) <==>
          if WritesAny(accs, p) then Writes(accs, p, f)
          else p in g.procs && ReadsAny(accs, p) && HandsDown(accs, g.procs, g.procs[p].ppid, f)
               && (g.procs[p].ppid in done || (g.procs[p].ppid == parent && p in visited)))
    && (forall f, p :: p in g.Writers(f) <==> f in g.Outputs(p))
  }

  lemma CreditStep(g: Graph, accs: seq<FileAccess>, done: set<Pid>, parent: Pid, visited: set<Pid>, child: Pid)
    requires CreditedWithin(g, accs, done, parent, visited)
    requires parent !in done && child !in visited && child in g.procs && g.procs[child].ppid == parent
    requires forall f :: f in g.Outputs(parent) <==> HandsDown(accs, g.procs, parent, f)
    requires !WritesAny(accs, child) && ReadsAny(accs, child) && parent in g.outputs
    ensures CreditedWithin(Credit(g, parent, child), accs, done, parent, visited + {child})
  {
    var h := Credit(g, parent, child);
    forall p ensures h.Outputs(p) == if p == child then g.Outputs(child) + g.Outputs(parent) else g.Outputs(p) {
    }
    forall f ensures h.Writers(f) == if f in g.Outputs(parent) then g.Writers(f) + {child} else g.Writers(f) {
    }
    assert forall f :: f !in g.Outputs(child);
  }

  lemma SkipStep(g: Graph, accs: seq<FileAccess>, done: set<Pid>, parent: Pid, visited: set<Pid>, child: Pid)
    requires CreditedWithin(g, accs, done, parent, visited)
    requires child in g.procs && g.procs[child].ppid == parent
    requires WritesAny(accs, child) || !ReadsAny(accs, child)
      || (forall f :: !HandsDown(accs, g.procs, parent, f))
    ensures CreditedWithin(g, accs, done, parent, visited + {child})
  {
  }

  /** `done` is the set of parents below `q` that have children. */
  ghost predicate DoneBelow(g: Graph, done: set<Pid>, q: Pid) {
    forall x :: x in done <==> x in g.children && x < q
  }

  lemma ParentHandsDown(g: Graph, accs: seq<FileAccess>, done: set<Pid>, q: Pid, visited: set<Pid>, f: File)
    requires TreeConsistent(g) && DoneBelow(g, done, q) && CreditedWithin(g, accs, done, q, visited)
    ensures f in g.Outputs(q) <==> HandsDown(accs, g.procs, q, f)
  {
    if q in g.procs {
      assert q in g.Children(g.procs[q].ppid);
    }
  }

  lemma SameTree(g: Graph, h: Graph)
    requires TreeConsistent(g) && h.procs == g.procs && h.children == g.children
    ensures TreeConsistent(h)
  {
    assert forall p :: h.Children(p) == g.Children(p);
  }

  method VisitParent(g0: Graph, ghost accs: seq<FileAccess>, ghost done: set<Pid>, readsAny: set<Pid>, parent: Pid)
    returns (g: Graph)
    requires TreeConsistent(g0) && NoEmptyEntries(g0) && CreditedSoFar(g0, accs, done)
    requires DoneBelow(g0, done, parent)
    requires forall p :: p in readsAny <==> ReadsAny(accs, p)
    ensures g == g0.(outputs := g.outputs, writers := g.writers)
    ensures NoEmptyEntries(g) && CreditedSoFar(g, accs, done + {parent})
  {
    g := g0;
    assert CreditedWithin(g, accs, done, parent, {});
    forall f ensures f in g0.Outputs(parent) <==> HandsDown(accs, g0.procs, parent, f) {
      ParentHandsDown(g0, accs, done, parent, {}, f);
    }
    if parent !in g.outputs {
      return;
    }
    var kids := g.Children(parent);
    ghost var visited := {};
    for i := 0 to |kids|
      invariant g == g0.(outputs := g.outputs, writers := g.writers)
      invariant NoEmptyEntries(g) && CreditedWithin(g, accs, done, parent, visited)
      invariant forall c :: c in visited <==> c in kids[..i]
      invariant parent in g.outputs
    {
      SameTree(g0, g);
      var child := kids[i];
      assert child in kids && kids[..i + 1] == kids[..i] + [child];
      assert child !in kids[..i];
      forall f ensures f in g.Outputs(parent) <==> HandsDown(accs, g.procs, parent, f) {
        ParentHandsDown(g, accs, done, parent, visited, f);
      }
      if child !in g.outputs && child in readsAny {
        CreditStep(g, accs, done, parent, visited, child);
        g := Credit(g, parent, child);
      } else {
        if child in g.outputs {
          var f := Pick(g.outputs[child]);
          assert f in g.Outputs(child);
        }
        SkipStep(g, accs, done, parent, visited, child);
      }
      visited := visited + {child};
    }
    assert kids[..|kids|] == kids;
  }

  method ReadersOfAnything(g: Graph, ghost accs: seq<FileAccess>) returns (readsAny: set<Pid>)
    requires forall f, p :: p in g.Readers(f) <==> Reads(accs, p, f)
    ensures forall p :: p in readsAny <==> ReadsAny(accs, p)
  {
    readsAny := set f, p | f in g.readers && p in g.readers[f] :: p;
    forall p ensures p in readsAny <==> ReadsAny(accs, p) {
      if p in readsAny {
        var f :| f in g.readers && p in g.readers[f];
        assert p in g.Readers(f);
      }
      if ReadsAny(accs, p) {
        var f :| Reads(accs, p, f);
        assert p in g.Readers(f);
      }
    }
  }

  lemma PrefixIsBelow(parents: seq<Pid>, i: nat, x: Pid)
    requires StrictlyAscending(parents) && i < |parents|
    ensures x in parents[..i] <==> x in parents && x < parents[i]
  {
    if x in parents {
      var k :| 0 <= k < |parents| && parents[k] == x;
      if k < i {
        assert parents[..i][k] == x;
      }
    }
  }

  lemma NothingCreditedYet(g: Graph, accs: seq<FileAccess>)
    requires Recorded(g, accs)
    ensures CreditedSoFar(g, accs, {})
  {
    forall p, f | Writes(accs, p, f) ensures WritesAny(accs, p) {
    }
  }

  function ToSet(s: seq<Pid>): (r: set<Pid>)
    ensures forall x :: x in r <==> x in s
  {
    set x | x in s
  }

  method VisitNext(g0: Graph, ghost accs: seq<FileAccess>, readsAny: set<Pid>, parents: seq<Pid>, i: nat)
    returns (g: Graph)
    requires TreeConsistent(g0) && NoEmptyEntries(g0) && Enumerates(parents, g0.children.Keys)
    requires StrictlyAscending(parents) && i < |parents| && CreditedSoFar(g0, accs, ToSet(parents[..i]))
    requires forall p :: p in readsAny <==> ReadsAny(accs, p)
    ensures g == g0.(outputs := g.outputs, writers := g.writers)
    ensures NoEmptyEntries(g) && CreditedSoFar(g, accs, ToSet(parents[..i + 1])) && TreeConsistent(g)
  {
    ghost var done := ToSet(parents[..i]);
    assert DoneBelow(g0, done, parents[i]) by {
      forall x ensures x in done <==> x in g0.children && x < parents[i] {
        PrefixIsBelow(parents, i, x);
      }
    }
    g := VisitParent(g0, accs, done, readsAny, parents[i]);
    assert ToSet(parents[..i + 1]) == done + {parents[i]} by {
      assert parents[..i + 1] == parents[..i] + [parents[i]];
    }
    SameTree(g0, g);
  }

  /** Credits a parent's outputs to children that read files but wrote none. */
  method FixRedirects(g0: Graph, ghost accs: seq<FileAccess>) returns (g: Graph)
    requires TreeConsistent(g0) && NoEmptyEntries(g0) && Recorded(g0, accs)
    ensures g == g0.(outputs := g.outputs, writers := g.writers)
    ensures NoEmptyEntries(g) && CreditedSoFar(g, accs, g0.children.Keys) && TreeConsistent(g)
  {
    g := g0;
    var readsAny := ReadersOfAnything(g, accs);
    NothingCreditedYet(g, accs);
    hide ReadsAny, CreditedSoFar, TreeConsistent, NoEmptyEntries, Recorded;
    var parents := Ascending(g.children.Keys);
    assert ToSet(parents[..0]) == {};
    for i := 0 to |parents|
      invariant g == g0.(outputs := g.outputs, writers := g.writers)
      invariant NoEmptyEntries(g) && CreditedSoFar(g, accs, ToSet(parents[..i])) && TreeConsistent(g)
    {
      g := VisitNext(g, accs, readsAny, parents, i);
    }
    assert parents[..|parents|] == parents;
    assert ToSet(parents) == g0.children.Keys;
  }

  ghost predicate ReadersAre(accs: seq<FileAccess>, g: Graph, inputs: set<Mode>) {
    forall f, p :: p in g.Readers(f) <==> Accessed(accs, p, f, inputs)
  }

  /** A process that wrote something has exactly that as its outputs. One that
      wrote nothing has what its parent has in the end, if it read something and
      the parent got it in time: by writing it itself, or from a parent with a
      smaller pid, which was visited before. */
  ghost predicate OutputsAre(accs: seq<FileAccess>, g: Graph, inputs: set<Mode>, outputs: set<Mode>) {
    forall p, f :: OutputAt(accs, g, p, f, inputs, outputs)
  }

  ghost predicate OutputAt(accs: seq<FileAccess>, g: Graph, p: Pid, f: File, inputs: set<Mode>, outputs: set<Mode>) {
    f in g.Outputs(p) <==>
      if AccessedAny(accs, p, outputs) then Accessed(accs, p, f, outputs)
      else AccessedAny(accs, p, inputs) && p in g.procs && f in g.Outputs(g.procs[p].ppid)
           && InTime(accs, g.procs, g.procs[p].ppid, outputs)
  }

  ghost predicate InTime(accs: seq<FileAccess>, procs: ProcMap, q: Pid, outputs: set<Mode>) {
    AccessedAny(accs, q, outputs) || (q in procs && procs[q].ppid < q)
  }

  lemma AnyByModes(accs: seq<FileAccess>, p: Pid)
    ensures AccessedAny(accs, p, INPUTS) <==> ReadsAny(accs, p)
    ensures AccessedAny(accs, p, OUTPUTS) <==> WritesAny(accs, p)
  {
    hide Accessed;
    if f :| Reads(accs, p, f) {
      assert Accessed(accs, p, f, INPUTS);
    }
    if f :| Accessed(accs, p, f, INPUTS) {
      assert Reads(accs, p, f);
    }
    if f :| Writes(accs, p, f) {
      assert Accessed(accs, p, f, OUTPUTS);
    }
    if f :| Accessed(accs, p, f, OUTPUTS) {
      assert Writes(accs, p, f);
    }
  }

  lemma OutputsByModes(accs: seq<FileAccess>, g: Graph, p: Pid, f: File)
    requires forall q, f :: f in g.Outputs(q) <==> Credited(accs, g.procs, q, f)
    ensures OutputAt(accs, g, p, f, INPUTS, OUTPUTS)
  {
    AnyByModes(accs, p);
    assert f in g.Outputs(p) <==> Credited(accs, g.procs, p, f);
    if p in g.procs {
      var q := g.procs[p].ppid;
      AnyByModes(accs, q);
      ParentInTime(accs, g.procs, p, f);
      assert f in g.Outputs(q) <==> Credited(accs, g.procs, q, f);
    }
    hide Accessed, AccessedAny, ReadsAny, WritesAny, HandsDown;
  }

  /** What the rows say, in terms of the modes. */
  lemma InTermsOfModes(accs: seq<FileAccess>, g: Graph)
    requires forall f, p :: p in g.Readers(f) <==> Reads(accs, p, f)
    requires forall f, p :: f in g.Outputs(p) <==> Credited(accs, g.procs, p, f)
    ensures ReadersAre(accs, g, INPUTS) && OutputsAre(accs, g, INPUTS, OUTPUTS)
  {
    forall p, f
      ensures OutputAt(accs, g, p, f, INPUTS, OUTPUTS)
    {
      OutputsByModes(accs, g, p, f);
    }
  }

  /** What a parent can hand down is what it has in the end, if it got it in time. */
  lemma ParentInTime(accs: seq<FileAccess>, procs: ProcMap, p: Pid, f: File)
    requires p in procs
    ensures var q := procs[p].ppid;
      HandsDown(accs, procs, q, f) <==>
        Credited(accs, procs, q, f) && (WritesAny(accs, q) || (q in procs && procs[q].ppid < q))
  {
    hide Reads, Writes, ReadsAny, WritesAny;
  }

  method BuildDependencyGraph(accs: seq<FileAccess>, rows: seq<Process>) returns (g: Graph)
    requires KeyedByPid(rows)
    ensures TreeConsistent(g) && Tabulated(g.procs, rows) && NoEmptyEntries(g)
    ensures forall f, p :: f in g.Outputs(p) <==> Credited(accs, g.procs, p, f)
    ensures ReadersAre(accs, g, {Read, ReadWrite, Exec, Stat, Access, ReadLink})
    ensures OutputsAre(accs, g, {Read, ReadWrite, Exec, Stat, Access, ReadLink},
                       {Write, ReadWrite, RenameDst, LinkDst, SymlinkLink, Truncate, MkNod, MkDir})
    ensures forall f, p :: p in g.Writers(f) <==> f in g.Outputs(p)
  {
    g := RecordAccesses(accs);
    var g1 := RecordProcesses(g, rows);
    assert Recorded(g1, accs) by {
      assert forall f :: g1.Readers(f) == g.Readers(f) && g1.Writers(f) == g.Writers(f);
      assert forall p :: g1.Outputs(p) == g.Outputs(p);
    }
    g := FixRedirects(g1, accs);
    forall p, f ensures f in g.Outputs(p) <==> Credited(accs, g.procs, p, f) {
      if p in g.procs {
        assert p in g.Children(g.procs[p].ppid);
      }
    }
    assert forall f, p :: p in g.Readers(f) <==> Reads(accs, p, f);
    InTermsOfModes(accs, g);
  }
}
