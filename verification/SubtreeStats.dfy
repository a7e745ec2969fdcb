/** Totals over process subtrees, computed once per process and remembered. */
module SubtreeStats {
  import opened Ordering
  import opened Processes
  import opened DependencyGraph

  datatype Stats = Stats(files: int, fails: int, cpu: int, rss: int, io: int)

  const ZERO := Stats(0, 0, 0, 0, 0)

  /** Counts add up, the resident set size is a maximum. */
  function Plus(a: Stats, b: Stats): Stats {
    Stats(a.files + b.files, a.fails + b.fails, a.cpu + b.cpu, if b.rss > a.rss then b.rss else a.rss, a.io + b.io)
  }

  function Own(procs: ProcMap, p: Pid): Stats {
    if p in procs then
      var r := procs[p];
      Stats(r.fileCount, r.failCount, r.userTime + r.sysTime, r.peakRss, r.ioRead + r.ioWrite)
    else ZERO
  }

  // ---- Totals over a set of processes ----

  /** The total over no process at all has no largest resident set. */
  datatype Total = Nothing | Total(stats: Stats) {
    function Cpu(): int { if Nothing? then 0 else stats.cpu }
  }

  function Join(a: Total, b: Total): Total {
    if a.Nothing? then b else if b.Nothing? then a else Total(Plus(a.stats, b.stats))
  }

  ghost function Sum(procs: ProcMap, ps: set<Pid>): Total {
    if ps == {} then Nothing
    else
      var p := Pick(ps);
      Join(Total(Own(procs, p)), Sum(procs, ps - {p}))
  }

  /** Which process is taken out first does not matter. */
  lemma {:induction false} SumTakes(procs: ProcMap, ps: set<Pid>, p: Pid)
    requires p in ps
    ensures Sum(procs, ps) == Join(Total(Own(procs, p)), Sum(procs, ps - {p}))
    decreases ps
  {
    var q := Pick(ps);
    if q != p {
      var rest := ps - {q} - {p};
      SumTakes(procs, ps - {q}, p);
      SumTakes(procs, ps - {p}, q);
      assert ps - {p} - {q} == rest;
      var a, b := Total(Own(procs, q)), Total(Own(procs, p));
      assert Sum(procs, ps) == Join(a, Join(b, Sum(procs, rest)));
      hide Sum, Own;
      JoinSwap(a, b, Sum(procs, rest));
    }
  }

  lemma JoinSwap(a: Total, b: Total, c: Total)
    ensures Join(a, Join(b, c)) == Join(b, Join(a, c))
  {
  }

  lemma {:induction false} SumOfNone(procs: ProcMap, none: set<Pid>)
    requires none == {}
    ensures Sum(procs, none) == Nothing
  {
  }

  lemma {:induction false} SumJoins(procs: ProcMap, a: set<Pid>, b: set<Pid>)
    requires a !! b
    ensures Sum(procs, a + b) == Join(Sum(procs, a), Sum(procs, b))
    decreases a
  {
    hide Sum, Own, Plus;
    if a == {} {
      SumOfNone(procs, a);
      assert a + b == b;
    } else {
      hide Join;
      var p := Pick(a);
      SplitOff(a, b, p);
      SumJoins(procs, a - {p}, b);
      SumTakes(procs, a + b, p);
      SumTakes(procs, a, p);
      JoinAssoc(Total(Own(procs, p)), Sum(procs, a - {p}), Sum(procs, b));
    }
  }

  // ---- The totals in terms of the rows ----

  /** The values some processes have in a table, added up. */
  ghost function AddedUp(ps: set<Pid>, values: map<Pid, int>): int
    requires ps <= values.Keys
  {
    if ps == {} then 0
    else
      var p := Pick(ps);
      values[p] + AddedUp(ps - {p}, values)
  }

  ghost predicate LargestRss(procs: ProcMap, ps: set<Pid>, rss: int)
    requires ps <= procs.Keys
  {
    && (exists p :: p in ps && procs[p].peakRss == rss)
    && (forall p :: p in ps ==> procs[p].peakRss <= rss)
  }

  /** What a total says about the rows: the peak size is the largest, everything
      else is added up. */
  ghost predicate Totals(procs: ProcMap, ps: set<Pid>, t: Stats)
    requires ps <= procs.Keys
  {
    && t.files == AddedUp(ps, map p | p in procs :: procs[p].fileCount)
    && t.fails == AddedUp(ps, map p | p in procs :: procs[p].failCount)
    && t.cpu == AddedUp(ps, map p | p in procs :: procs[p].userTime + procs[p].sysTime)
    && t.io == AddedUp(ps, map p | p in procs :: procs[p].ioRead + procs[p].ioWrite)
    && LargestRss(procs, ps, t.rss)
  }

  lemma {:induction false} CountsOfRows(procs: ProcMap, ps: set<Pid>, t: Stats,
                                        files: map<Pid, int>, fails: map<Pid, int>)
    requires ps <= procs.Keys && Sum(procs, ps) == Total(t) && procs.Keys == files.Keys == fails.Keys
    requires forall p :: p in procs ==> files[p] == procs[p].fileCount && fails[p] == procs[p].failCount
    ensures t.files == AddedUp(ps, files) && t.fails == AddedUp(ps, fails)
    decreases ps
  {
    var rest := ps - {Pick(ps)};
    if Sum(procs, rest).Total? {
      CountsOfRows(procs, rest, Sum(procs, rest).stats, files, fails);
    }
  }

  lemma {:induction false} AmountsOfRows(procs: ProcMap, ps: set<Pid>, t: Stats,
                                         cpu: map<Pid, int>, io: map<Pid, int>)
    requires ps <= procs.Keys && Sum(procs, ps) == Total(t) && procs.Keys == cpu.Keys == io.Keys
    requires forall p :: p in procs ==>
      cpu[p] == procs[p].userTime + procs[p].sysTime && io[p] == procs[p].ioRead + procs[p].ioWrite
    ensures t.cpu == AddedUp(ps, cpu) && t.io == AddedUp(ps, io)
    decreases ps
  {
    var rest := ps - {Pick(ps)};
    if Sum(procs, rest).Total? {
      AmountsOfRows(procs, rest, Sum(procs, rest).stats, cpu, io);
    }
  }

  lemma {:induction false} RssOfRows(procs: ProcMap, ps: set<Pid>, t: Stats)
    requires ps <= procs.Keys && Sum(procs, ps) == Total(t)
    ensures LargestRss(procs, ps, t.rss)
    decreases ps
  {
    var p := Pick(ps);
    var rest := ps - {p};
    if Sum(procs, rest).Total? {
      RssOfRows(procs, rest, Sum(procs, rest).stats);
    }
  }

  lemma SumIsTotals(procs: ProcMap, ps: set<Pid>, t: Stats)
    requires ps <= procs.Keys && Sum(procs, ps) == Total(t)
    ensures Totals(procs, ps, t)
  {
    hide Sum, Own;
    CountsOfRows(procs, ps, t, map p | p in procs :: procs[p].fileCount, map p | p in procs :: procs[p].failCount);
    AmountsOfRows(procs, ps, t, map p | p in procs :: procs[p].userTime + procs[p].sysTime,
                  map p | p in procs :: procs[p].ioRead + procs[p].ioWrite);
    RssOfRows(procs, ps, t);
  }

  lemma CpuIsTotal(procs: ProcMap, ps: set<Pid>)
    requires ps <= procs.Keys
    ensures Sum(procs, ps).Cpu() == AddedUp(ps, map p | p in procs :: procs[p].userTime + procs[p].sysTime)
  {
    if Sum(procs, ps).Total? {
      SumIsTotals(procs, ps, Sum(procs, ps).stats);
    }
  }

  lemma SumOfSome(procs: ProcMap, ps: set<Pid>)
    ensures Sum(procs, ps).Nothing? <==> ps == {}
  {
  }

  lemma SplitOff(a: set<Pid>, b: set<Pid>, p: Pid)
    requires p in a && a !! b
    ensures a + b - {p} == (a - {p}) + b && (a - {p}) !! b && a - {p} < a
  {
  }

  lemma JoinAssoc(a: Total, b: Total, c: Total)
    ensures Join(a, Join(b, c)) == Join(Join(a, b), c)
  {
  }

  // ---- What belongs to a process ----

  /** The process and everything below its first `n` children. */
  ghost function Under(g: Graph, p: Pid, n: nat): set<Pid>
    requires n <= |g.Children(p)|
  {
    {p} + set d | d in g.procs.Keys && exists j :: 0 <= j < n && Ancestor(g.procs, g.Children(p)[j], d)
  }

  ghost function Whole(g: Graph, p: Pid): set<Pid> {
    Under(g, p, |g.Children(p)|)
  }

  lemma WholeIsSubtree(g: Graph, p: Pid)
    requires TreeConsistent(g) && p in g.procs
    ensures Whole(g, p) == Subtree(g.procs, p)
  {
    AncestorRefl(g.procs, p);
    forall d | d in Whole(g, p) && d != p ensures Ancestor(g.procs, p, d) {
      var j :| 0 <= j < |g.Children(p)| && Ancestor(g.procs, g.Children(p)[j], d);
      var c := g.Children(p)[j];
      assert c in g.Children(p);
      AncestorOfChild(g.procs, p, c);
      AncestorTrans(g.procs, p, c, d);
    }
    forall d | d in g.procs && Ancestor(g.procs, p, d) && d != p ensures d in Whole(g, p) {
      var n: nat :| Up(g.procs, d, n, p);
      var c := ChildTowards(g.procs, p, d, n);
      assert c in g.Children(p);
      var j :| 0 <= j < |g.Children(p)| && g.Children(p)[j] == c;
    }
  }

  /** The child of `p` through which `d` hangs below it. */
  lemma {:induction false} ChildTowards(procs: ProcMap, p: Pid, d: Pid, n: nat) returns (c: Pid)
    requires Up(procs, d, n, p) && n > 0
    ensures c in procs && procs[c].ppid == p && Ancestor(procs, c, d)
    decreases n
  {
    if n == 1 {
      c := d;
      AncestorRefl(procs, d);
    } else {
      c := ChildTowards(procs, p, procs[d].ppid, n - 1);
      AncestorOfChild(procs, c, d);
    }
  }

  /** Siblings have nothing in common below them. */
  lemma SiblingsApart(procs: ProcMap, p: Pid, a: Pid, b: Pid, d: Pid)
    requires !OnCycle(procs, p) && a in procs && b in procs && a != b && procs[a].ppid == procs[b].ppid == p
    requires Ancestor(procs, a, d)
    ensures !Ancestor(procs, b, d)
  {
    if Ancestor(procs, b, d) {
      SiblingsUnrelated(procs, p, a, b);
      SiblingsUnrelated(procs, p, b, a);
      var n: nat :| Up(procs, d, n, a);
      var m: nat :| Up(procs, d, m, b);
      AncestorsComparable(procs, a, n, b, m, d);
    }
  }

  lemma SiblingsUnrelated(procs: ProcMap, p: Pid, a: Pid, b: Pid)
    requires !OnCycle(procs, p) && a in procs && b in procs && a != b && procs[a].ppid == procs[b].ppid == p
    ensures !Ancestor(procs, a, b)
  {
    if Ancestor(procs, a, b) {
      AncestorStep(procs, a, b);
      ChildAcyclic(procs, p, a);
    }
  }

  lemma UnderGrows(g: Graph, p: Pid, i: nat)
    requires TreeConsistent(g) && !OnCycle(g.procs, p) && i < |g.Children(p)|
    ensures var c := g.Children(p)[i];
      && c in g.procs && g.procs[c].ppid == p
      && Under(g, p, i + 1) == Under(g, p, i) + Subtree(g.procs, c)
      && Under(g, p, i) !! Subtree(g.procs, c)
  {
    var c := g.Children(p)[i];
    assert c in g.Children(p);
    forall d | d in Under(g, p, i) ensures d !in Subtree(g.procs, c) {
      if d == p {
        ChildAcyclic(g.procs, p, c);
      } else {
        var j :| 0 <= j < i && Ancestor(g.procs, g.Children(p)[j], d);
        assert g.Children(p)[j] in g.Children(p) && g.Children(p)[j] != c;
        SiblingsApart(g.procs, p, g.Children(p)[j], c, d);
      }
    }
  }

  // ---- The memoised computation ----

  ghost predicate CacheRight(g: Graph, cache: map<Pid, Stats>) {
    forall p :: p in cache ==> Total(cache[p]) == Sum(g.procs, Whole(g, p))
  }

  /** What the recursion descends on: the size of the subtree. */
  ghost function Rank(procs: ProcMap, p: Pid): nat {
    if p in procs then |Subtree(procs, p)| else |procs.Keys| + 1
  }

  lemma RankFalls(procs: ProcMap, p: Pid, c: Pid)
    requires !OnCycle(procs, p) && c in procs && procs[c].ppid == p
    ensures Rank(procs, c) < Rank(procs, p)
  {
    if p in procs {
      ChildSubtreeSmaller(procs, p, c);
      Smaller(Subtree(procs, c), Subtree(procs, p));
    } else {
      Smaller(Subtree(procs, c), procs.Keys + {p});
    }
  }

  lemma {:induction false} Smaller(a: set<Pid>, b: set<Pid>)
    requires a < b
    ensures |a| < |b|
  {
    var x := Pick(b - a);
    assert b == a + {x} + (b - a - {x});
  }

  /** Adding the total of the next child. */
  lemma AddChild(g: Graph, p: Pid, i: nat)
    requires TreeConsistent(g) && !OnCycle(g.procs, p) && i < |g.Children(p)|
    ensures var c := g.Children(p)[i];
      && Sum(g.procs, Under(g, p, i + 1)) == Join(Sum(g.procs, Under(g, p, i)), Sum(g.procs, Whole(g, c)))
      && c in g.procs && g.procs[c].ppid == p
      && Rank(g.procs, c) < Rank(g.procs, p) && !OnCycle(g.procs, c)
  {
    var c := g.Children(p)[i];
    UnderGrows(g, p, i);
    hide Sum, Under;
    WholeIsSubtree(g, c);
    SumJoins(g.procs, Under(g, p, i), Subtree(g.procs, c));
    RankFalls(g.procs, p, c);
    ChildAcyclic(g.procs, p, c);
  }

  /** Nothing remembered is forgotten. */
  ghost predicate Keeps(before: map<Pid, Stats>, after: map<Pid, Stats>) {
    forall p :: p in before ==> p in after
  }

  lemma CacheAdded(g: Graph, cache: map<Pid, Stats>, p: Pid, ds: Stats)
    requires CacheRight(g, cache) && Total(ds) == Sum(g.procs, Whole(g, p))
    ensures CacheRight(g, cache[p := ds]) && Keeps(cache, cache[p := ds])
  {
  }

  lemma KeepsOn(a: map<Pid, Stats>, b: map<Pid, Stats>, c: map<Pid, Stats>)
    requires Keeps(a, b) && Keeps(b, c)
    ensures Keeps(a, c)
  {
  }

  method ComputeOne(g: Graph, p: Pid, cache0: map<Pid, Stats>) returns (ds: Stats, cache: map<Pid, Stats>)
    requires TreeConsistent(g) && !OnCycle(g.procs, p) && CacheRight(g, cache0)
    ensures Total(ds) == Sum(g.procs, Whole(g, p))
    ensures Accounts(g, p, ds)
    ensures CacheRight(g, cache) && Keeps(cache0, cache) && p in cache
    decreases Rank(g.procs, p)
  {
    hide *;
    KeepsSelf(cache0);
    if p in cache0 {
      CacheHit(g, cache0, p);
      SubtreeTotals(g, p, cache0[p]);
      return cache0[p], cache0;
    }
    cache := cache0;
    ds := Own(g.procs, p);
    OwnIsSum(g, p);
    var kids := g.Children(p);
    for i := 0 to |kids|
      invariant Total(ds) == Sum(g.procs, Under(g, p, i))
      invariant CacheRight(g, cache) && Keeps(cache0, cache)
    {
      AddChild(g, p, i);
      var child;
      ghost var before := cache;
      child, cache := ComputeOne(g, kids[i], cache);
      KeepsOn(cache0, before, cache);
      JoinTotals(ds, child);
      ds := Plus(ds, child);
    }
    AllUnder(g, p);
    SubtreeTotals(g, p, ds);
    CacheAdded(g, cache, p, ds);
    KeepsOn(cache0, cache, cache[p := ds]);
    cache := cache[p := ds];
  }

  /** What is said of a process that has a row, and of one that has none: the
      latter adds nothing of its own, but its peak counts as 0. */
  ghost predicate Accounts(g: Graph, p: Pid, ds: Stats) {
    if p in g.procs then Totals(g.procs, Subtree(g.procs, p), ds)
    else
      var below := set d | d in g.procs.Keys && exists c :: c in g.Children(p) && Ancestor(g.procs, c, d);
      && ds.files == AddedUp(below, map d | d in g.procs :: g.procs[d].fileCount)
      && ds.fails == AddedUp(below, map d | d in g.procs :: g.procs[d].failCount)
      && ds.cpu == AddedUp(below, map d | d in g.procs :: g.procs[d].userTime + g.procs[d].sysTime)
      && ds.io == AddedUp(below, map d | d in g.procs :: g.procs[d].ioRead + g.procs[d].ioWrite)
      && ds.rss >= 0 && (ds.rss == 0 || exists d :: d in below && g.procs[d].peakRss == ds.rss)
      && (forall d :: d in below ==> g.procs[d].peakRss <= ds.rss)
  }

  lemma SubtreeTotals(g: Graph, p: Pid, ds: Stats)
    requires TreeConsistent(g) && Total(ds) == Sum(g.procs, Whole(g, p))
    ensures Accounts(g, p, ds)
  {
    hide Sum, Totals;
    if p in g.procs {
      WholeIsSubtree(g, p);
      SumIsTotals(g.procs, Subtree(g.procs, p), ds);
    } else {
      RowlessTotals(g, p, ds);
    }
  }

  lemma RowlessTotals(g: Graph, p: Pid, ds: Stats)
    requires p !in g.procs && Total(ds) == Sum(g.procs, Whole(g, p))
    ensures Accounts(g, p, ds)
  {
    var below := set d | d in g.procs.Keys && exists c :: c in g.Children(p) && Ancestor(g.procs, c, d);
    var kids := g.Children(p);
    assert Whole(g, p) - {p} == below by {
      forall d | d in below ensures d in Whole(g, p) {
        var c :| c in kids && Ancestor(g.procs, c, d);
        var j :| 0 <= j < |kids| && kids[j] == c;
      }
    }
    SumTakes(g.procs, Whole(g, p), p);
    assert Total(ds) == Join(Total(Stats(0, 0, 0, 0, 0)), Sum(g.procs, below));
    hide Sum, Whole, Ancestor;
    if Sum(g.procs, below).Total? {
      SumIsTotals(g.procs, below, Sum(g.procs, below).stats);
    } else {
      SumOfSome(g.procs, below);
    }
  }

  lemma JoinTotals(a: Stats, b: Stats)
    ensures Join(Total(a), Total(b)) == Total(Plus(a, b))
  {
  }

  lemma AllUnder(g: Graph, p: Pid)
    ensures Under(g, p, |g.Children(p)|) == Whole(g, p)
  {
  }

  lemma CacheHit(g: Graph, cache: map<Pid, Stats>, p: Pid)
    requires CacheRight(g, cache) && p in cache
    ensures Total(cache[p]) == Sum(g.procs, Whole(g, p))
  {
  }

  lemma KeepsSelf(cache: map<Pid, Stats>)
    ensures Keeps(cache, cache)
  {
  }

  lemma OwnIsSum(g: Graph, p: Pid)
    ensures Total(Own(g.procs, p)) == Sum(g.procs, Under(g, p, 0))
  {
    assert Under(g, p, 0) == {p};
    SumTakes(g.procs, {p}, p);
    SumOfNone(g.procs, {p} - {p});
  }

  lemma CpuAdded(procs: ProcMap, done: set<Pid>, p: Pid)
    requires p in procs && p !in done
    ensures Sum(procs, done + {p}).Cpu() == Sum(procs, done).Cpu() + procs[p].userTime + procs[p].sysTime
  {
    SumTakes(procs, done + {p}, p);
    assert done + {p} - {p} == done;
  }

  lemma CacheHolds(g: Graph, cache: map<Pid, Stats>)
    requires TreeConsistent(g) && CacheRight(g, cache) && Remembered(g.procs.Keys, cache)
    ensures g.procs.Keys <= cache.Keys
    ensures forall p :: p in g.procs ==> Total(cache[p]) == Sum(g.procs, Subtree(g.procs, p))
  {
    hide Sum;
    assert g.procs.Keys <= cache.Keys by {
      forall p | p in g.procs.Keys ensures p in cache.Keys {
        assert p in cache;
      }
    }
    forall p | p in g.procs ensures Total(cache[p]) == Sum(g.procs, Subtree(g.procs, p)) {
      WholeIsSubtree(g, p);
    }
  }

  /** The first `n` processes of a list. */
  ghost function Seen(ps: seq<Pid>, n: nat): set<Pid>
    requires n <= |ps|
  {
    set j | 0 <= j < n :: ps[j]
  }

  lemma SeenGrows(procs: ProcMap, ps: seq<Pid>, i: nat)
    requires Enumerates(ps, procs.Keys) && i < |ps|
    ensures Seen(ps, i + 1) == Seen(ps, i) + {ps[i]}
    ensures ps[i] in procs && ps[i] !in Seen(ps, i)
  {
    assert ps[i] in ps;
  }

  lemma SeenAll(procs: ProcMap, ps: seq<Pid>)
    requires Enumerates(ps, procs.Keys)
    ensures Seen(ps, |ps|) == procs.Keys
  {
    forall p | p in procs ensures p in Seen(ps, |ps|) {
      assert p in ps;
    }
  }

  ghost predicate Remembered(ps: set<Pid>, cache: map<Pid, Stats>) {
    forall p :: p in ps ==> p in cache
  }

  lemma RememberedMore(ps: set<Pid>, p: Pid, before: map<Pid, Stats>, after: map<Pid, Stats>)
    requires Remembered(ps, before) && Keeps(before, after) && p in after
    ensures Remembered(ps + {p}, after)
  {
  }

  ghost predicate Summed(g: Graph, ps: seq<Pid>, n: nat, cache: map<Pid, Stats>, totalCpu: int)
    requires n <= |ps|
  {
    && CacheRight(g, cache)
    && Remembered(Seen(ps, n), cache)
    && totalCpu == Sum(g.procs, Seen(ps, n)).Cpu()
  }

  lemma SummedNone(g: Graph, ps: seq<Pid>)
    ensures Summed(g, ps, 0, map[], 0)
  {
    SumOfNone(g.procs, Seen(ps, 0));
  }

  lemma SummedNext(g: Graph, ps: seq<Pid>, i: nat, before: map<Pid, Stats>, totalCpu: int, after: map<Pid, Stats>)
    requires Enumerates(ps, g.procs.Keys) && i < |ps| && Summed(g, ps, i, before, totalCpu)
    requires CacheRight(g, after) && Keeps(before, after) && ps[i] in after
    ensures ps[i] in g.procs
    ensures Summed(g, ps, i + 1, after, totalCpu + g.procs[ps[i]].userTime + g.procs[ps[i]].sysTime)
  {
    hide Sum, Own, CacheRight;
    SeenGrows(g.procs, ps, i);
    RememberedMore(Seen(ps, i), ps[i], before, after);
    CpuAdded(g.procs, Seen(ps, i), ps[i]);
  }

  lemma SummedAll(g: Graph, ps: seq<Pid>, cache: map<Pid, Stats>, totalCpu: int)
    requires TreeConsistent(g) && Enumerates(ps, g.procs.Keys) && Summed(g, ps, |ps|, cache, totalCpu)
    ensures g.procs.Keys <= cache.Keys
    ensures forall p :: p in g.procs ==> Total(cache[p]) == Sum(g.procs, Subtree(g.procs, p))
    ensures totalCpu == Sum(g.procs, g.procs.Keys).Cpu()
  {
    hide Sum, CacheRight, TreeConsistent, Subtree;
    SeenAll(g.procs, ps);
    CacheHolds(g, cache);
  }

  lemma ProcessAcyclic(procs: ProcMap, ps: seq<Pid>, i: nat)
    requires Forest(procs) && Enumerates(ps, procs.Keys) && i < |ps|
    ensures !OnCycle(procs, ps[i])
  {
    assert ps[i] in ps;
    RootedIsAcyclic(procs, ps[i]);
  }

  /** The totals of every process and the overall CPU time. */
  method ComputeAll(g: Graph) returns (cache: map<Pid, Stats>, totalCpu: int)
    requires TreeConsistent(g) && Forest(g.procs)
    ensures g.procs.Keys <= cache.Keys
    ensures forall p :: p in g.procs ==> Total(cache[p]) == Sum(g.procs, Subtree(g.procs, p))
    ensures forall p :: p in g.procs ==> Totals(g.procs, Subtree(g.procs, p), cache[p])
    ensures totalCpu == Sum(g.procs, g.procs.Keys).Cpu()
    ensures totalCpu == AddedUp(g.procs.Keys, map p | p in g.procs :: g.procs[p].userTime + g.procs[p].sysTime)
  {
    hide Sum, Keeps, Totals, AddedUp, Summed, Forest, TreeConsistent, Ascending, Subtree;
    cache, totalCpu := map[], 0;
    var ps := Ascending(g.procs.Keys);
    SummedNone(g, ps);
    for i := 0 to |ps|
      invariant CacheRight(g, cache) && Summed(g, ps, i, cache, totalCpu)
    {
      ghost var before := cache;
      var ds;
      ProcessAcyclic(g.procs, ps, i);
      ds, cache := ComputeOne(g, ps[i], cache);
      hide Enumerates, CacheRight;
      SummedNext(g, ps, i, before, totalCpu, cache);
      totalCpu := totalCpu + g.procs[ps[i]].userTime + g.procs[ps[i]].sysTime;
    }
    SummedAll(g, ps, cache, totalCpu);
    EverySubtree(g, cache);
    CpuIsTotal(g.procs, g.procs.Keys);
  }

  lemma EverySubtree(g: Graph, cache: map<Pid, Stats>)
    requires g.procs.Keys <= cache.Keys
    requires forall p :: p in g.procs ==> Total(cache[p]) == Sum(g.procs, Subtree(g.procs, p))
    ensures forall p :: p in g.procs ==> Totals(g.procs, Subtree(g.procs, p), cache[p])
  {
    hide Sum, Totals;
    forall p | p in g.procs ensures Totals(g.procs, Subtree(g.procs, p), cache[p]) {
      SumIsTotals(g.procs, Subtree(g.procs, p), cache[p]);
    }
  }

  // ---- The roots account for everything ----

  ghost function RootsCpu(procs: ProcMap, roots: set<Pid>): int {
    if roots == {} then 0
    else
      var r := Pick(roots);
      Sum(procs, Subtree(procs, r)).Cpu() + RootsCpu(procs, roots - {r})
  }

  ghost function BelowAny(procs: ProcMap, roots: set<Pid>): set<Pid> {
    set d | d in procs.Keys && exists r :: r in roots && Ancestor(procs, r, d)
  }

  lemma {:induction false} RootsCpuIsSum(procs: ProcMap, roots: set<Pid>)
    requires Forest(procs) && forall r :: r in roots ==> IsRoot(procs, r)
    ensures RootsCpu(procs, roots) == Sum(procs, BelowAny(procs, roots)).Cpu()
    decreases roots
  {
    if roots == {} {
      assert BelowAny(procs, roots) == {};
    } else {
      var r := Pick(roots);
      var rest := roots - {r};
      RootsCpuIsSum(procs, rest);
      var a, b := Subtree(procs, r), BelowAny(procs, rest);
      assert BelowAny(procs, roots) == a + b;
      forall d | d in b ensures d !in a {
        var q :| q in rest && Ancestor(procs, q, d);
        RootsApart(procs, q, r, d);
      }
      SumJoins(procs, a, b);
    }
  }

  lemma RootsApart(procs: ProcMap, a: Pid, b: Pid, d: Pid)
    requires Forest(procs) && IsRoot(procs, a) && IsRoot(procs, b) && a != b && Ancestor(procs, a, d)
    ensures !Ancestor(procs, b, d)
  {
    if Ancestor(procs, b, d) {
      var n: nat :| Up(procs, d, n, a);
      var m: nat :| Up(procs, d, m, b);
      AncestorsComparable(procs, a, n, b, m, d);
      RootOnTop(procs, a, b);
      RootOnTop(procs, b, a);
    }
  }

  lemma RootOnTop(procs: ProcMap, a: Pid, b: Pid)
    requires IsRoot(procs, b) && a != b
    ensures !Ancestor(procs, a, b)
  {
    if n: nat :| Up(procs, b, n, a) {
      if n > 0 {
        AncestorInMap(procs, a, procs[b].ppid, n - 1);
      }
    }
  }

  lemma {:induction false} HasRootAbove(procs: ProcMap, d: Pid, n: nat) returns (r: Pid)
    requires RootAt(procs, d, n)
    ensures IsRoot(procs, r) && Ancestor(procs, r, d)
    decreases n
  {
    if n == 0 {
      r := d;
      AncestorRefl(procs, d);
    } else {
      r := HasRootAbove(procs, procs[d].ppid, n - 1);
      AncestorOfChild(procs, r, d);
    }
  }

  /** The CPU totals of all roots add up to the total over all processes. */
  lemma RootsAddUp(procs: ProcMap)
    requires Forest(procs)
    ensures RootsCpu(procs, set r | r in procs.Keys && IsRoot(procs, r)) == Sum(procs, procs.Keys).Cpu()
  {
    var roots := set r | r in procs.Keys && IsRoot(procs, r);
    RootsCpuIsSum(procs, roots);
    forall d | d in procs ensures d in BelowAny(procs, roots) {
      var r := HasRootAbove(procs, d, Depth(procs, d));
    }
    assert BelowAny(procs, roots) == procs.Keys;
  }
}
