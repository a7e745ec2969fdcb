/** Which depth limits and which dependency relations a reverse-dependency tree
    can lose files on. */
module ReverseDepsLimits {
  import opened Ordering
  import opened Processes
  import opened DependencyGraph
  import opened ReverseDeps

  // ---- Following the search on small graphs ----

  lemma AscendingIs(s: seq<int>, xs: set<int>)
    requires StrictlyAscending(s) && Enumerates(s, xs)
    ensures Ascending(xs) == s
    decreases s
  {
    SameAscending(s, Ascending(xs));
  }

  lemma {:induction false} SameAscending(s: seq<int>, t: seq<int>)
    requires StrictlyAscending(s) && StrictlyAscending(t) && forall x :: x in s <==> x in t
    ensures s == t
  {
    assert s != [] ==> s[0] in s;
    assert t != [] ==> t[0] in t;
    if s != [] {
      assert s[0] in t && t[0] in s;
      assert s[0] == t[0];
      forall x ensures x in s[1..] <==> x in t[1..] {
        assert x in s[1..] <==> x in s && x != s[0];
        assert x in t[1..] <==> x in t && x != t[0];
      }
      SameAscending(s[1..], t[1..]);
    }
  }

  lemma ExploreOpens(g: Graph, file: File, depth: nat, visited: set<File>)
    ensures Explore(g, file, depth, visited) == if depth == 0 then Grown([], visited) else Graft(g, depth, Fed(g, file), visited)
  {
    hide Graft, Fed;
  }

  lemma GraftOne(g: Graph, depth: nat, f: File, visited: set<File>)
    requires depth > 0 && f !in visited
    ensures var below := Explore(g, f, depth - 1, visited + {f});
      Graft(g, depth, [f], visited) == Grown([Node(f, 0, below.nodes)], below.visited)
  {
    assert Graft(g, depth, [], visited) == Grown([], visited);
    GraftSnoc(g, depth, [], f, visited);
    assert [] + [f] == [f];
  }

  lemma OneWriter(g: Graph, a: File, p: Pid, b: File)
    requires g.Readers(a) == {p} && g.Outputs(p) == {b}
    ensures Fed(g, a) == [b]
  {
    AscendingIs([p], {p});
    OneOutput(b);
    assert FedThrough(g, [p]) == FedThrough(g, []) + Alphabetical(g.Outputs(p));
  }

  lemma TwoWriters(g: Graph, a: File, p: Pid, b: File, q: Pid, c: File)
    requires g.Readers(a) == {p, q} && p < q && g.Outputs(p) == {b} && g.Outputs(q) == {c}
    ensures Fed(g, a) == [b, c]
  {
    AscendingIs([p, q], {p, q});
    OneOutput(b);
    OneOutput(c);
    assert [p, q][..1] == [p];
    assert FedThrough(g, [p]) == FedThrough(g, []) + Alphabetical(g.Outputs(p));
    assert FedThrough(g, [p, q]) == FedThrough(g, [p]) + Alphabetical(g.Outputs(q));
  }

  lemma OneOutput(f: File)
    ensures Alphabetical({f}) == [f]
  {
    var r := Alphabetical({f});
    assert f in r;
    assert forall i :: 0 <= i < |r| ==> r[i] in r;
  }

  // ---- Limits that lose files ----

  /** The i-th file of a long way round. */
  function Name(i: nat): File {
    seq(i, _ => 'x')
  }

  /** A chain of files, each made from the one before by the next process, and a
      last process that makes file `n` from the first file in a single step. */
  function Winding(n: nat): Graph
    requires n >= 2
  {
    Graph(
      map f | f in set i | 0 <= i <= n :: Name(i) :: if f == "" then {1, n + 2} else {|f| + 1},
      map p | 1 <= p <= n + 2 :: if p == n + 2 then {Name(n)} else {Name(p)},
      map f | f in set i | 1 <= i <= n + 1 :: Name(i) :: if |f| == n then {n, n + 2} else {|f|},
      map[], map[])
  }

  lemma WindingEdges(n: nat, i: nat)
    requires n >= 2 && i <= n
    ensures i > 0 ==> Fed(Winding(n), Name(i)) == [Name(i + 1)]
    ensures i == 0 ==> Fed(Winding(n), Name(i)) == [Name(1), Name(n)]
  {
    var g := Winding(n);
    assert Name(i) in set k | 0 <= k <= n :: Name(k);
    if i == 0 {
      TwoWriters(g, Name(0), 1, Name(1), n + 2, Name(n));
    } else {
      OneWriter(g, Name(i), i + 1, Name(i + 1));
    }
  }

  ghost function Passed(i: nat): set<File> {
    set k | 0 <= k <= i :: Name(k)
  }

  lemma PassedNext(i: nat)
    ensures Passed(i + 1) == Passed(i) + {Name(i + 1)} && Name(i + 1) !in Passed(i)
  {
    assert forall k :: 0 <= k <= i ==> |Name(k)| == k;
  }

  /** The search follows the chain down to file `n` and arrives with no step left. */
  lemma {:induction false} WindsDown(n: nat, i: nat)
    requires n >= 2 && 1 <= i <= n
    ensures Explore(Winding(n), Name(i), n - i, Passed(i)).visited == Passed(n)
    decreases n - i
  {
    hide Winding, Name, Passed, Fed, Graft, Explore;
    ExploreOpens(Winding(n), Name(i), n - i, Passed(i));
    if i < n {
      var g, b := Winding(n), Name(i + 1);
      WindingEdges(n, i);
      PassedNext(i);
      WindsDown(n, i + 1);
      GraftOne(g, n - i, b, Passed(i));
    }
  }

  /** What the first way has visited is not searched again from the second. */
  lemma SecondSkipped(g: Graph, r: File, first: File, last: File, n: nat, all: set<File>)
    requires n > 0 && Fed(g, r) == [first, last] && first != r && last in all
    requires Explore(g, first, n - 1, {r} + {first}).visited == all
    ensures Explore(g, r, n, {r}).visited == all
  {
    hide Fed, Graft, Explore;
    ExploreOpens(g, r, n, {r});
    GraftOne(g, n, first, {r});
    GraftSnoc(g, n, [first], last, {r});
    assert [first] + [last] == [first, last];
  }

  lemma PassedFirst(n: nat)
    ensures Passed(0) == {Name(0)} && Name(n) in Passed(n)
  {
  }

  lemma WindingVisits(n: nat)
    requires n >= 2
    ensures Explore(Winding(n), Name(0), n, {Name(0)}).visited == Passed(n)
  {
    hide Winding, Name, Passed, Fed, Graft, Explore;
    WindingEdges(n, 0);
    PassedFirst(n);
    PassedNext(0);
    WindsDown(n, 1);
    SecondSkipped(Winding(n), Name(0), Name(1), Name(n), n, Passed(n));
  }

  lemma TwoSteps(g: Graph, a: File, b: File, c: File)
    requires b in Fed(g, a) && c in Fed(g, b)
    ensures Within(g, a, c, 2)
  {
    FedFeeds(g, a, b);
    FedFeeds(g, b, c);
    assert FeedsIn(g, a, a, 0);
    assert FeedsIn(g, a, b, 1);
    assert FeedsIn(g, a, c, 2);
  }

  /** File `n + 1` is two steps away and is missed. */
  lemma WindingLoses(n: nat)
    requires n >= 2
    ensures Name(n + 1) !in Files(Rdeps(Winding(n), Name(0), n))
    ensures Within(Winding(n), Name(0), Name(n + 1), 2)
  {
    var g, lost := Winding(n), Name(n + 1);
    WindingEdges(n, 0);
    WindingEdges(n, n);
    PassedNext(n);
    assert |Name(0)| != |lost|;
    hide Winding, Name, Passed;
    TwoSteps(g, Name(0), Name(n), lost);
    WindingVisits(n);
    ExploreSound(g, Name(0), n, {Name(0)});
    hide Explore, Feeds;
  }

  lemma WithinMore(g: Graph, a: File, b: File, n: int, m: int)
    requires Within(g, a, b, n) && n <= m
    ensures Within(g, a, b, m)
  {
  }

  /** A limit is safe for every graph exactly when it is at most one step. */
  lemma SafeLimits(limit: int)
    ensures (forall g, file :: Complete(g, file, limit, Rdeps(g, file, limit))) <==> limit <= 1
  {
    hide Rdeps, Complete, Detour;
    if limit <= 1 {
      forall g, file ensures Complete(g, file, limit, Rdeps(g, file, limit)) {
        RdepsIsTree(g, file, limit);
        forall p ensures !Detour(g, file, limit, p) {
          NoDetourAtOne(g, file, limit, p);
        }
        CompleteWithoutDetours(g, file, limit, Rdeps(g, file, limit));
      }
    } else {
      LimitLoses(limit);
    }
  }

  lemma LimitLoses(limit: nat)
    requires limit >= 2
    ensures !Complete(Winding(limit), Name(0), limit, Rdeps(Winding(limit), Name(0), limit))
  {
    WindingLoses(limit);
    WithinMore(Winding(limit), Name(0), Name(limit + 1), 2, limit);
    hide Rdeps, Winding, Name, Within;
  }

  /** The smallest case: `r` leads to `b` at once and through `a`; met through `a`
      first, `b` is not searched, and `c`, two steps from `r`, is missed. */
  lemma TwoStepMiss(g: Graph, r: File, a: File, b: File, c: File)
    requires Fed(g, r) == [a, b] && Fed(g, a) == [b] && Fed(g, b) == [c]
    requires NoDup([r, a, b, c])
    ensures Rdeps(g, r, 2) == Node(r, 0, [Node(a, 0, [Node(b, 0, [])])])
    ensures Within(g, r, c, 2) && c !in Files(Rdeps(g, r, 2))
  {
    assert r != a && r != b && r != c && a != b && a != c && b != c by {
      var names := [r, a, b, c];
      assert names[0] == r && names[1] == a && names[2] == b && names[3] == c;
    }
    TwoSteps(g, r, b, c);
    hide Fed, Within;
    TwoStepTree(g, r, a, b, c);
    TwoBelow(r, a, b);
    hide Rdeps, Files;
  }

  lemma TwoStepTree(g: Graph, r: File, a: File, b: File, c: File)
    requires Fed(g, r) == [a, b] && Fed(g, a) == [b] && r != a && r != b && a != b
    ensures Rdeps(g, r, 2) == Node(r, 0, [Node(a, 0, [Node(b, 0, [])])])
  {
    hide Fed, Graft, Explore;
    var seen := {r} + {a};
    ExploreOpens(g, b, 0, seen + {b});
    ExploreOpens(g, a, 1, seen);
    ExploreOpens(g, r, 2, {r});
    GraftOne(g, 1, b, seen);
    GraftOne(g, 2, a, {r});
    GraftSnoc(g, 2, [a], b, {r});
    assert [a] + [b] == [a, b];
  }

  lemma TwoBelow(r: File, a: File, b: File)
    ensures Files(Node(r, 0, [Node(a, 0, [Node(b, 0, [])])])) == [r, a, b]
  {
    OneTree(Node(b, 0, []));
    OneTree(Node(a, 0, [Node(b, 0, [])]));
  }

  lemma OneTree(node: Node)
    ensures FilesOfAll([node]) == Files(node)
  {
    assert FilesOfAll([node]) == FilesOfAll([]) + Files(node);
  }

  lemma MissedAtTwo()
    ensures var g := Graph(
        map["r" := {1, 2}, "a" := {3}, "b" := {4}],
        map[1 := {"a"}, 2 := {"b"}, 3 := {"b"}, 4 := {"c"}],
        map["a" := {1}, "b" := {2, 3}, "c" := {4}], map[], map[]);
      && Rdeps(g, "r", 2) == Node("r", 0, [Node("a", 0, [Node("b", 0, [])])])
      && Within(g, "r", "c", 2) && "c" !in Files(Rdeps(g, "r", 2))
  {
    hide Rdeps, Explore, Graft, Files, Fed, Within, Alphabetical, Ascending;
    var g := Graph(
      map["r" := {1, 2}, "a" := {3}, "b" := {4}],
      map[1 := {"a"}, 2 := {"b"}, 3 := {"b"}, 4 := {"c"}],
      map["a" := {1}, "b" := {2, 3}, "c" := {4}], map[], map[]);
    TwoWriters(g, "r", 1, "a", 2, "b");
    OneWriter(g, "a", 3, "b");
    OneWriter(g, "b", 4, "c");
    TwoStepMiss(g, "r", "a", "b", "c");
  }

  // ---- Which dependencies are safe, however processes are numbered ----

  /** `h` has the dependencies of `g` and beyond them at most steps to one new
      file `c`, which leads nowhere. */
  ghost predicate Extends(g: Graph, h: Graph, file: File, c: File) {
    && c != file && (forall a :: !Feeds(g, a, c)) && (forall b :: !Feeds(g, c, b) && !Feeds(h, c, b))
    && (forall a, b :: b != c ==> (Feeds(h, a, b) <==> Feeds(g, a, b)))
  }

  lemma {:induction false} StepsKept(g: Graph, h: Graph, file: File, c: File, a: File, b: File, n: nat)
    requires Extends(g, h, file, c) && b != c
    ensures FeedsIn(h, a, b, n) <==> FeedsIn(g, a, b, n)
    decreases n
  {
    if n > 0 {
      if FeedsIn(h, a, b, n) {
        var x :| FeedsIn(h, a, x, n - 1) && Feeds(h, x, b);
        StepsKept(g, h, file, c, a, x, n - 1);
      }
      if FeedsIn(g, a, b, n) {
        var x :| FeedsIn(g, a, x, n - 1) && Feeds(g, x, b);
        StepsKept(g, h, file, c, a, x, n - 1);
      }
    }
  }

  lemma WithinKept(g: Graph, h: Graph, file: File, c: File, b: File, limit: int)
    requires Extends(g, h, file, c) && b != c
    ensures Within(h, file, b, limit) <==> Within(g, file, b, limit)
  {
    forall n: nat ensures FeedsIn(h, file, b, n) <==> FeedsIn(g, file, b, n) {
      StepsKept(g, h, file, c, file, b, n);
    }
  }

  lemma LeadsOn(g: Graph, p: seq<File>, x: File, i: nat)
    requires Chain(g, p) && i < |p| && Feeds(g, p[|p| - 1], x)
    ensures exists y :: Feeds(g, p[i], y)
  {
    if i < |p| - 1 {
      assert Feeds(g, p[i], p[i + 1]);
    }
  }

  lemma DetourKept(g: Graph, h: Graph, file: File, c: File, limit: int, p: seq<File>)
    requires Extends(g, h, file, c) && Detour(h, file, limit, p)
    ensures LateWay(g, file, limit, p)
  {
    hide Within;
    var x :| Feeds(h, p[limit], x);
    forall i | 0 <= i < |p| - 1 ensures Feeds(g, p[i], p[i + 1]) {
      assert Feeds(h, p[i], p[i + 1]);
      LeadsOn(h, p, x, i + 1);
    }
    WithinKept(g, h, file, c, p[limit], limit - 1);
  }

  // ---- Renumbering the processes along a late way ----

  ghost function Pids(g: Graph): set<Pid> {
    (set f, r | f in g.readers && r in g.readers[f] :: r) + g.outputs.Keys
  }

  ghost predicate Under(m: int, s: set<int>) {
    forall x :: x in s ==> m < x
  }

  ghost function BelowAll(s: set<int>): (m: int)
    ensures Under(m, s)
  {
    if s == {} then 0
    else
      MinExists(s);
      var m :| m in s && forall x :: x in s ==> m <= x;
      m - 1
  }

  lemma {:induction false} FreshExists(s: set<File>, k: nat)
    requires forall f :: f in s ==> |f| < k
    ensures Name(k) !in s
  {
  }

  lemma {:induction false} LengthBound(s: set<File>) returns (k: nat)
    ensures forall f :: f in s ==> |f| < k
    decreases s
  {
    k := 0;
    if s != {} {
      var x := Pick(s);
      k := LengthBound(s - {x});
      k := k + |x| + 1;
      assert forall f :: f in s ==> f == x || f in s - {x};
    }
  }

  /** The number of the i-th new process. */
  function Walker(low: int, i: int): Pid { low - i }

  /** New processes, numbered below all others, walk along `p` and on to `c`. */
  ghost function Rerouted(g: Graph, p: seq<File>, c: File, low: int): Graph {
    Graph(
      map f | f in g.readers.Keys + Elements(p) :: g.Readers(f) + Walkers(p, f, low),
      map r | r in g.outputs.Keys + (set i | 0 <= i < |p| :: Walker(low, i)) ::
        if r in g.outputs then g.outputs[r] else {Target(p, c, low - r)},
      g.writers, g.procs, g.children)
  }

  ghost function Walkers(p: seq<File>, f: File, low: int): set<Pid> {
    set i | 0 <= i < |p| && p[i] == f :: Walker(low, i)
  }

  ghost function Target(p: seq<File>, c: File, i: int): File {
    if 0 <= i && i + 1 < |p| then p[i + 1] else c
  }

  lemma ReroutedMaps(g: Graph, p: seq<File>, c: File, low: int, f: File, r: Pid)
    requires Under(low, Pids(g))
    ensures var h := Rerouted(g, p, c, low);
      && h.Readers(f) == g.Readers(f) + Walkers(p, f, low)
      && (r > low ==> h.Outputs(r) == g.Outputs(r))
      && (low - |p| < r <= low ==> h.Outputs(r) == {Target(p, c, low - r)})
  {
    if low - |p| < r <= low {
      var i := low - r;
      assert r == Walker(low, i) && r in (set i | 0 <= i < |p| :: Walker(low, i));
      assert r !in Pids(g);
    }
  }

  lemma ReroutedFeeds(g: Graph, p: seq<File>, c: File, low: int, a: File, b: File)
    requires Under(low, Pids(g))
    ensures Feeds(Rerouted(g, p, c, low), a, b) <==>
      Feeds(g, a, b) || exists i :: 0 <= i < |p| && p[i] == a && Target(p, c, i) == b
  {
    var h := Rerouted(g, p, c, low);
    hide Rerouted;
    forall r ensures r in g.Readers(a) ==> r in Pids(g) {
    }
    if Feeds(h, a, b) {
      var r :| r in h.Readers(a) && b in h.Outputs(r);
      ReroutedMaps(g, p, c, low, a, r);
      if r in g.Readers(a) {
        assert Feeds(g, a, b);
      } else {
        var i :| 0 <= i < |p| && p[i] == a && Walker(low, i) == r;
      }
    }
    if Feeds(g, a, b) {
      var r :| r in g.Readers(a) && b in g.Outputs(r);
      ReroutedMaps(g, p, c, low, a, r);
      assert r in h.Readers(a) && b in h.Outputs(r);
    }
    if i :| 0 <= i < |p| && p[i] == a && Target(p, c, i) == b {
      ReroutedMaps(g, p, c, low, a, Walker(low, i));
      assert Walker(low, i) in h.Readers(a) && b in h.Outputs(Walker(low, i));
    }
  }

  ghost predicate NewFile(g: Graph, file: File, c: File) {
    c != file && c !in g.readers && c !in OutputFiles(g)
  }

  lemma NewFileExists(g: Graph, file: File) returns (c: File)
    ensures NewFile(g, file, c)
  {
    var s := g.readers.Keys + OutputFiles(g) + {file};
    var k := LengthBound(s);
    FreshExists(s, k);
    c := Name(k);
  }

  lemma ReroutedExtends(g: Graph, file: File, limit: int, p: seq<File>, c: File, low: int)
    requires Under(low, Pids(g)) && LateWay(g, file, limit, p) && NewFile(g, file, c)
    ensures Extends(g, Rerouted(g, p, c, low), file, c)
  {
    var h := Rerouted(g, p, c, low);
    hide Rerouted, Within;
    assert forall a :: !Feeds(g, a, c);
    assert forall b :: !Feeds(g, c, b);
    forall i | 0 <= i < |p| ensures p[i] != c {
      if i > 0 {
        assert Feeds(g, p[i - 1], p[i - 1 + 1]);
      }
    }
    forall b ensures !Feeds(h, c, b) {
      ReroutedFeeds(g, p, c, low, c, b);
    }
    forall a, b | b != c ensures Feeds(h, a, b) <==> Feeds(g, a, b) {
      ReroutedFeeds(g, p, c, low, a, b);
      if i :| 0 <= i < |p| && p[i] == a && Target(p, c, i) == b {
        assert Feeds(g, p[i], p[i + 1]);
      }
    }
  }

  lemma FirstAscending(xs: set<int>, m: int)
    requires m in xs && forall x :: x in xs ==> m <= x
    ensures |Ascending(xs)| > 0 && Ascending(xs)[0] == m
  {
    var r := Ascending(xs);
    assert m in r;
    assert r[0] in r;
  }

  lemma {:induction false} FirstFed(g: Graph, readers: seq<Pid>, b: File)
    requires |readers| > 0 && g.Outputs(readers[0]) == {b}
    ensures |FedThrough(g, readers)| > 0 && FedThrough(g, readers)[0] == b
  {
    OneOutput(b);
    if |readers| == 1 {
      assert readers[..0] == [];
    } else {
      FirstFed(g, readers[..|readers| - 1], b);
    }
  }

  /** On every file of the way, the next one comes first. */
  lemma WayComesFirst(g: Graph, p: seq<File>, c: File, low: int, i: nat)
    requires Under(low, Pids(g)) && NoDup(p) && i < |p|
    ensures var fed := Fed(Rerouted(g, p, c, low), p[i]); |fed| > 0 && fed[0] == Target(p, c, i)
  {
    var h, r := Rerouted(g, p, c, low), Walker(low, i);
    ReroutedMaps(g, p, c, low, p[i], r);
    hide Rerouted;
    assert Walkers(p, p[i], low) == {r};
    assert forall x :: x in g.Readers(p[i]) ==> x in Pids(g);
    FirstAscending(h.Readers(p[i]), r);
    FirstFed(h, Ascending(h.Readers(p[i])), Target(p, c, i));
  }

  lemma {:induction false} GraftFirst(g: Graph, depth: nat, todo: seq<File>, visited: set<File>)
    requires depth > 0 && |todo| > 0 && todo[0] !in visited
    ensures var f, nodes := todo[0], Graft(g, depth, todo, visited).nodes;
      |nodes| > 0 && nodes[0] == Node(f, 0, Explore(g, f, depth - 1, visited + {f}).nodes)
    decreases |todo|
  {
    var front, last := todo[..|todo| - 1], todo[|todo| - 1];
    assert todo == front + [last];
    hide Explore;
    if |todo| == 1 {
      GraftOne(g, depth, last, visited);
    } else {
      GraftFirst(g, depth, front, visited);
      GraftSnoc(g, depth, front, last, visited);
      hide Graft;
    }
  }

  /** The search goes down the way and reaches its end with no step left. */
  lemma {:induction false} WalksDown(h: Graph, p: seq<File>, i: nat)
    requires NoDup(p) && i < |p|
    requires forall j :: 0 <= j < |p| - 1 ==> |Fed(h, p[j])| > 0 && Fed(h, p[j])[0] == p[j + 1]
    ensures var left := |p| - 1 - i;
      At(Node(p[i], 0, Explore(h, p[i], left, Elements(p[..i + 1])).nodes), p[|p| - 1], left)
    decreases |p| - i
  {
    hide Fed, Graft, Explore;
    var left, seen := |p| - 1 - i, Elements(p[..i + 1]);
    if left > 0 {
      ElementsNext(p, i);
      ExploreOpens(h, p[i], left, seen);
      GraftFirst(h, left, Fed(h, p[i]), seen);
      WalksDown(h, p, i + 1);
      var nodes := Explore(h, p[i], left, seen).nodes;
      AtChild(Node(p[i], 0, nodes), nodes[0], p[|p| - 1], left - 1);
    }
  }

  lemma ElementsNext(p: seq<File>, i: nat)
    requires NoDup(p) && i + 1 < |p|
    ensures Elements(p[..i + 2]) == Elements(p[..i + 1]) + {p[i + 1]} && p[i + 1] !in Elements(p[..i + 1])
  {
    var a, b := p[..i + 1], p[..i + 2];
    assert forall k :: 0 <= k < |a| ==> b[k] == a[k];
  }

  // ---- A file has one place in a tree ----

  lemma {:induction false} OneChildHolds(nodes: seq<Node>, c: Node, d: Node, f: File)
    requires NoDup(FilesOfAll(nodes)) && c in nodes && d in nodes && f in Files(c) && f in Files(d)
    ensures c == d
  {
    var front, last := nodes[..|nodes| - 1], nodes[|nodes| - 1];
    var a, b := FilesOfAll(front), Files(last);
    hide Files;
    assert FilesOfAll(nodes) == a + b;
    SplitDistinct(a, b);
    InFilesOfAll(front, f);
    assert nodes == front + [last];
    if c != last && d != last {
      OneChildHolds(front, c, d, f);
    }
  }

  lemma {:induction false} OnePlace(node: Node, f: File, d: nat, e: nat)
    requires NoDup(Files(node)) && At(node, f, d) && At(node, f, e)
    ensures d == e
    decreases d
  {
    if d > 0 && e > 0 {
      var b :| b in node.children && At(b, f, d - 1);
      var c :| c in node.children && At(c, f, e - 1);
      FilesSomewhere(b, f);
      FilesSomewhere(c, f);
      ChildDistinct(node, b);
      assert Files(node)[1..] == FilesOfAll(node.children);
      ChildrenDistinct(node);
      OneChildHolds(node.children, b, c, f);
      OnePlace(b, f, d - 1, e - 1);
    } else if d > 0 {
      var b :| b in node.children && At(b, f, d - 1);
      FilesSomewhere(b, f);
      ChildDistinct(node, b);
    } else if e > 0 {
      var b :| b in node.children && At(b, f, e - 1);
      FilesSomewhere(b, f);
      ChildDistinct(node, b);
    }
  }

  lemma ChildrenDistinct(node: Node)
    requires NoDup(Files(node))
    ensures NoDup(FilesOfAll(node.children))
  {
    var a := FilesOfAll(node.children);
    assert forall i :: 0 <= i < |a| ==> a[i] == Files(node)[i + 1];
  }

  // ---- The exact condition ----

  /** What only a file at the limit feeds is not held. */
  lemma FedAtLimitOnly(h: Graph, file: File, limit: nat, b: File, c: File)
    requires At(Rdeps(h, file, limit), b, limit) && c != file && forall a :: Feeds(h, a, c) ==> a == b
    ensures c !in Files(Rdeps(h, file, limit))
  {
    var root := Rdeps(h, file, limit);
    RdepsIsTree(h, file, limit);
    hide Rdeps, At, Files;
    if c in Files(root) {
      var a, d: nat :| d < limit && At(root, a, d) && Feeds(h, a, c);
      OnePlace(root, b, limit, d);
    }
  }

  lemma EndsAtLimit(g: Graph, file: File, limit: int, p: seq<File>, c: File, low: int)
    requires Under(low, Pids(g)) && LateWay(g, file, limit, p)
    ensures At(Rdeps(Rerouted(g, p, c, low), file, limit), p[limit], limit)
  {
    var h := Rerouted(g, p, c, low);
    hide Rerouted, Explore, At, Within, Fed;
    forall j | 0 <= j < |p| - 1 ensures |Fed(h, p[j])| > 0 && Fed(h, p[j])[0] == p[j + 1] {
      WayComesFirst(g, p, c, low, j);
    }
    WalksDown(h, p, 0);
    assert Elements(p[..1]) == {file};
  }

  lemma OnlyTheEndLeads(g: Graph, file: File, limit: int, p: seq<File>, c: File, low: int)
    requires Under(low, Pids(g)) && LateWay(g, file, limit, p) && NewFile(g, file, c)
    ensures var h := Rerouted(g, p, c, low); forall a :: Feeds(h, a, c) <==> a == p[limit]
  {
    var h := Rerouted(g, p, c, low);
    hide Rerouted, Within;
    assert forall a :: !Feeds(g, a, c);
    assert forall i :: 0 <= i < |p| - 1 ==> Target(p, c, i) != c by {
      forall i | 0 <= i < |p| - 1 ensures Target(p, c, i) != c {
        assert Feeds(g, p[i], p[i + 1]);
      }
    }
    assert Target(p, c, limit) == c;
    forall a ensures Feeds(h, a, c) <==> a == p[limit] {
      ReroutedFeeds(g, p, c, low, a, c);
    }
  }

  /** A late way loses a file: number the processes along it first and let its
      end lead on to a new file. */
  lemma LateWayLoses(g: Graph, file: File, limit: int, p: seq<File>, c: File, low: int)
    requires Under(low, Pids(g)) && LateWay(g, file, limit, p) && NewFile(g, file, c)
    ensures var h := Rerouted(g, p, c, low);
      Within(h, file, c, limit) && c !in Files(Rdeps(h, file, limit))
  {
    var h, b := Rerouted(g, p, c, low), p[limit];
    ReroutedExtends(g, file, limit, p, c, low);
    EndsAtLimit(g, file, limit, p, c, low);
    OnlyTheEndLeads(g, file, limit, p, c, low);
    assert b != c by {
      assert Feeds(g, p[limit - 1], p[limit - 1 + 1]);
    }
    hide Rerouted, Rdeps, At, Files, Within;
    FedAtLimitOnly(h, file, limit, b, c);
    WithinKept(g, h, file, c, b, limit - 1);
    WithinNext(h, file, b, c, limit);
  }

  ghost predicate SafeShape(g: Graph, file: File, limit: int) {
    forall h, c :: Extends(g, h, file, c) ==> Complete(h, file, limit, Rdeps(h, file, limit))
  }

  /** The dependencies of a file are safe under a limit, however the processes
      are numbered and whatever new file they lead to, exactly when no file
      nearer than the limit ends a repeat-free chain of exactly that many steps. */
  lemma SafeExactlyWithoutLateWays(g: Graph, file: File, limit: int)
    ensures SafeShape(g, file, limit) <==> forall p :: !LateWay(g, file, limit, p)
  {
    hide Rdeps, Complete, LateWay, Extends, Detour;
    if p :| LateWay(g, file, limit, p) {
      var c := NewFileExists(g, file);
      var low := BelowAll(Pids(g));
      LateWayUnsafe(g, file, limit, p, c, low);
    } else {
      forall h, c | Extends(g, h, file, c) ensures Complete(h, file, limit, Rdeps(h, file, limit)) {
        NoLateWayIsComplete(g, h, file, c, limit);
      }
    }
  }

  lemma LateWayUnsafe(g: Graph, file: File, limit: int, p: seq<File>, c: File, low: int)
    requires Under(low, Pids(g)) && LateWay(g, file, limit, p) && NewFile(g, file, c)
    ensures !SafeShape(g, file, limit)
  {
    var h := Rerouted(g, p, c, low);
    ReroutedExtends(g, file, limit, p, c, low);
    LateWayLoses(g, file, limit, p, c, low);
    hide Rerouted, Extends, Rdeps, LateWay, Within;
    assert !Complete(h, file, limit, Rdeps(h, file, limit));
  }

  lemma NoLateWayIsComplete(g: Graph, h: Graph, file: File, c: File, limit: int)
    requires Extends(g, h, file, c) && forall p :: !LateWay(g, file, limit, p)
    ensures Complete(h, file, limit, Rdeps(h, file, limit))
  {
    hide Rdeps, Complete, LateWay, Extends, Detour;
    RdepsIsTree(h, file, limit);
    forall p ensures !Detour(h, file, limit, p) {
      if Detour(h, file, limit, p) {
        DetourKept(g, h, file, c, limit, p);
      }
    }
    CompleteWithoutDetours(h, file, limit, Rdeps(h, file, limit));
  }
}
