/** The tree of files that depend on a file: who read it, and what they wrote. */
module ReverseDeps {
  import opened Ordering
  import opened Processes
  import opened DependencyGraph

  datatype Node = Node(file: File, viaPid: Pid, children: seq<Node>)

  /** Some process reads `a` and writes `b`. */
  ghost predicate Feeds(g: Graph, a: File, b: File) {
    exists p :: p in g.Readers(a) && b in g.Outputs(p)
  }

  ghost predicate FeedsIn(g: Graph, a: File, b: File, n: nat)
    decreases n
  {
    if n == 0 then a == b else exists c :: FeedsIn(g, a, c, n - 1) && Feeds(g, c, b)
  }

  ghost predicate Depends(g: Graph, a: File, b: File) {
    exists n: nat :: FeedsIn(g, a, b, n)
  }

  /** `b` is `a` or follows it within `limit` steps. */
  ghost predicate Within(g: Graph, a: File, b: File, limit: int) {
    a == b || exists n: nat :: n <= limit && FeedsIn(g, a, b, n)
  }

  ghost function OutputFiles(g: Graph): (r: set<File>)
    ensures forall p, f :: f in g.Outputs(p) ==> f in r
  {
    set p, f | p in g.outputs && f in g.outputs[p] :: f
  }

  // ---- The search ----

  /** What the readers write, in the order the loops walk it. */
  function FedThrough(g: Graph, readers: seq<Pid>): (fs: seq<File>)
    ensures forall f :: f in fs <==> exists i :: 0 <= i < |readers| && f in g.Outputs(readers[i])
  {
    if readers == [] then []
    else FedThrough(g, readers[..|readers| - 1]) + Alphabetical(g.Outputs(readers[|readers| - 1]))
  }

  function Fed(g: Graph, file: File): seq<File> {
    FedThrough(g, Ascending(g.Readers(file)))
  }

  datatype Grown = Grown(nodes: seq<Node>, visited: set<File>)

  /** The subtrees below `file`, with `depth` steps left. */
  function Explore(g: Graph, file: File, depth: nat, visited: set<File>): Grown
    decreases depth, 1, 0
  {
    if depth == 0 then Grown([], visited) else Graft(g, depth, Fed(g, file), visited)
  }

  /** One subtree for each file of `todo` not visited by the time its turn comes. */
  function Graft(g: Graph, depth: nat, todo: seq<File>, visited: set<File>): Grown
    requires depth > 0
    decreases depth, 0, |todo|
  {
    if todo == [] then Grown([], visited)
    else
      var front, f := Graft(g, depth, todo[..|todo| - 1], visited), todo[|todo| - 1];
      if f in front.visited then front
      else
        var below := Explore(g, f, depth - 1, front.visited + {f});
        Grown(front.nodes + [Node(f, 0, below.nodes)], below.visited)
  }

  function Steps(limit: int): nat {
    if limit > 0 then limit else 0
  }

  function Rdeps(g: Graph, file: File, limit: int): Node {
    Node(file, 0, Explore(g, file, Steps(limit), {file}).nodes)
  }

  lemma GraftSnoc(g: Graph, depth: nat, todo: seq<File>, f: File, visited: set<File>)
    requires depth > 0
    ensures var front := Graft(g, depth, todo, visited);
      Graft(g, depth, todo + [f], visited) ==
        if f in front.visited then front
        else
          var below := Explore(g, f, depth - 1, front.visited + {f});
          Grown(front.nodes + [Node(f, 0, below.nodes)], below.visited)
  {
    assert (todo + [f])[..|todo|] == todo;
  }

  lemma GraftNext(g: Graph, depth: nat, done: seq<File>, outputs: seq<File>, j: nat, before: set<File>,
      nodes: seq<Node>, visited: set<File>)
    requires depth > 0 && j < |outputs| && Grown(nodes, visited) == Graft(g, depth, done + outputs[..j], before)
    ensures var below := Explore(g, outputs[j], Steps(depth - 1), visited + {outputs[j]});
      Graft(g, depth, done + outputs[..j + 1], before) ==
        if outputs[j] in visited then Grown(nodes, visited)
        else Grown(nodes + [Node(outputs[j], 0, below.nodes)], below.visited)
  {
    GraftSnoc(g, depth, done + outputs[..j], outputs[j], before);
    assert done + outputs[..j] + [outputs[j]] == done + outputs[..j + 1];
  }

  method Expand(g: Graph, file: File, depth: int, visited0: set<File>) returns (node: Node, visited: set<File>)
    ensures node == Node(file, 0, Explore(g, file, Steps(depth), visited0).nodes)
    ensures visited == Explore(g, file, Steps(depth), visited0).visited
    decreases Steps(depth), 1
  {
    visited := visited0;
    node := Node(file, 0, []);
    if depth <= 0 {
      return;
    }
    var nodes: seq<Node> := [];
    var readers := Ascending(g.Readers(file));
    for i := 0 to |readers|
      invariant Grown(nodes, visited) == Graft(g, depth, FedThrough(g, readers[..i]), visited0)
    {
      assert readers[..i + 1][..i] == readers[..i];
      hide Graft;
      nodes, visited := ExpandReader(g, depth, FedThrough(g, readers[..i]), visited0, readers[i], nodes, visited);
    }
    assert readers[..|readers|] == readers;
    node := Node(file, 0, nodes);
  }

  /** Continues a search through `done` with the files one more reader wrote. */
  method ExpandReader(g: Graph, depth: nat, ghost done: seq<File>, ghost before: set<File>, reader: Pid,
      nodes0: seq<Node>, visited0: set<File>) returns (nodes: seq<Node>, visited: set<File>)
    requires depth > 0 && Grown(nodes0, visited0) == Graft(g, depth, done, before)
    ensures Grown(nodes, visited) == Graft(g, depth, done + Alphabetical(g.Outputs(reader)), before)
    decreases depth, 0
  {
    nodes, visited := nodes0, visited0;
    var outputs := Alphabetical(g.Outputs(reader));
    assert done + outputs[..0] == done;
    for j := 0 to |outputs|
      invariant Grown(nodes, visited) == Graft(g, depth, done + outputs[..j], before)
    {
      hide Graft, Explore, Steps, Alphabetical, Enumerates;
      GraftNext(g, depth, done, outputs, j, before, nodes, visited);
      if outputs[j] !in visited {
        var child;
        child, visited := Expand(g, outputs[j], depth - 1, visited + {outputs[j]});
        nodes := nodes + [child];
      }
    }
    assert outputs[..|outputs|] == outputs;
  }

  // ---- Trees ----

  function Files(node: Node): seq<File> {
    [node.file] + FilesOfAll(node.children)
  }

  function FilesOfAll(nodes: seq<Node>): seq<File> {
    if nodes == [] then [] else FilesOfAll(nodes[..|nodes| - 1]) + Files(nodes[|nodes| - 1])
  }

  /** At most `depth` steps below the root. */
  ghost predicate NoDeeper(node: Node, depth: int) {
    forall c :: c in node.children ==> depth > 0 && NoDeeper(c, depth - 1)
  }

  ghost predicate RealEdges(g: Graph, node: Node) {
    forall c :: c in node.children ==> Feeds(g, node.file, c.file) && RealEdges(g, c)
  }

  /** The process an edge goes through is not kept. */
  ghost predicate NoVia(node: Node) {
    node.viaPid == 0 && forall c :: c in node.children ==> NoVia(c)
  }

  /** Whatever a node above the limit feeds is in `all`. */
  ghost predicate Opened(g: Graph, node: Node, depth: int, all: set<File>) {
    && (depth > 0 ==> forall b :: Feeds(g, node.file, b) ==> b in all)
    && forall c :: c in node.children ==> Opened(g, c, depth - 1, all)
  }

  ghost predicate Built(g: Graph, node: Node, depth: int, all: set<File>) {
    RealEdges(g, node) && NoDeeper(node, depth) && NoVia(node) && Opened(g, node, depth, all)
  }

  ghost predicate AllBuilt(g: Graph, file: File, depth: int, nodes: seq<Node>, all: set<File>) {
    forall c :: c in nodes ==> Feeds(g, file, c.file) && Built(g, c, depth, all)
  }

  /** The subtrees hold exactly the newly visited files, each once. */
  ghost predicate HoldsNew(nodes: seq<Node>, before: set<File>, after: set<File>) {
    && before <= after
    && NoDup(FilesOfAll(nodes))
    && (forall f :: f in FilesOfAll(nodes) <==> f in after && f !in before)
  }

  lemma FilesOfAllSnoc(nodes: seq<Node>, node: Node)
    ensures FilesOfAll(nodes + [node]) == FilesOfAll(nodes) + Files(node)
  {
    assert (nodes + [node])[..|nodes|] == nodes;
  }

  /** Adding the subtree of a newly visited file. */
  lemma AddSubtree(nodes: seq<Node>, before: set<File>, visited: set<File>, child: Node, after: set<File>)
    requires HoldsNew(nodes, before, visited) && child.file !in visited
    requires HoldsNew(child.children, visited + {child.file}, after)
    ensures HoldsNew(nodes + [child], before, after)
  {
    FilesOfAllSnoc(nodes, child);
    var a, b := FilesOfAll(nodes), Files(child);
    assert forall f :: f in b <==> f == child.file || f in FilesOfAll(child.children);
    assert NoDup([child.file]);
    NoDupJoin([child.file], FilesOfAll(child.children));
    NoDupJoin(a, b);
  }

  lemma {:induction false} OpenedMore(g: Graph, node: Node, depth: int, all: set<File>, more: set<File>)
    requires Opened(g, node, depth, all) && all <= more
    ensures Opened(g, node, depth, more)
  {
    forall c | c in node.children ensures Opened(g, c, depth - 1, more) {
      OpenedMore(g, c, depth - 1, all, more);
    }
  }

  lemma AllBuiltMore(g: Graph, file: File, depth: int, nodes: seq<Node>, all: set<File>, more: set<File>)
    requires AllBuilt(g, file, depth, nodes, all) && all <= more
    ensures AllBuilt(g, file, depth, nodes, more)
  {
    forall c | c in nodes ensures Built(g, c, depth, more) {
      OpenedMore(g, c, depth, all, more);
    }
  }

  lemma FedFeeds(g: Graph, file: File, b: File)
    ensures b in Fed(g, file) <==> Feeds(g, file, b)
  {
    var readers := Ascending(g.Readers(file));
    if Feeds(g, file, b) {
      var p :| p in g.Readers(file) && b in g.Outputs(p);
      assert p in readers;
    }
    if b in Fed(g, file) {
      var i :| 0 <= i < |readers| && b in g.Outputs(readers[i]);
      assert readers[i] in readers;
    }
  }

  // ---- What the search builds ----

  ghost predicate Sound(g: Graph, file: File, depth: nat, visited: set<File>, e: Grown) {
    && HoldsNew(e.nodes, visited, e.visited)
    && AllBuilt(g, file, depth - 1, e.nodes, e.visited)
    && (depth == 0 ==> e.nodes == [])
  }

  lemma {:induction false} ExploreSound(g: Graph, file: File, depth: nat, visited: set<File>)
    ensures var e := Explore(g, file, depth, visited);
      && Sound(g, file, depth, visited, e)
      && (depth > 0 ==> forall b :: Feeds(g, file, b) ==> b in e.visited)
    decreases depth, 1, 0
  {
    if depth > 0 {
      forall b ensures b in Fed(g, file) <==> Feeds(g, file, b) {
        FedFeeds(g, file, b);
      }
      GraftSound(g, file, depth, Fed(g, file), visited);
    }
  }

  lemma {:induction false} GraftSound(g: Graph, file: File, depth: nat, todo: seq<File>, visited: set<File>)
    requires depth > 0 && forall f :: f in todo ==> Feeds(g, file, f)
    ensures var e := Graft(g, depth, todo, visited);
      Sound(g, file, depth, visited, e) && forall f :: f in todo ==> f in e.visited
    decreases depth, 0, |todo|
  {
    if todo != [] {
      var rest, f := todo[..|todo| - 1], todo[|todo| - 1];
      assert todo == rest + [f];
      GraftSound(g, file, depth, rest, visited);
      var front := Graft(g, depth, rest, visited);
      if f !in front.visited {
        ExploreSound(g, f, depth - 1, front.visited + {f});
        var below := Explore(g, f, depth - 1, front.visited + {f});
        hide Graft, Explore;
        SubtreeJoins(g, file, depth, visited, front, f, below);
        GraftSnoc(g, depth, rest, f, visited);
      }
    }
  }

  lemma SubtreeJoins(g: Graph, file: File, depth: nat, visited: set<File>, front: Grown, f: File, below: Grown)
    requires depth > 0 && Sound(g, file, depth, visited, front) && f !in front.visited && Feeds(g, file, f)
    requires Sound(g, f, depth - 1, front.visited + {f}, below)
    requires depth > 1 ==> forall b :: Feeds(g, f, b) ==> b in below.visited
    ensures Sound(g, file, depth, visited, Grown(front.nodes + [Node(f, 0, below.nodes)], below.visited))
  {
    var child := Node(f, 0, below.nodes);
    AddSubtree(front.nodes, visited, front.visited, child, below.visited);
    AllBuiltMore(g, file, depth - 1, front.nodes, front.visited, below.visited);
    hide HoldsNew, Feeds;
    assert Built(g, child, depth - 1, below.visited);
  }

  // ---- The order of the children ----

  function Tops(nodes: seq<Node>): seq<File> {
    if nodes == [] then [] else Tops(nodes[..|nodes| - 1]) + [nodes[|nodes| - 1].file]
  }

  /** `a` is what is left of `b` after leaving some items out. */
  predicate Subsequence(a: seq<File>, b: seq<File>) {
    if a == [] then true
    else if b == [] then false
    else if a[|a| - 1] == b[|b| - 1] then Subsequence(a[..|a| - 1], b[..|b| - 1])
    else Subsequence(a, b[..|b| - 1])
  }

  /** Children stand in the order of the loops: by the number of the reader, then
      alphabetically by the file it wrote. */
  ghost predicate InOrder(g: Graph, node: Node) {
    && Subsequence(Tops(node.children), Fed(g, node.file))
    && forall c :: c in node.children ==> InOrder(g, c)
  }

  lemma {:induction false} SkipLast(a: seq<File>, b: seq<File>, f: File)
    requires Subsequence(a, b)
    ensures Subsequence(a, b + [f])
    decreases |b|, 1
  {
    assert (b + [f])[..|b|] == b;
    if a != [] {
      DropLast(a, b);
    }
  }

  lemma {:induction false} DropLast(a: seq<File>, b: seq<File>)
    requires a != [] && Subsequence(a, b)
    ensures Subsequence(a[..|a| - 1], b)
    decreases |b|, 0
  {
    var front := b[..|b| - 1];
    assert b == front + [b[|b| - 1]];
    if a[|a| - 1] != b[|b| - 1] {
      DropLast(a, front);
    }
    SkipLast(a[..|a| - 1], front, b[|b| - 1]);
  }

  lemma TakeLast(nodes: seq<Node>, node: Node, b: seq<File>)
    requires Subsequence(Tops(nodes), b)
    ensures Subsequence(Tops(nodes + [node]), b + [node.file])
  {
    assert (nodes + [node])[..|nodes|] == nodes && (b + [node.file])[..|b|] == b;
    assert (Tops(nodes) + [node.file])[..|Tops(nodes)|] == Tops(nodes);
  }

  lemma {:induction false} ExploreInOrder(g: Graph, file: File, depth: nat, visited: set<File>)
    ensures var e := Explore(g, file, depth, visited);
      Subsequence(Tops(e.nodes), Fed(g, file)) && forall c :: c in e.nodes ==> InOrder(g, c)
    decreases depth, 1, 0
  {
    if depth > 0 {
      GraftInOrder(g, depth, Fed(g, file), visited);
    }
  }

  lemma {:induction false} GraftInOrder(g: Graph, depth: nat, todo: seq<File>, visited: set<File>)
    requires depth > 0
    ensures var e := Graft(g, depth, todo, visited);
      Subsequence(Tops(e.nodes), todo) && forall c :: c in e.nodes ==> InOrder(g, c)
    decreases depth, 0, |todo|
  {
    if todo != [] {
      var rest, f := todo[..|todo| - 1], todo[|todo| - 1];
      assert todo == rest + [f];
      GraftInOrder(g, depth, rest, visited);
      var front := Graft(g, depth, rest, visited);
      SkipLast(Tops(front.nodes), rest, f);
      if f !in front.visited {
        ExploreInOrder(g, f, depth - 1, front.visited + {f});
        var below := Explore(g, f, depth - 1, front.visited + {f});
        hide Graft, Explore, Subsequence, Fed, Tops;
        GraftSnoc(g, depth, rest, f, visited);
        TakeLast(front.nodes, Node(f, 0, below.nodes), rest);
      }
    }
  }

  /** In the whole tree children keep that order. */
  lemma ChildrenInOrder(g: Graph, file: File, limit: int)
    ensures InOrder(g, Rdeps(g, file, limit))
  {
    ExploreInOrder(g, file, Steps(limit), {file});
  }

  // ---- Where a file stands in a tree ----

  /** `f` stands `d` steps below the root of the tree. */
  ghost predicate At(node: Node, f: File, d: nat)
    decreases d
  {
    if d == 0 then node.file == f else exists c :: c in node.children && At(c, f, d - 1)
  }

  ghost predicate Somewhere(node: Node, f: File) {
    exists d: nat :: At(node, f, d)
  }

  lemma AtChild(node: Node, c: Node, f: File, d: nat)
    requires c in node.children && At(c, f, d)
    ensures At(node, f, d + 1)
  {
  }

  lemma {:induction false} InFilesOfAll(nodes: seq<Node>, f: File)
    ensures f in FilesOfAll(nodes) <==> exists c :: c in nodes && f in Files(c)
  {
    if nodes != [] {
      var front, last := nodes[..|nodes| - 1], nodes[|nodes| - 1];
      InFilesOfAll(front, f);
      assert nodes == front + [last];
      hide Files;
      if f in Files(last) {
        assert last in nodes;
      } else if f in FilesOfAll(nodes) {
        var c :| c in front && f in Files(c);
        assert c in nodes;
      }
    }
  }

  lemma {:induction false} FilesSomewhere(node: Node, f: File)
    ensures f in Files(node) <==> Somewhere(node, f)
    decreases node
  {
    InFilesOfAll(node.children, f);
    forall c | c in node.children ensures f in Files(c) <==> Somewhere(c, f) {
      FilesSomewhere(c, f);
    }
    assert f in Files(node) <==> f == node.file || exists c :: c in node.children && f in Files(c);
    hide Files;
    if node.file == f {
      assert At(node, f, 0);
    } else if c :| c in node.children && f in Files(c) {
      var d: nat :| At(c, f, d);
      AtChild(node, c, f, d);
    } else if d: nat :| At(node, f, d) {
      ghost var c :| c in node.children && At(c, f, d - 1);
      assert Somewhere(c, f);
    }
  }

  lemma {:induction false} AtBound(node: Node, depth: int, f: File, d: nat)
    requires NoDeeper(node, depth) && At(node, f, d)
    ensures d == 0 || d <= depth
    decreases d
  {
    if d > 0 {
      var c :| c in node.children && At(c, f, d - 1);
      AtBound(c, depth - 1, f, d - 1);
    }
  }

  lemma {:induction false} AtOpened(g: Graph, node: Node, depth: int, all: set<File>, f: File, d: nat, b: File)
    requires Opened(g, node, depth, all) && At(node, f, d) && d < depth && Feeds(g, f, b)
    ensures b in all
    decreases d
  {
    if d > 0 {
      var c :| c in node.children && At(c, f, d - 1);
      AtOpened(g, c, depth - 1, all, f, d - 1, b);
    }
  }

  /** A chain of steps that meets no file twice. */
  ghost predicate Chain(g: Graph, p: seq<File>) {
    |p| > 0 && NoDup(p) && forall i :: 0 <= i < |p| - 1 ==> Feeds(g, p[i], p[i + 1])
  }

  /** The way down to a place in a tree is such a chain. */
  lemma {:induction false} WayDown(g: Graph, node: Node, f: File, d: nat) returns (p: seq<File>)
    requires RealEdges(g, node) && NoDup(Files(node)) && At(node, f, d)
    ensures |p| == d + 1 && p[0] == node.file && p[d] == f && Chain(g, p)
    ensures forall x :: x in p ==> x in Files(node)
    decreases d
  {
    if d == 0 {
      p := [f];
    } else {
      var c :| c in node.children && At(c, f, d - 1);
      ChildDistinct(node, c);
      var rest := WayDown(g, c, f, d - 1);
      hide Files, RealEdges, At;
      p := [node.file] + rest;
      assert Feeds(g, p[0], p[1]);
      assert forall i :: 1 <= i < |p| - 1 ==> p[i] == rest[i - 1] && p[i + 1] == rest[i];
      NoDupJoin([node.file], rest);
    }
  }

  lemma SplitDistinct(a: seq<File>, b: seq<File>)
    requires NoDup(a + b)
    ensures NoDup(a) && NoDup(b) && forall x :: x in a ==> x !in b
  {
    assert forall i :: 0 <= i < |a| ==> (a + b)[i] == a[i];
    assert forall j :: 0 <= j < |b| ==> (a + b)[|a| + j] == b[j];
    forall i, j | 0 <= i < |a| && 0 <= j < |b| ensures a[i] != b[j] {
      assert (a + b)[i] != (a + b)[|a| + j];
    }
  }

  lemma ChildDistinct(node: Node, c: Node)
    requires NoDup(Files(node)) && c in node.children
    ensures NoDup(Files(c)) && node.file !in Files(c)
    ensures forall x :: x in Files(c) ==> x in Files(node)
  {
    SplitDistinct([node.file], FilesOfAll(node.children));
    assert node.file in [node.file];
    forall x | x in Files(c) ensures x in FilesOfAll(node.children) {
      InFilesOfAll(node.children, x);
    }
    OneOfDistinct(node.children, c);
  }

  lemma {:induction false} OneOfDistinct(nodes: seq<Node>, c: Node)
    requires NoDup(FilesOfAll(nodes)) && c in nodes
    ensures NoDup(Files(c))
  {
    var front, last := nodes[..|nodes| - 1], nodes[|nodes| - 1];
    var a, b := FilesOfAll(front), Files(last);
    SplitDistinct(a, b);
    if c != last {
      assert c in front;
      OneOfDistinct(front, c);
    }
  }

  lemma {:induction false} WayIsSteps(g: Graph, node: Node, f: File, d: nat, root: File, n: nat)
    requires RealEdges(g, node) && At(node, f, d) && FeedsIn(g, root, node.file, n)
    ensures FeedsIn(g, root, f, n + d)
    decreases d
  {
    if d > 0 {
      var c :| c in node.children && At(c, f, d - 1);
      assert FeedsIn(g, root, c.file, n + 1);
      WayIsSteps(g, c, f, d - 1, root, n + 1);
    }
  }

  // ---- What a tree holds ----

  ghost predicate TreeOf(g: Graph, file: File, limit: int, root: Node) {
    && root.file == file && NoDup(Files(root)) && NoVia(root) && RealEdges(g, root) && NoDeeper(root, limit)
    && forall b :: b in Files(root) <==> b == file || exists a, d: nat :: d < limit && At(root, a, d) && Feeds(g, a, b)
  }

  /** Every file once, real edges, nothing below the limit; a file other than the
      root is held exactly when a file held above the limit feeds it. */
  lemma RdepsIsTree(g: Graph, file: File, limit: int)
    ensures TreeOf(g, file, limit, Rdeps(g, file, limit))
  {
    var root := Rdeps(g, file, limit);
    var e := Explore(g, file, Steps(limit), {file});
    ExploreSound(g, file, Steps(limit), {file});
    assert NoDup([file]);
    NoDupJoin([file], FilesOfAll(root.children));
    assert forall f :: f in Files(root) <==> f in e.visited;
    assert Opened(g, root, limit, e.visited) && NoDeeper(root, limit) && RealEdges(g, root) && NoVia(root);
    hide Explore, Rdeps, Files, FilesOfAll;
    forall a, d: nat, b | d < limit && At(root, a, d) && Feeds(g, a, b) ensures b in Files(root) {
      AtOpened(g, root, limit, e.visited, a, d, b);
    }
    forall b | b in Files(root) && b != file
      ensures exists a, d: nat :: d < limit && At(root, a, d) && Feeds(g, a, b)
    {
      FilesSomewhere(root, b);
      var d: nat :| At(root, b, d);
      AtBound(root, limit, b, d);
      var a := Above(g, root, b, d);
      assert d - 1 < limit && At(root, a, d - 1) && Feeds(g, a, b);
    }
  }

  lemma {:induction false} Above(g: Graph, node: Node, f: File, d: nat) returns (a: File)
    requires RealEdges(g, node) && At(node, f, d) && d > 0
    ensures At(node, a, d - 1) && Feeds(g, a, f)
    decreases d
  {
    var c :| c in node.children && At(c, f, d - 1);
    if d == 1 {
      a := node.file;
    } else {
      a := Above(g, c, f, d - 1);
      AtChild(node, c, a, d - 2);
    }
  }

  lemma HeldIsWithin(g: Graph, file: File, limit: int, root: Node, f: File)
    requires TreeOf(g, file, limit, root) && f in Files(root)
    ensures Within(g, file, f, limit)
  {
    hide Files;
    FilesSomewhere(root, f);
    var d: nat :| At(root, f, d);
    AtBound(root, limit, f, d);
    assert FeedsIn(g, file, file, 0);
    WayIsSteps(g, root, f, d, file, 0);
  }

  /** The tree holds every file within the limit. */
  ghost predicate Complete(g: Graph, file: File, limit: int, root: Node) {
    forall f :: f in Files(root) <==> Within(g, file, f, limit)
  }

  /** `b` is nearer than the limit, stands at the limit in the tree, and feeds a
      file the tree does not hold. */
  ghost predicate CutOff(g: Graph, file: File, limit: int, root: Node, b: File, c: File) {
    limit > 0 && At(root, b, limit) && Within(g, file, b, limit - 1) && Feeds(g, b, c) && c !in Files(root)
  }

  lemma WithinNext(g: Graph, file: File, b: File, c: File, limit: int)
    requires limit > 0 && Within(g, file, b, limit - 1) && Feeds(g, b, c)
    ensures Within(g, file, c, limit)
  {
    var n: nat := 0;
    if file != b {
      n :| n <= limit - 1 && FeedsIn(g, file, b, n);
    }
    assert FeedsIn(g, file, b, n);
    assert FeedsIn(g, file, c, n + 1);
  }

  lemma {:induction false} ReachedUnlessCut(g: Graph, file: File, limit: int, root: Node, f: File, n: nat)
    requires TreeOf(g, file, limit, root) && FeedsIn(g, file, f, n) && n <= limit
    requires forall b, c :: !CutOff(g, file, limit, root, b, c)
    ensures f in Files(root)
    decreases n
  {
    if n > 0 {
      var a :| FeedsIn(g, file, a, n - 1) && Feeds(g, a, f);
      ReachedUnlessCut(g, file, limit, root, a, n - 1);
      FilesSomewhere(root, a);
      var d: nat :| At(root, a, d);
      AtBound(root, limit, a, d);
      hide Files, At;
      if d == limit {
        assert Within(g, file, a, limit - 1);
        assert !CutOff(g, file, limit, root, a, f);
      }
    }
  }

  /** The tree is complete exactly when no file met at the limit was met too late. */
  lemma CompleteUnlessCut(g: Graph, file: File, limit: int, root: Node)
    requires TreeOf(g, file, limit, root)
    ensures Complete(g, file, limit, root) <==> forall b, c :: !CutOff(g, file, limit, root, b, c)
  {
    hide Files, At;
    if forall b, c :: !CutOff(g, file, limit, root, b, c) {
      forall f ensures f in Files(root) <==> Within(g, file, f, limit) {
        if f in Files(root) {
          HeldIsWithin(g, file, limit, root, f);
        } else if Within(g, file, f, limit) && f != file {
          var n: nat :| n <= limit && FeedsIn(g, file, f, n);
          ReachedUnlessCut(g, file, limit, root, f, n);
        }
      }
    } else {
      var b, c :| CutOff(g, file, limit, root, b, c);
      WithinNext(g, file, b, c, limit);
    }
  }

  /** A chain of exactly `limit` steps to a file that is nearer than the limit:
      the search may meet that file first this way. */
  ghost predicate LateWay(g: Graph, file: File, limit: int, p: seq<File>) {
    |p| - 1 == limit > 0 && p[0] == file && Chain(g, p) && Within(g, file, p[limit], limit - 1)
  }

  /** It matters only if that file feeds a file off the chain. */
  ghost predicate Detour(g: Graph, file: File, limit: int, p: seq<File>) {
    LateWay(g, file, limit, p) && exists c :: Feeds(g, p[limit], c) && c !in p
  }

  lemma CutOffIsDetour(g: Graph, file: File, limit: int, root: Node, b: File, c: File)
    requires TreeOf(g, file, limit, root) && CutOff(g, file, limit, root, b, c)
    ensures exists p :: Detour(g, file, limit, p)
  {
    hide Files, At;
    var p := WayDown(g, root, b, limit);
    assert c !in p;
    assert Detour(g, file, limit, p);
  }

  /** Without detours in the graph, the tree holds exactly the files within the limit. */
  lemma CompleteWithoutDetours(g: Graph, file: File, limit: int, root: Node)
    requires TreeOf(g, file, limit, root) && forall p :: !Detour(g, file, limit, p)
    ensures Complete(g, file, limit, root)
  {
    hide Files, At, Complete;
    forall b, c ensures !CutOff(g, file, limit, root, b, c) {
      if CutOff(g, file, limit, root, b, c) {
        CutOffIsDetour(g, file, limit, root, b, c);
      }
    }
    CompleteUnlessCut(g, file, limit, root);
  }

  // ---- Limits that lose nothing ----

  /** Up to one step there is no room for a detour. */
  lemma NoDetourAtOne(g: Graph, file: File, limit: int, p: seq<File>)
    requires limit <= 1
    ensures !Detour(g, file, limit, p)
  {
    if limit == 1 && |p| == 2 {
      assert NoDup(p) ==> p[0] != p[1];
      OnlyItself(g, file, p[1]);
    }
  }

  lemma OnlyItself(g: Graph, a: File, b: File)
    ensures Within(g, a, b, 0) <==> a == b
  {
  }

  ghost function Elements(p: seq<File>): set<File> {
    set i | 0 <= i < |p| :: p[i]
  }

  lemma {:induction false} CountDistinct(p: seq<File>)
    requires NoDup(p)
    ensures |Elements(p)| == |p|
  {
    if p != [] {
      var front, last := p[..|p| - 1], p[|p| - 1];
      CountDistinct(front);
      assert Elements(p) == Elements(front) + {last};
      assert last !in Elements(front);
    }
  }

  lemma {:induction false} FullSubset(a: set<File>, b: set<File>)
    requires a <= b && |a| >= |b|
    ensures a == b
    decreases a
  {
    if a != {} {
      var x := Pick(a);
      FullSubset(a - {x}, b - {x});
      assert a == (a - {x}) + {x} && b == (b - {x}) + {x};
    }
  }

  /** A chain as long as there are output files has met them all. */
  lemma LongChainMeetsAll(g: Graph, p: seq<File>, c: File)
    requires Chain(g, p) && |p| - 1 >= |OutputFiles(g)| && c in OutputFiles(g)
    ensures c in p
  {
    var rest := p[1..];
    assert NoDup(rest) by {
      assert forall i :: 0 <= i < |rest| ==> rest[i] == p[i + 1];
    }
    CountDistinct(rest);
    forall f | f in Elements(rest) ensures f in OutputFiles(g) {
      var i :| 0 <= i < |rest| && rest[i] == f;
      assert Feeds(g, p[i], p[i + 1]);
    }
    FullSubset(Elements(rest), OutputFiles(g));
    var i :| 0 <= i < |rest| && rest[i] == c;
    assert p[i + 1] == c;
  }

  /** Nothing held feeds a file that is not held, once the limit reaches the number of output files. */
  lemma ClosedWhenAmple(g: Graph, file: File, limit: int, root: Node, a: File, b: File)
    requires TreeOf(g, file, limit, root) && limit >= |OutputFiles(g)| && a in Files(root) && Feeds(g, a, b)
    ensures b in Files(root)
  {
    FilesSomewhere(root, a);
    var d: nat :| At(root, a, d);
    hide Files, At, OutputFiles;
    AtBound(root, limit, a, d);
    if d == limit {
      var p := WayDown(g, root, a, d);
      LongChainMeetsAll(g, p, b);
    }
  }

  lemma {:induction false} AllDependWhenAmple(g: Graph, file: File, limit: int, root: Node, f: File, n: nat)
    requires TreeOf(g, file, limit, root) && limit >= |OutputFiles(g)| && FeedsIn(g, file, f, n)
    ensures f in Files(root)
    decreases n
  {
    if n > 0 {
      var a :| FeedsIn(g, file, a, n - 1) && Feeds(g, a, f);
      AllDependWhenAmple(g, file, limit, root, a, n - 1);
      ClosedWhenAmple(g, file, limit, root, a, f);
    }
  }

  method ComputeRdeps(g: Graph, file: File, depth: int) returns (root: Node)
    ensures root == Rdeps(g, file, depth) && TreeOf(g, file, depth, root)
    ensures forall f :: f in Files(root) ==> Within(g, file, f, depth) && Depends(g, file, f)
    ensures forall f :: Feeds(g, file, f) && depth > 0 ==> f in Files(root)
    ensures Complete(g, file, depth, root) <==> forall b, c :: !CutOff(g, file, depth, root, b, c)
    ensures (forall p :: !Detour(g, file, depth, p)) ==> Complete(g, file, depth, root)
    ensures depth >= |OutputFiles(g)| ==> forall f :: f in Files(root) <==> Depends(g, file, f)
  {
    var visited := {file};
    root, visited := Expand(g, file, depth, visited);
    RdepsIsTree(g, file, depth);
    assert At(root, file, 0);
    hide Rdeps, Files, At, Complete, CutOff, Detour;
    forall f | f in Files(root) ensures Within(g, file, f, depth) && Depends(g, file, f) {
      HeldIsWithin(g, file, depth, root, f);
      assert FeedsIn(g, file, file, 0);
    }
    CompleteUnlessCut(g, file, depth, root);
    if forall p :: !Detour(g, file, depth, p) {
      CompleteWithoutDetours(g, file, depth, root);
    }
    if depth >= |OutputFiles(g)| {
      forall f | Depends(g, file, f) ensures f in Files(root) {
        var n: nat :| FeedsIn(g, file, f, n);
        AllDependWhenAmple(g, file, depth, root, f, n);
      }
    }
  }
}
