/** Which processes a set of changed files makes stale, and why. */
module RebuildClosure {
  import opened Ordering
  import opened Processes
  import opened DependencyGraph

  // ---- What has to be rebuilt ----

  ghost predicate ReadsChanged(g: Graph, changed: set<File>, p: Pid) {
    exists f :: f in changed && p in g.Readers(f)
  }

  ghost predicate ReadsOutputOf(g: Graph, src: Pid, p: Pid) {
    exists f :: f in g.Outputs(src) && p in g.Readers(f)
  }

  /** `xs` holds every reader of a changed file and is closed under reading a
      member's output. */
  ghost predicate Accounts(g: Graph, changed: set<File>, xs: set<Pid>) {
    && (forall p :: ReadsChanged(g, changed, p) ==> p in xs)
    && (forall s, p :: s in xs && ReadsOutputOf(g, s, p) ==> p in xs)
  }

  ghost predicate Least(g: Graph, changed: set<File>, xs: set<Pid>) {
    Accounts(g, changed, xs) && forall ys :: Accounts(g, changed, ys) ==> xs <= ys
  }

  /** `p` is at the end of a chain of at most `n` reads of outputs that starts
      at a reader of a changed file. */
  ghost predicate Stale(g: Graph, changed: set<File>, p: Pid, n: nat)
    decreases n
  {
    ReadsChanged(g, changed, p) || (n > 0 && exists s :: Stale(g, changed, s, n - 1) && ReadsOutputOf(g, s, p))
  }

  ghost predicate IsStale(g: Graph, changed: set<File>, p: Pid) {
    exists n: nat :: Stale(g, changed, p, n)
  }

  lemma {:induction false} StaleIsAccounted(g: Graph, changed: set<File>, p: Pid, n: nat, xs: set<Pid>)
    requires Accounts(g, changed, xs) && Stale(g, changed, p, n)
    ensures p in xs
    decreases n
  {
    if !ReadsChanged(g, changed, p) {
      var s :| Stale(g, changed, s, n - 1) && ReadsOutputOf(g, s, p);
      StaleIsAccounted(g, changed, s, n - 1, xs);
    }
  }

  ghost function AllReaders(g: Graph): (r: set<Pid>)
    ensures forall f, p :: p in g.Readers(f) ==> p in r
  {
    set f, p | f in g.readers && p in g.readers[f] :: p
  }

  // ---- The closure ----

  datatype Wave = Wave(affected: set<Pid>, work: seq<Pid>)

  ghost predicate Queued(w: Wave) {
    NoDup(w.work) && forall p :: p in w.work ==> p in w.affected
  }

  /** Members whose outputs have been followed. */
  ghost function Settled(w: Wave): set<Pid> {
    set p | p in w.affected && p !in w.work
  }

  ghost predicate Progress(g: Graph, w: Wave) {
    && Queued(w) && w.affected <= AllReaders(g)
    && (forall s, p :: s in Settled(w) && ReadsOutputOf(g, s, p) ==> p in w.affected)
  }

  /** Every member has a chain of reads from a changed file. */
  ghost predicate OnlyStale(g: Graph, changed: set<File>, w: Wave) {
    forall p :: p in w.affected ==> IsStale(g, changed, p)
  }

  /** `v` is `w` with the processes satisfying `more` added and queued if new. */
  ghost predicate Grown(w: Wave, more: set<Pid>, v: Wave) {
    && v.affected == w.affected + more
    && Queued(v)
    && (forall p :: p in v.work <==> p in w.work || (p in more && p !in w.affected))
  }

  method Mark(w0: Wave, readers: set<Pid>) returns (w: Wave)
    requires Queued(w0)
    ensures Grown(w0, readers, w)
  {
    w := w0;
    var rs := Ascending(readers);
    ghost var seen: set<Pid> := {};
    for i := 0 to |rs|
      invariant forall p :: p in seen <==> p in rs[..i]
      invariant Grown(w0, seen, w)
    {
      assert rs[..i + 1] == rs[..i] + [rs[i]];
      if rs[i] !in w.affected {
        w := Wave(w.affected + {rs[i]}, w.work + [rs[i]]);
      }
      seen := seen + {rs[i]};
    }
    assert rs[..|rs|] == rs;
    assert forall p :: p in seen <==> p in readers;
  }

  ghost function ReadersOf(g: Graph, files: set<File>): (r: set<Pid>)
    ensures forall p :: p in r <==> exists f :: f in files && p in g.Readers(f)
    ensures r <= AllReaders(g)
  {
    set f, p | f in files && p in g.Readers(f) :: p
  }

  lemma ReadersOfMore(g: Graph, files: set<File>, f: File)
    ensures ReadersOf(g, files + {f}) == ReadersOf(g, files) + g.Readers(f)
  {
  }

  lemma GrownTwice(u: Wave, a: set<Pid>, v: Wave, b: set<Pid>, w: Wave)
    requires Grown(u, a, v) && Grown(v, b, w)
    ensures Grown(u, a + b, w)
  {
  }

  /** Marks the readers of every file in a set, in any order. */
  method MarkFiles(g: Graph, files: set<File>, w0: Wave) returns (w: Wave)
    requires Queued(w0)
    ensures Grown(w0, ReadersOf(g, files), w)
  {
    w := w0;
    var rest := files;
    ghost var done: set<File> := {};
    assert ReadersOf(g, done) == {};
    while rest != {}
      invariant done + rest == files
      invariant Grown(w0, ReadersOf(g, done), w)
      decreases rest
    {
      hide Grown, ReadersOf;
      var f :| f in rest;
      ghost var v := w;
      w := Mark(w, g.Readers(f)) by { assert Queued(w) by { GrownQueued(w0, ReadersOf(g, done), w); } }
      GrownTwice(w0, ReadersOf(g, done), v, g.Readers(f), w);
      ReadersOfMore(g, done, f);
      rest, done := rest - {f}, done + {f};
    }
    assert done == files;
  }

  lemma GrownQueued(w: Wave, more: set<Pid>, v: Wave)
    requires Grown(w, more, v)
    ensures Queued(v)
  {
  }

  lemma FollowKeepsProgress(g: Graph, changed: set<File>, w: Wave, v: Wave)
    requires Progress(g, w) && OnlyStale(g, changed, w) && |w.work| > 0
    requires Grown(w.(work := w.work[1..]), ReadersOf(g, g.Outputs(w.work[0])), v)
    ensures Progress(g, v) && OnlyStale(g, changed, v) && w.affected <= v.affected
    ensures Settled(v) == Settled(w) + {w.work[0]} && w.work[0] !in Settled(w)
    ensures w.work[0] in AllReaders(g)
  {
    var src := w.work[0];
    assert w.work == [src] + w.work[1..];
    assert src in w.work && src !in w.work[1..];
    forall p | p in ReadersOf(g, g.Outputs(src)) ensures ReadsOutputOf(g, src, p) {
    }
    var n: nat :| Stale(g, changed, src, n);
    forall p | p in v.affected ensures IsStale(g, changed, p) {
      if p !in w.affected {
        assert Stale(g, changed, p, n + 1);
      }
    }
    forall s, p | s in Settled(v) && ReadsOutputOf(g, s, p) ensures p in v.affected {
      if s != src {
        assert s in Settled(w);
      }
    }
  }

  lemma ClosedIsLeast(g: Graph, changed: set<File>, w: Wave)
    requires Progress(g, w) && OnlyStale(g, changed, w) && w.work == []
    requires forall p :: ReadsChanged(g, changed, p) ==> p in w.affected
    ensures Least(g, changed, w.affected)
    ensures forall p :: p in w.affected <==> IsStale(g, changed, p)
  {
    assert Settled(w) == w.affected;
    assert Accounts(g, changed, w.affected);
    forall ys | Accounts(g, changed, ys) ensures w.affected <= ys {
      forall p | p in w.affected ensures p in ys {
        var n: nat :| Stale(g, changed, p, n);
        StaleIsAccounted(g, changed, p, n, ys);
      }
    }
    forall p | IsStale(g, changed, p) ensures p in w.affected {
      var n: nat :| Stale(g, changed, p, n);
      StaleIsAccounted(g, changed, p, n, w.affected);
    }
  }

  lemma SeedsAreStale(g: Graph, changed: set<File>, w: Wave)
    requires Grown(Wave({}, []), ReadersOf(g, changed), w)
    ensures Progress(g, w) && OnlyStale(g, changed, w)
    ensures forall p :: ReadsChanged(g, changed, p) ==> p in w.affected
  {
    forall p ensures p in w.affected <==> ReadsChanged(g, changed, p) {
      assert p in w.affected <==> p in ReadersOf(g, changed);
    }
    forall p | p in w.affected ensures IsStale(g, changed, p) {
      assert Stale(g, changed, p, 0);
    }
  }

  method RebuildBfs(g: Graph, changed: set<File>) returns (affected: set<Pid>)
    ensures Least(g, changed, affected)
    ensures forall p :: p in affected <==> IsStale(g, changed, p)
  {
    var w := MarkFiles(g, changed, Wave({}, []));
    SeedsAreStale(g, changed, w);
    while |w.work| > 0
      invariant Progress(g, w) && OnlyStale(g, changed, w)
      invariant forall p :: ReadsChanged(g, changed, p) ==> p in w.affected
      decreases AllReaders(g) - Settled(w)
    {
      ghost var before := w;
      w := MarkFiles(g, g.Outputs(w.work[0]), w.(work := w.work[1..]));
      hide Grown, Progress, OnlyStale, Settled;
      FollowKeepsProgress(g, changed, before, w);
    }
    ClosedIsLeast(g, changed, w);
    affected := w.affected;
  }

  // ---- The closure with explanations ----

  /** `source` 0 stands for the user; any other value is the process that wrote `file`. */
  datatype Reason = Reason(file: File, source: Pid)

  datatype Told = Told(wave: Wave, reasons: map<Pid, seq<Reason>>) {
    function Reasons(p: Pid): seq<Reason> { if p in reasons then reasons[p] else [] }
  }

  /** The reasons told are exactly the treated ones, each once per reader. */
  ghost predicate Listed(g: Graph, treated: set<Reason>, t: Told) {
    && t.reasons.Keys == t.wave.affected
    && (forall p :: p in t.reasons ==> |t.reasons[p]| > 0)
    && (forall p :: NoDup(t.Reasons(p)))
    && (forall p, r :: r in t.Reasons(p) <==> r in treated && p in g.Readers(r.file))
  }

  /** Following first reasons from `p` reaches a changed file in at most `n` steps. */
  ghost predicate Explained(changed: set<File>, reasons: map<Pid, seq<Reason>>, p: Pid, n: nat)
    decreases n
  {
    && p in reasons && |reasons[p]| > 0
    && var first := reasons[p][0];
       if first.source == 0 then first.file in changed
       else n > 0 && Explained(changed, reasons, first.source, n - 1)
  }

  ghost predicate IsExplained(changed: set<File>, reasons: map<Pid, seq<Reason>>, p: Pid) {
    exists n: nat :: Explained(changed, reasons, p, n)
  }

  ghost predicate AllExplained(changed: set<File>, reasons: map<Pid, seq<Reason>>) {
    forall p :: p in reasons ==> IsExplained(changed, reasons, p)
  }

  ghost predicate FirstsKept(before: map<Pid, seq<Reason>>, after: map<Pid, seq<Reason>>) {
    forall p :: p in before && |before[p]| > 0 ==> p in after && |after[p]| > 0 && after[p][0] == before[p][0]
  }

  lemma {:induction false} ExplainedKept(changed: set<File>, before: map<Pid, seq<Reason>>,
      after: map<Pid, seq<Reason>>, p: Pid, n: nat)
    requires FirstsKept(before, after) && Explained(changed, before, p, n)
    ensures Explained(changed, after, p, n)
    decreases n
  {
    if before[p][0].source != 0 {
      ExplainedKept(changed, before, after, before[p][0].source, n - 1);
    }
  }

  function Tell(t: Told, p: Pid, r: Reason): Told {
    Told(if p in t.wave.affected then t.wave else Wave(t.wave.affected + {p}, t.wave.work + [p]),
         t.reasons[p := t.Reasons(p) + [r]])
  }

  lemma TellExplained(changed: set<File>, t: Told, p: Pid, r: Reason)
    requires AllExplained(changed, t.reasons) && forall q :: q in t.reasons ==> |t.reasons[q]| > 0
    requires if r.source == 0 then r.file in changed else r.source in t.reasons
    ensures AllExplained(changed, Tell(t, p, r).reasons)
  {
    var u := Tell(t, p, r);
    forall q | q in t.reasons ensures IsExplained(changed, u.reasons, q) {
      var n: nat :| Explained(changed, t.reasons, q, n);
      ExplainedKept(changed, t.reasons, u.reasons, q, n);
    }
    if p !in t.reasons {
      if r.source == 0 {
        assert Explained(changed, u.reasons, p, 0);
      } else {
        var n: nat :| Explained(changed, u.reasons, r.source, n);
        assert Explained(changed, u.reasons, p, n + 1);
      }
    }
  }

  /** Mid-way through one (file, source) pair: `seen` readers have been told. */
  ghost predicate ListedWithin(g: Graph, treated: set<Reason>, r: Reason, seen: set<Pid>, t: Told) {
    && t.reasons.Keys == t.wave.affected
    && (forall p :: p in t.reasons ==> |t.reasons[p]| > 0)
    && (forall p :: NoDup(t.Reasons(p)))
    && (forall p, q :: q in t.Reasons(p) <==> (q in treated && p in g.Readers(q.file)) || (q == r && p in seen))
  }

  lemma TellListed(g: Graph, treated: set<Reason>, r: Reason, seen: set<Pid>, t: Told, p: Pid)
    requires ListedWithin(g, treated, r, seen, t) && p !in seen && r !in treated
    ensures ListedWithin(g, treated, r, seen + {p}, Tell(t, p, r))
  {
    var u := Tell(t, p, r);
    assert r !in t.Reasons(p);
    forall q ensures u.Reasons(q) == if q == p then t.Reasons(p) + [r] else t.Reasons(q) {
    }
  }

  lemma TellGrown(w0: Wave, seen: set<Pid>, t: Told, p: Pid, r: Reason)
    requires Grown(w0, seen, t.wave)
    ensures Grown(w0, seen + {p}, Tell(t, p, r).wave)
  {
    assert t.wave.affected + {p} == w0.affected + (seen + {p});
  }

  /** Everything the loop over one file's readers keeps. */
  ghost predicate Telling(g: Graph, changed: set<File>, treated: set<Reason>, r: Reason, t0: Told,
      seen: set<Pid>, t: Told) {
    && Grown(t0.wave, seen, t.wave) && ListedWithin(g, treated, r, seen, t)
    && AllExplained(changed, t.reasons) && t0.reasons.Keys <= t.reasons.Keys
  }

  lemma TellStarts(g: Graph, changed: set<File>, treated: set<Reason>, r: Reason, t: Told)
    requires Queued(t.wave) && Listed(g, treated, t) && AllExplained(changed, t.reasons)
    ensures Telling(g, changed, treated, r, t, {}, t)
  {
  }

  lemma TellStep(g: Graph, changed: set<File>, treated: set<Reason>, r: Reason, t0: Told,
      seen: set<Pid>, t: Told, p: Pid)
    requires Telling(g, changed, treated, r, t0, seen, t) && p !in seen && r !in treated
    requires if r.source == 0 then r.file in changed else r.source in t0.reasons
    ensures Telling(g, changed, treated, r, t0, seen + {p}, Tell(t, p, r))
  {
    TellExplained(changed, t, p, r);
    TellListed(g, treated, r, seen, t, p);
    TellGrown(t0.wave, seen, t, p, r);
  }

  lemma TellEnds(g: Graph, changed: set<File>, treated: set<Reason>, r: Reason, t0: Told, t: Told)
    requires Telling(g, changed, treated, r, t0, g.Readers(r.file), t)
    ensures Grown(t0.wave, g.Readers(r.file), t.wave)
    ensures Listed(g, treated + {r}, t) && AllExplained(changed, t.reasons)
    ensures t0.reasons.Keys <= t.reasons.Keys
  {
  }

  method TellReaders(g: Graph, ghost changed: set<File>, ghost treated: set<Reason>, r: Reason, t0: Told)
    returns (t: Told)
    requires Queued(t0.wave) && Listed(g, treated, t0) && AllExplained(changed, t0.reasons) && r !in treated
    requires if r.source == 0 then r.file in changed else r.source in t0.reasons
    ensures Grown(t0.wave, g.Readers(r.file), t.wave)
    ensures Listed(g, treated + {r}, t) && AllExplained(changed, t.reasons)
    ensures t0.reasons.Keys <= t.reasons.Keys
  {
    hide Telling, Listed, AllExplained, Grown, Queued;
    t := t0;
    TellStarts(g, changed, treated, r, t);
    var rs := Ascending(g.Readers(r.file));
    ghost var seen: set<Pid> := {};
    for i := 0 to |rs|
      invariant forall p :: p in seen <==> p in rs[..i]
      invariant Telling(g, changed, treated, r, t0, seen, t)
    {
      assert rs[..i + 1] == rs[..i] + [rs[i]];
      assert rs[i] !in rs[..i];
      TellStep(g, changed, treated, r, t0, seen, t, rs[i]);
      t := Tell(t, rs[i], r);
      seen := seen + {rs[i]};
    }
    assert rs[..|rs|] == rs;
    assert seen == g.Readers(r.file) by {
      assert forall p :: p in seen <==> p in g.Readers(r.file);
    }
    TellEnds(g, changed, treated, r, t0, t);
  }

  ghost function ReasonsOver(files: set<File>, source: Pid): (r: set<Reason>)
    ensures forall x :: x in r <==> x.source == source && x.file in files
  {
    set f | f in files :: Reason(f, source)
  }

  method TellFiles(g: Graph, ghost changed: set<File>, ghost treated: set<Reason>, files: set<File>, source: Pid,
      t0: Told) returns (t: Told)
    requires Queued(t0.wave) && Listed(g, treated, t0) && AllExplained(changed, t0.reasons)
    requires treated !! ReasonsOver(files, source)
    requires if source == 0 then files <= changed else source in t0.reasons
    ensures Grown(t0.wave, ReadersOf(g, files), t.wave)
    ensures Listed(g, treated + ReasonsOver(files, source), t) && AllExplained(changed, t.reasons)
  {
    t := t0;
    var rest := files;
    ghost var done: set<File> := {};
    assert ReadersOf(g, done) == {};
    assert treated + ReasonsOver(done, source) == treated;
    while rest != {}
      invariant done + rest == files && done !! rest
      invariant Grown(t0.wave, ReadersOf(g, done), t.wave)
      invariant Listed(g, treated + ReasonsOver(done, source), t) && AllExplained(changed, t.reasons)
      invariant t0.reasons.Keys <= t.reasons.Keys
      decreases rest
    {
      var f :| f in rest;
      assert Reason(f, source) in ReasonsOver(files, source);
      hide Grown, ReadersOf, Listed, AllExplained;
      GrownQueued(t0.wave, ReadersOf(g, done), t.wave);
      ghost var u := t;
      t := TellReaders(g, changed, treated + ReasonsOver(done, source), Reason(f, source), t);
      GrownTwice(t0.wave, ReadersOf(g, done), u.wave, g.Readers(f), t.wave);
      ReadersOfMore(g, done, f);
      assert treated + ReasonsOver(done, source) + {Reason(f, source)} == treated + ReasonsOver(done + {f}, source);
      rest, done := rest - {f}, done + {f};
    }
    assert done == files;
  }

  /** The reasons that hold once the members in `sources` have been followed. */
  ghost function Treated(g: Graph, changed: set<File>, sources: set<Pid>): (r: set<Reason>)
    ensures forall x :: x in r <==>
      (x.source == 0 && x.file in changed) || (x.source in sources && x.file in g.Outputs(x.source))
  {
    ReasonsOver(changed, 0) + set s, f | s in sources && f in g.Outputs(s) :: Reason(f, s)
  }

  /** A reason that holds: the user changed the file, or a stale process wrote it. */
  ghost predicate Justified(g: Graph, changed: set<File>, affected: set<Pid>, p: Pid, r: Reason) {
    && p in g.Readers(r.file)
    && ((r.source == 0 && r.file in changed) || (r.source in affected && r.file in g.Outputs(r.source)))
  }

  /** Source 0 is not the number of a stale process that wrote something. */
  ghost predicate ZeroIsUser(g: Graph, changed: set<File>) {
    IsStale(g, changed, 0) ==> 0 !in g.outputs
  }

  method RebuildBfsReasons(g: Graph, changed: set<File>) returns (reasons: map<Pid, seq<Reason>>)
    requires ZeroIsUser(g, changed)
    ensures Least(g, changed, reasons.Keys)
    ensures forall p :: p in reasons ==> NoDup(reasons[p])
    ensures forall p, r :: p in reasons ==> (r in reasons[p] <==> Justified(g, changed, reasons.Keys, p, r))
    ensures AllExplained(changed, reasons)
  {
    var t := TellFiles(g, changed, {}, changed, 0, Told(Wave({}, []), map[]));
    SeedsAreStale(g, changed, t.wave);
    ghost var sources := Settled(t.wave);
    assert sources == {};
    assert {} + ReasonsOver(changed, 0) == Treated(g, changed, {});
    while |t.wave.work| > 0
      invariant Progress(g, t.wave) && OnlyStale(g, changed, t.wave)
      invariant forall p :: ReadsChanged(g, changed, p) ==> p in t.wave.affected
      invariant Listed(g, Treated(g, changed, Settled(t.wave)), t) && AllExplained(changed, t.reasons)
      decreases AllReaders(g) - Settled(t.wave)
    {
      t := FollowOne(g, changed, t);
    }
    ClosedIsLeast(g, changed, t.wave);
    reasons := t.reasons;
    assert Settled(t.wave) == t.wave.affected;
    assert forall p :: p in reasons ==> reasons[p] == t.Reasons(p);
  }

  method FollowOne(g: Graph, ghost changed: set<File>, t0: Told) returns (t: Told)
    requires ZeroIsUser(g, changed) && |t0.wave.work| > 0
    requires Progress(g, t0.wave) && OnlyStale(g, changed, t0.wave)
    requires Listed(g, Treated(g, changed, Settled(t0.wave)), t0) && AllExplained(changed, t0.reasons)
    ensures Progress(g, t.wave) && OnlyStale(g, changed, t.wave) && t0.wave.affected <= t.wave.affected
    ensures Listed(g, Treated(g, changed, Settled(t.wave)), t) && AllExplained(changed, t.reasons)
    ensures AllReaders(g) - Settled(t.wave) < AllReaders(g) - Settled(t0.wave)
  {
    hide Explained, Stale, IsExplained, IsStale;
    var pid := t0.wave.work[0];
    ghost var treated := Treated(g, changed, Settled(t0.wave));
    assert IsStale(g, changed, pid);
    var u := t0.(wave := t0.wave.(work := t0.wave.work[1..]));
    assert Listed(g, treated, u) by {
      assert forall p :: u.Reasons(p) == t0.Reasons(p);
    }
    t := u;
    if pid in g.outputs {
      t := TellFiles(g, changed, treated, g.outputs[pid], pid, u);
    } else {
      assert g.Outputs(pid) == {};
      assert treated + ReasonsOver({}, pid) == treated;
    }
    FollowKeepsProgress(g, changed, t0.wave, t.wave);
    assert treated + ReasonsOver(g.Outputs(pid), pid) == Treated(g, changed, Settled(t.wave));
  }
}
