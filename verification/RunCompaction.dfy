/** Closing the idle gaps between separate recordings, so that each later run
    starts where the previous one ended. */
module RunCompaction {
  import opened Ordering
  import opened Processes
  import opened Sorting

  /** Gaps up to one second are kept. */
  const GAP_THRESHOLD_US := 1000000

  // ---- What is removed, stated on the set of rows ----

  ghost function Rows(ps: seq<Process>): set<Process> {
    set p | p in ps
  }

  lemma MaxExists(s: set<int>)
    requires s != {}
    ensures exists m :: m in s && forall x :: x in s ==> x <= m
  {
    var m := Pick(s);
    if s != {m} {
      var rest := s - {m};
      assert s == rest + {m};
      assert rest != {};
      MaxExists(rest);
      var r :| r in rest && forall x :: x in rest ==> x <= r;
      var most := if r > m then r else m;
      assert most in s && forall x :: x in s ==> x <= most;
    }
  }

  ghost function MaxOf(s: set<int>): (m: int)
    requires s != {}
    ensures m in s && forall x :: x in s ==> x <= m
  {
    MaxExists(s);
    var m :| m in s && forall x :: x in s ==> x <= m; m
  }

  ghost function EndsBefore(rows: set<Process>, t: int): set<int> {
    set p | p in rows && p.start < t :: p.end
  }

  /** A process starts at `t`, after more than the threshold in which nothing ran. */
  ghost predicate IsBreak(rows: set<Process>, t: int) {
    && (exists p :: p in rows && p.start == t)
    && EndsBefore(rows, t) != {}
    && t > MaxOf(EndsBefore(rows, t)) + GAP_THRESHOLD_US
  }

  ghost function BreaksUpTo(rows: set<Process>, t: int): set<int> {
    set p | p in rows && p.start <= t && IsBreak(rows, p.start) :: p.start
  }

  /** The idle time in front of each break, added up. */
  ghost function IdleSum(rows: set<Process>, breaks: set<int>): int
    requires forall b :: b in breaks ==> EndsBefore(rows, b) != {}
  {
    if breaks == {} then 0
    else
      var b := MaxOf(breaks);
      IdleSum(rows, breaks - {b}) + (b - MaxOf(EndsBefore(rows, b)))
  }

  /** How far a process that starts at `t` is moved towards the beginning. */
  ghost function Removed(rows: set<Process>, t: int): int {
    IdleSum(rows, BreaksUpTo(rows, t))
  }

  function Moved(p: Process, shift: int): Process {
    p.(start := p.start - shift, end := p.end - shift)
  }

  ghost function Compacted(ps: seq<Process>): (r: seq<Process>)
    ensures |r| == |ps|
  {
    seq(|ps|, i requires 0 <= i < |ps| => Moved(ps[i], Removed(Rows(ps), ps[i].start)))
  }

  /** A run may begin at `t`. */
  ghost predicate Opens(rows: set<Process>, t: int) {
    IsBreak(rows, t) || forall p :: p in rows ==> t <= p.start
  }

  /** What the rows must offer: those that may begin a run have an exit. A row
      without one has end 0, and inside a run it changes no gap. */
  ghost predicate RunsOpen(rows: set<Process>) {
    forall p :: p in rows && Opens(rows, p.start) ==> p.start <= p.end
  }

  /** Every row starts while the run before the next break is known to last. */
  ghost predicate Held(rows: set<Process>) {
    forall p, b :: p in rows && p.start < b && IsBreak(rows, b) ==> p.start <= MaxOf(EndsBefore(rows, b))
  }

  /** Rows that all have an exit meet both. */
  lemma FinishedRows(rows: set<Process>)
    requires forall p :: p in rows ==> p.start <= p.end
    ensures RunsOpen(rows) && Held(rows)
  {
    forall p, b | p in rows && p.start < b && IsBreak(rows, b) ensures p.start <= MaxOf(EndsBefore(rows, b)) {
      assert p.end in EndsBefore(rows, b);
    }
  }

  // ---- The same, read off any sorted order ----

  function MaxEnd(s: seq<Process>, i: nat): int
    requires 0 < i <= |s|
  {
    if i == 1 then s[0].end
    else if s[i - 1].end > MaxEnd(s, i - 1) then s[i - 1].end else MaxEnd(s, i - 1)
  }

  predicate Breaks(s: seq<Process>, i: nat)
    requires i < |s|
  {
    i > 0 && s[i].start > MaxEnd(s, i) + GAP_THRESHOLD_US
  }

  /** The same demands on a sorted order. */
  ghost predicate OpensFinished(s: seq<Process>) {
    forall i :: 0 <= i < |s| && (i == 0 || Breaks(s, i)) ==> s[i].start <= s[i].end
  }

  ghost predicate HeldInOrder(s: seq<Process>) {
    forall i, j :: 0 <= i < j < |s| && Breaks(s, j) ==> s[i].start <= MaxEnd(s, j)
  }

  function Shift(s: seq<Process>, i: nat): int
    requires i < |s|
  {
    if i == 0 then 0
    else Shift(s, i - 1) + if Breaks(s, i) then s[i].start - MaxEnd(s, i) else 0
  }

  lemma {:induction false} MaxEndBounds(s: seq<Process>, i: nat, k: nat)
    requires k < i <= |s|
    ensures s[k].end <= MaxEnd(s, i)
    decreases i
  {
    if k < i - 1 {
      MaxEndBounds(s, i - 1, k);
    }
  }

  lemma {:induction false} MaxEndAttained(s: seq<Process>, i: nat) returns (k: nat)
    requires 0 < i <= |s|
    ensures k < i && s[k].end == MaxEnd(s, i)
    decreases i
  {
    k := i - 1;
    if i > 1 && s[i - 1].end <= MaxEnd(s, i - 1) {
      k := MaxEndAttained(s, i - 1);
    }
  }

  /** At a position where the start time grows, the processes before it are those
      that start earlier. */
  lemma PrefixEnds(s: seq<Process>, i: nat)
    requires SortedByStart(s) && 0 < i < |s| && s[i - 1].start < s[i].start
    ensures EndsBefore(Rows(s), s[i].start) != {}
    ensures MaxOf(EndsBefore(Rows(s), s[i].start)) == MaxEnd(s, i)
  {
    var ends := EndsBefore(Rows(s), s[i].start);
    var k := MaxEndAttained(s, i);
    assert s[k] in s && s[k].start <= s[i - 1].start;
    assert s[k].end in ends;
    forall e | e in ends ensures e <= MaxEnd(s, i) {
      var p :| p in Rows(s) && p.start < s[i].start && p.end == e;
      var j :| 0 <= j < |s| && s[j] == p;
      assert j < i;
      MaxEndBounds(s, i, j);
    }
  }

  lemma BreaksIsBreak(s: seq<Process>, i: nat)
    requires SortedByStart(s) && OpensFinished(s) && i < |s|
    ensures Breaks(s, i) <==> IsBreak(Rows(s), s[i].start) && i > 0 && s[i - 1].start < s[i].start
  {
    assert s[i] in s;
    if i > 0 {
      if s[i - 1].start < s[i].start {
        PrefixEnds(s, i);
      } else {
        NoBreakAtTie(s, i);
      }
    }
  }

  /** Among rows that start together only the first can break. */
  lemma NoBreakAtTie(s: seq<Process>, i: nat)
    requires 0 < i < |s| && s[i - 1].start == s[i].start
    requires i == 1 || Breaks(s, i - 1) ==> s[i - 1].start <= s[i - 1].end
    ensures !Breaks(s, i)
  {
  }

  /** What the set of rows offers, each of its sorted orders does. */
  lemma {:induction false} OpenInOrder(rows: set<Process>, s: seq<Process>, i: nat)
    requires SortedByStart(s) && Rows(s) == rows && RunsOpen(rows) && i < |s| && (i == 0 || Breaks(s, i))
    ensures s[i].start <= s[i].end
    ensures i > 0 ==> s[i - 1].start < s[i].start && IsBreak(rows, s[i].start)
    ensures i > 0 ==> MaxOf(EndsBefore(rows, s[i].start)) == MaxEnd(s, i)
  {
    assert s[i] in rows;
    if i == 0 {
      forall p | p in rows ensures s[0].start <= p.start {
        var k :| 0 <= k < |s| && s[k] == p;
      }
    } else if s[i - 1].start == s[i].start {
      if i == 1 || Breaks(s, i - 1) {
        OpenInOrder(rows, s, i - 1);
      }
      NoBreakAtTie(s, i);
    } else {
      PrefixEnds(s, i);
    }
  }

  lemma OrderOpens(rows: set<Process>, s: seq<Process>)
    requires SortedByStart(s) && Rows(s) == rows && RunsOpen(rows)
    ensures OpensFinished(s)
    ensures Held(rows) ==> HeldInOrder(s)
  {
    forall i | 0 <= i < |s| && (i == 0 || Breaks(s, i)) ensures s[i].start <= s[i].end {
      OpenInOrder(rows, s, i);
    }
    hide OpensFinished;
    if Held(rows) {
      forall i, j | 0 <= i < j < |s| && Breaks(s, j) ensures s[i].start <= MaxEnd(s, j) {
        HeldAtBreak(rows, s, i, j);
      }
    }
  }

  lemma HeldAtBreak(rows: set<Process>, s: seq<Process>, i: nat, j: nat)
    requires SortedByStart(s) && Rows(s) == rows && RunsOpen(rows) && Held(rows) && i < j < |s| && Breaks(s, j)
    ensures s[i].start <= MaxEnd(s, j)
  {
    OpenInOrder(rows, s, j);
    assert s[i] in rows;
    hide RunsOpen, IsBreak, MaxEnd, Breaks;
    assert s[i].start <= s[j - 1].start;
  }

  lemma FirstIsNoBreak(s: seq<Process>)
    requires SortedByStart(s) && |s| > 0
    ensures BreaksUpTo(Rows(s), s[0].start) == {}
  {
    forall p | p in Rows(s) && p.start <= s[0].start ensures !IsBreak(Rows(s), p.start) {
      assert EndsBefore(Rows(s), p.start) == {} by {
        forall q | q in Rows(s) ensures q.start >= p.start {
          var j :| 0 <= j < |s| && s[j] == q;
        }
      }
    }
  }

  ghost predicate AllBelow(bs: set<int>, t: int) {
    forall b :: b in bs ==> b < t
  }

  lemma NewBreak(s: seq<Process>, i: nat, b: int)
    requires SortedByStart(s) && 0 < i < |s| && b in BreaksUpTo(Rows(s), s[i].start)
    requires b !in BreaksUpTo(Rows(s), s[i - 1].start)
    ensures b == s[i].start && s[i - 1].start < s[i].start && IsBreak(Rows(s), b)
  {
    hide IsBreak;
    var p :| p in Rows(s) && p.start <= s[i].start && IsBreak(Rows(s), p.start) && p.start == b;
    var j :| 0 <= j < |s| && s[j] == p;
    assert p.start > s[i - 1].start;
    assert j >= i;
  }

  lemma BreaksGrow(s: seq<Process>, i: nat)
    requires SortedByStart(s) && OpensFinished(s) && 0 < i < |s|
    ensures BreaksUpTo(Rows(s), s[i].start) ==
      BreaksUpTo(Rows(s), s[i - 1].start) + if Breaks(s, i) then {s[i].start} else {}
    ensures Breaks(s, i) ==> AllBelow(BreaksUpTo(Rows(s), s[i - 1].start), s[i].start)
  {
    BreaksIsBreak(s, i);
    hide IsBreak, Breaks;
    var before, after := BreaksUpTo(Rows(s), s[i - 1].start), BreaksUpTo(Rows(s), s[i].start);
    assert before <= after;
    assert s[i] in Rows(s);
    if Breaks(s, i) {
      assert s[i].start in after;
    }
    forall b | b in after ensures b in before || (Breaks(s, i) && b == s[i].start) {
      if b !in before {
        NewBreak(s, i, b);
      }
    }
  }

  lemma IdleSumGrows(rows: set<Process>, bs: set<int>, b: int)
    requires AllBelow(bs, b) && EndsBefore(rows, b) != {}
    requires forall x :: x in bs ==> EndsBefore(rows, x) != {}
    ensures IdleSum(rows, bs + {b}) == IdleSum(rows, bs) + (b - MaxOf(EndsBefore(rows, b)))
  {
    assert MaxOf(bs + {b}) == b;
    assert bs + {b} - {b} == bs;
  }

  lemma NothingRemoved(s: seq<Process>)
    requires SortedByStart(s) && |s| > 0
    ensures Removed(Rows(s), s[0].start) == 0
  {
    FirstIsNoBreak(s);
    hide Rows, IsBreak, EndsBefore, SortedByStart, BreaksUpTo;
  }

  /** Without a break nothing more is removed. */
  lemma RemovedStays(s: seq<Process>, i: nat)
    requires SortedByStart(s) && OpensFinished(s) && 0 < i < |s| && !Breaks(s, i)
    ensures Removed(Rows(s), s[i].start) == Removed(Rows(s), s[i - 1].start)
  {
    BreaksGrow(s, i);
    hide Rows, IsBreak, EndsBefore, SortedByStart, OpensFinished, Breaks, BreaksUpTo, IdleSum;
    assert BreaksUpTo(Rows(s), s[i].start) == BreaksUpTo(Rows(s), s[i - 1].start);
  }

  /** At a break the gap in front of it is removed as well. */
  lemma BreakAdds(s: seq<Process>, i: nat)
    requires SortedByStart(s) && OpensFinished(s) && 0 < i < |s| && Breaks(s, i)
    ensures Removed(Rows(s), s[i].start) == Removed(Rows(s), s[i - 1].start) + (s[i].start - MaxEnd(s, i))
  {
    BreaksGrow(s, i);
    BreaksIsBreak(s, i);
    PrefixEnds(s, i);
    var before := BreaksUpTo(Rows(s), s[i - 1].start);
    assert forall x :: x in before ==> EndsBefore(Rows(s), x) != {};
    hide Rows, IsBreak, EndsBefore, SortedByStart, OpensFinished, Breaks, BreaksUpTo, MaxEnd, IdleSum, AllBelow;
    IdleSumGrows(Rows(s), before, s[i].start);
  }

  /** The shift read off a sorted order depends on the start time alone, so it
      is the same whichever way ties are ordered. */
  lemma {:induction false} ShiftIsRemoved(s: seq<Process>, i: nat)
    requires SortedByStart(s) && OpensFinished(s) && i < |s|
    ensures Shift(s, i) == Removed(Rows(s), s[i].start)
    decreases i
  {
    hide Rows, Removed, Breaks, MaxEnd, OpensFinished, SortedByStart;
    if i == 0 {
      NothingRemoved(s);
    } else {
      ShiftIsRemoved(s, i - 1);
      if Breaks(s, i) {
        BreakAdds(s, i);
      } else {
        RemovedStays(s, i);
      }
    }
  }

  // ---- What moving does to a sorted order ----

  function Slid(s: seq<Process>): (r: seq<Process>)
    ensures |r| == |s|
  {
    seq(|s|, i requires 0 <= i < |s| => Moved(s[i], Shift(s, i)))
  }

  lemma SlidAt(s: seq<Process>, i: nat)
    requires i < |s|
    ensures Slid(s)[i] == Moved(s[i], Shift(s, i))
  {
  }

  lemma {:induction false} ShiftGrows(s: seq<Process>, i: nat, j: nat)
    requires i <= j < |s|
    ensures Shift(s, i) <= Shift(s, j)
    decreases j
  {
    if i < j {
      ShiftGrows(s, i, j - 1);
    }
  }

  lemma {:induction false} SlidMaxEnd(s: seq<Process>, i: nat)
    requires OpensFinished(s) && 0 < i <= |s|
    ensures MaxEnd(Slid(s), i) == MaxEnd(s, i) - Shift(s, i - 1)
    decreases i
  {
    hide Slid;
    SlidAt(s, i - 1);
    if i > 1 {
      SlidMaxEnd(s, i - 1);
    }
  }

  /** The first process of a later run starts where the earlier runs end. */
  lemma RunsMeet(s: seq<Process>, i: nat)
    requires OpensFinished(s) && i < |s| && Breaks(s, i)
    ensures Slid(s)[i].start == MaxEnd(Slid(s), i)
  {
    SlidMaxEnd(s, i);
  }

  lemma SlidHasNoBreak(s: seq<Process>, i: nat)
    requires OpensFinished(s) && i < |s|
    ensures !Breaks(Slid(s), i)
  {
    if i > 0 {
      SlidMaxEnd(s, i);
    }
  }

  /** With a break between two processes the earlier one has ended. */
  lemma {:induction false} BreakSeparates(s: seq<Process>, i: nat, j: nat)
    requires SortedByStart(s) && OpensFinished(s) && i < j < |s| && Shift(s, i) < Shift(s, j)
    ensures s[i].end < s[j].start && Slid(s)[i].end <= Slid(s)[j].start
    decreases j
  {
    hide MaxEnd, Slid;
    SlidAt(s, j);
    SlidAt(s, j - 1);
    if Breaks(s, j) {
      MaxEndBounds(s, j, i);
      RunsMeet(s, j);
      MaxEndBounds(Slid(s), j, i);
    } else {
      BreakSeparates(s, i, j - 1);
    }
  }

  /** Moved starts stay in order across a break. */
  lemma {:induction false} StartsStayInOrder(s: seq<Process>, i: nat, j: nat)
    requires SortedByStart(s) && OpensFinished(s) && HeldInOrder(s) && i <= j < |s|
    ensures Slid(s)[i].start <= Slid(s)[j].start
    decreases j
  {
    hide MaxEnd, Slid;
    SlidAt(s, j);
    if i < j {
      SlidAt(s, j - 1);
      StartsStayInOrder(s, i, j - 1);
      if Breaks(s, j) {
        RunsMeet(s, j);
        SlidMaxEnd(s, j);
        assert s[j - 1].start <= MaxEnd(s, j);
      }
    }
  }

  lemma SlidSharedTime(s: seq<Process>, i: nat, j: nat)
    requires SortedByStart(s) && OpensFinished(s) && i <= j < |s|
    ensures |SharedInstants(Slid(s)[i], Slid(s)[j])| == |SharedInstants(s[i], s[j])|
  {
    ShiftGrows(s, i, j);
    if Shift(s, i) < Shift(s, j) {
      BreakSeparates(s, i, j);
    }
    hide SharedInstants, Shift;
    OverlapCounts(s[i], s[j]);
    OverlapCounts(Slid(s)[i], Slid(s)[j]);
  }

  // ---- The same for the rows as given ----

  /** `s` lists the same rows in start order, and sliding it moves each row by
      what its start time says. */
  ghost predicate View(ps: seq<Process>, s: seq<Process>) {
    && SortedByStart(s) && OpensFinished(s) && |s| == |ps| && Rows(s) == Rows(ps)
    && (forall i :: 0 <= i < |s| ==> Slid(s)[i] == Moved(s[i], Removed(Rows(ps), s[i].start)))
  }

  /** Every sorted order of the rows is such a view. */
  lemma SortedIsView(ps: seq<Process>, s: seq<Process>)
    requires RunsOpen(Rows(ps)) && SortedByStart(s) && multiset(s) == multiset(ps)
    ensures View(ps, s)
  {
    hide Shift, Removed, Slid;
    PermutedMembers(ps, s);
    assert Rows(s) == Rows(ps);
    OrderOpens(Rows(ps), s);
    hide OpensFinished, RunsOpen, Held, HeldInOrder;
    forall i | 0 <= i < |s| ensures Slid(s)[i] == Moved(s[i], Removed(Rows(ps), s[i].start)) {
      ShiftIsRemoved(s, i);
      SlidAt(s, i);
    }
  }

  /** Every row of one order has its place in the other, moved alike. */
  lemma PlaceInView(ps: seq<Process>, s: seq<Process>, k: nat) returns (i: nat)
    requires View(ps, s) && k < |ps|
    ensures i < |s| && s[i] == ps[k] && Slid(s)[i] == Compacted(ps)[k]
  {
    hide Removed, Shift, Slid;
    assert ps[k] in Rows(s);
    i :| i < |s| && s[i] == ps[k];
    CompactedAt(ps, k);
  }

  lemma PlaceInRows(ps: seq<Process>, s: seq<Process>, i: nat) returns (k: nat)
    requires View(ps, s) && i < |s|
    ensures k < |ps| && s[i] == ps[k] && Slid(s)[i] == Compacted(ps)[k]
  {
    hide Removed, Shift, Slid;
    assert s[i] in Rows(ps);
    k :| k < |ps| && s[i] == ps[k];
    CompactedAt(ps, k);
  }

  lemma CompactedAt(ps: seq<Process>, k: nat)
    requires k < |ps|
    ensures Compacted(ps)[k] == Moved(ps[k], Removed(Rows(ps), ps[k].start))
  {
  }

  lemma ViewSorted(ps: seq<Process>, s: seq<Process>)
    requires View(ps, s)
    ensures SortedByStart(s) && OpensFinished(s) && |s| == |ps| && Rows(s) == Rows(ps)
  {
  }

  lemma SameStart(ps: seq<Process>, s: seq<Process>, i: nat, j: nat)
    requires View(ps, s) && i < |s| && j < |s| && s[i].start == s[j].start
    ensures Slid(s)[i].start == Slid(s)[j].start
  {
    hide Slid, Removed;
  }

  lemma InOrder(ps: seq<Process>, s: seq<Process>, i: nat, j: nat)
    requires View(ps, s) && HeldInOrder(s) && i < |s| && j < |s| && s[i].start <= s[j].start
    ensures Slid(s)[i].start <= Slid(s)[j].start
  {
    ViewSorted(ps, s);
    hide View, Slid, Compacted, OpensFinished, HeldInOrder;
    if i <= j {
      StartsStayInOrder(s, i, j);
    } else {
      assert s[i].start == s[j].start;
      SameStart(ps, s, i, j);
    }
  }

  lemma SharedTimeInView(ps: seq<Process>, s: seq<Process>, i: nat, j: nat)
    requires View(ps, s) && i < |s| && j < |s|
    ensures |SharedInstants(Slid(s)[i], Slid(s)[j])| == |SharedInstants(s[i], s[j])|
  {
    hide View, Slid, SharedInstants;
    ViewSorted(ps, s);
    if i <= j {
      SlidSharedTime(s, i, j);
    } else {
      SlidSharedTime(s, j, i);
      SharedBothWays(s[i], s[j]);
      SharedBothWays(Slid(s)[i], Slid(s)[j]);
    }
  }

  /** Durations and the time every two processes share survive, and nothing but
      the two times of a row changes. */
  lemma TimingKept(ps: seq<Process>, a: nat, b: nat)
    requires RunsOpen(Rows(ps)) && a < |ps| && b < |ps|
    ensures var r := Compacted(ps);
      && r[a].end - r[a].start == ps[a].end - ps[a].start
      && r[a] == ps[a].(start := r[a].start, end := r[a].end)
      && |SharedInstants(r[a], r[b])| == |SharedInstants(ps[a], ps[b])|
  {
    var s := AView(ps);
    CompactedAt(ps, a);
    var i := PlaceInView(ps, s, a);
    var j := PlaceInView(ps, s, b);
    SharedTimeInView(ps, s, i, j);
    hide View, Removed, Shift, Slid, Compacted, SharedInstants;
  }

  ghost predicate OrderKept(ps: seq<Process>) {
    forall a, b :: 0 <= a < |ps| && 0 <= b < |ps| && ps[a].start <= ps[b].start ==>
      Compacted(ps)[a].start <= Compacted(ps)[b].start
  }

  /** The start order survives exactly when every row starts while its run is
      known to last: a row without an exit may begin after that, and then the
      next run is moved in front of it. */
  lemma OrderKeptIffHeld(ps: seq<Process>)
    requires RunsOpen(Rows(ps))
    ensures OrderKept(ps) <==> Held(Rows(ps))
  {
    var s := AView(ps);
    hide View, Removed, Shift, Slid, Compacted, OpensFinished, HeldInOrder, IsBreak, EndsBefore, Held;
    if Held(Rows(ps)) {
      HeldView(ps, s);
      forall a, b | 0 <= a < |ps| && 0 <= b < |ps| && ps[a].start <= ps[b].start
        ensures Compacted(ps)[a].start <= Compacted(ps)[b].start
      {
        var i := PlaceInView(ps, s, a);
        var j := PlaceInView(ps, s, b);
        InOrder(ps, s, i, j);
      }
    } else {
      NotHeld(ps, s);
    }
  }

  lemma HeldView(ps: seq<Process>, s: seq<Process>)
    requires View(ps, s) && RunsOpen(Rows(ps)) && Held(Rows(ps))
    ensures HeldInOrder(s)
  {
    ViewSorted(ps, s);
    OrderOpens(Rows(ps), s);
  }

  lemma BreakAt(s: seq<Process>, t: int) returns (i: nat)
    requires SortedByStart(s) && OpensFinished(s) && IsBreak(Rows(s), t)
    ensures 0 < i < |s| && s[i].start == t && s[i - 1].start < t && Breaks(s, i)
    ensures EndsBefore(Rows(s), t) != {} && MaxOf(EndsBefore(Rows(s), t)) == MaxEnd(s, i)
  {
    i := FirstAt(s, t);
    BreaksIsBreak(s, i);
    PrefixEnds(s, i);
  }

  /** A row that starts after its run is known to have ended. */
  lemma LateRow(s: seq<Process>) returns (k: nat, i: nat)
    requires SortedByStart(s) && OpensFinished(s) && !Held(Rows(s))
    ensures k < i < |s| && Breaks(s, i) && s[k].start > MaxEnd(s, i)
  {
    var p, t :| p in Rows(s) && p.start < t && IsBreak(Rows(s), t) && p.start > MaxOf(EndsBefore(Rows(s), t));
    hide IsBreak, OpensFinished, Breaks, MaxEnd, EndsBefore, Held;
    i := BreakAt(s, t);
    k :| 0 <= k < |s| && s[k] == p;
  }

  /** An unfinished row, half a second after the only other process of its run
      ended, is passed by the next run: it stays at 500000 while that run, which
      began at 5000000, is moved to 10. */
  lemma UnfinishedRowPassed(a: Process, u: Process, b: Process)
    requires a.start == 0 && a.end == 10 && u.start == 500000 && u.end == 0 && b.start == 5000000 && b.end == 6000000
    ensures RunsOpen(Rows([a, u, b])) && !OrderKept([a, u, b])
  {
    var rows := Rows([a, u, b]);
    assert rows == {a, u, b};
    assert EndsBefore(rows, 500000) == {10};
    assert EndsBefore(rows, 5000000) == {10, 0};
    assert u in rows && IsBreak(rows, 5000000);
    OrderKeptIffHeld([a, u, b]);
  }

  lemma LateRowPassed(s: seq<Process>, k: nat, i: nat)
    requires OpensFinished(s) && k < i < |s| && Breaks(s, i) && s[k].start > MaxEnd(s, i)
    ensures Slid(s)[k].start > Slid(s)[i].start
  {
    hide MaxEnd, Slid, OpensFinished, Breaks, Shift;
    RunsMeet(s, i);
    SlidMaxEnd(s, i);
    SlidAt(s, k);
    ShiftGrows(s, k, i - 1);
  }

  lemma NotHeld(ps: seq<Process>, s: seq<Process>)
    requires View(ps, s) && !Held(Rows(ps))
    ensures !OrderKept(ps)
  {
    ViewSorted(ps, s);
    hide View, Compacted, Slid, OpensFinished, Held, MaxEnd, Breaks;
    var k, i := LateRow(s);
    LateRowPassed(s, k, i);
    var a := PlaceInRows(ps, s, k);
    var b := PlaceInRows(ps, s, i);
    assert ps[a].start <= ps[b].start;
  }

  lemma AView(ps: seq<Process>) returns (s: seq<Process>)
    requires RunsOpen(Rows(ps))
    ensures View(ps, s)
  {
    s := InStartOrder(ps);
    SortedIsView(ps, s);
  }

  lemma SlidRows(ps: seq<Process>, s: seq<Process>)
    requires View(ps, s)
    ensures Rows(Slid(s)) == Rows(Compacted(ps))
  {
    var t, r := Slid(s), Compacted(ps);
    hide Slid, Compacted;
    forall p | p in t ensures p in r {
      var i :| 0 <= i < |t| && t[i] == p;
      var k := PlaceInRows(ps, s, i);
      assert r[k] == p;
    }
    forall p | p in r ensures p in t {
      var k :| 0 <= k < |r| && r[k] == p;
      var i := PlaceInView(ps, s, k);
      assert t[i] == p;
    }
  }

  /** The first row of a sorted order starts first after moving, too. */
  lemma {:induction false} FirstMovedLeast(s: seq<Process>, k: nat)
    requires SortedByStart(s) && OpensFinished(s) && k < |s|
    ensures Slid(s)[0].start <= Slid(s)[k].start
    decreases k
  {
    hide Slid, MaxEnd;
    SlidAt(s, 0);
    if k > 0 {
      SlidAt(s, k);
      SlidAt(s, k - 1);
      if Breaks(s, k) {
        RunsMeet(s, k);
        MaxEndBounds(Slid(s), k, 0);
      } else {
        FirstMovedLeast(s, k - 1);
      }
    }
  }

  /** Before any time up to which a moved row starts, some moved row that starts
      earlier ends within the threshold. */
  lemma {:induction false} Near(s: seq<Process>, i: nat, t: int) returns (k: nat)
    requires OpensFinished(s) && i < |s| && Slid(s)[0].start < t <= Slid(s)[i].start
    ensures k < |s| && Slid(s)[k].start < t <= Slid(s)[k].end + GAP_THRESHOLD_US
    decreases i
  {
    hide Slid, MaxEnd, OpensFinished;
    SlidHasNoBreak(s, i);
    k := MaxEndAttained(Slid(s), i);
    if Slid(s)[k].start >= t {
      k := Near(s, k, t);
    }
  }

  lemma NoBreakLeft(s: seq<Process>, t: int)
    requires SortedByStart(s) && OpensFinished(s)
    ensures !IsBreak(Rows(Slid(s)), t)
  {
    hide Slid, OpensFinished, SortedByStart;
    var rows := Rows(Slid(s));
    if p, q :| p in rows && p.start == t && q in rows && q.start < t {
      var i :| 0 <= i < |s| && Slid(s)[i] == p;
      var j :| 0 <= j < |s| && Slid(s)[j] == q;
      FirstMovedLeast(s, j);
      var k := Near(s, i, t);
      assert Slid(s)[k] in rows;
      assert Slid(s)[k].end in EndsBefore(rows, t);
    }
  }

  /** Nothing is left to remove: no gap above the threshold remains, and
      compacting again changes nothing. */
  lemma Idempotent(ps: seq<Process>)
    requires RunsOpen(Rows(ps))
    ensures forall t :: !IsBreak(Rows(Compacted(ps)), t)
    ensures Compacted(Compacted(ps)) == Compacted(ps)
  {
    var s := AView(ps);
    ViewSorted(ps, s);
    SlidRows(ps, s);
    var rows := Rows(Compacted(ps));
    hide View, Slid, OpensFinished, RunsOpen, SortedByStart, Rows;
    forall t ensures !IsBreak(rows, t) {
      NoBreakLeft(s, t);
    }
    forall t ensures Removed(rows, t) == 0 {
      assert BreaksUpTo(rows, t) == {};
    }
  }

  lemma FirstAt(s: seq<Process>, t: int) returns (i: nat)
    requires SortedByStart(s) && EndsBefore(Rows(s), t) != {} && exists p :: p in s && p.start == t
    ensures 0 < i < |s| && s[i].start == t && s[i - 1].start < t
  {
    var p :| p in s && p.start == t;
    var e := Pick(EndsBefore(Rows(s), t));
    var q :| q in Rows(s) && q.start < t && q.end == e;
    var k :| 0 <= k < |s| && s[k] == q;
    i :| 0 <= i < |s| && s[i] == p;
    while s[i - 1].start >= t
      invariant k < i < |s| && s[i].start == t
      decreases i
    {
      i := i - 1;
    }
  }

  /** The end times, after compaction, of the processes that started before `t`. */
  ghost function MovedEndsBefore(ps: seq<Process>, t: int): set<int> {
    set k | 0 <= k < |ps| && ps[k].start < t :: Compacted(ps)[k].end
  }

  lemma SameMove(ps: seq<Process>, a: nat, b: nat)
    requires a < |ps| && b < |ps| && ps[a].start == ps[b].start
    ensures Compacted(ps)[a].start == Compacted(ps)[b].start
  {
  }

  /** The prefix of a view that holds the processes starting before `t`. */
  ghost predicate Splits(s: seq<Process>, i: nat, t: int) {
    0 < i <= |s| && forall j :: 0 <= j < |s| ==> (j < i <==> s[j].start < t)
  }

  lemma LargestMovedEnd(ps: seq<Process>, s: seq<Process>, i: nat, t: int)
    requires View(ps, s) && Splits(s, i, t)
    ensures MovedEndsBefore(ps, t) != {}
    ensures MaxOf(MovedEndsBefore(ps, t)) == MaxEnd(Slid(s), i)
  {
    hide View, Compacted, MaxEnd, Slid, Removed, Shift;
    forall e | e in MovedEndsBefore(ps, t) ensures e <= MaxEnd(Slid(s), i) {
      var n :| 0 <= n < |ps| && ps[n].start < t && Compacted(ps)[n].end == e;
      var j := PlaceInView(ps, s, n);
      MaxEndBounds(Slid(s), i, j);
    }
    var k := MaxEndAttained(Slid(s), i);
    var m := PlaceInRows(ps, s, k);
    assert Compacted(ps)[m].end in MovedEndsBefore(ps, t);
  }

  lemma LargestEnd(ps: seq<Process>, s: seq<Process>, i: nat, t: int)
    requires View(ps, s) && Splits(s, i, t)
    ensures EndsBefore(Rows(ps), t) != {}
    ensures MaxOf(EndsBefore(Rows(ps), t)) == MaxEnd(s, i)
  {
    hide Slid, Removed, Shift, MaxEnd;
    var ends := EndsBefore(Rows(s), t);
    var k := MaxEndAttained(s, i);
    assert s[k] in s;
    assert s[k].end in ends;
    forall e | e in ends ensures e <= MaxEnd(s, i) {
      var p :| p in Rows(s) && p.start < t && p.end == e;
      var j :| 0 <= j < |s| && s[j] == p;
      MaxEndBounds(s, i, j);
    }
  }

  /** A run begins exactly where everything before it has ended. */
  lemma LaterRunsMeet(ps: seq<Process>, a: nat)
    requires RunsOpen(Rows(ps)) && a < |ps| && IsBreak(Rows(ps), ps[a].start)
    ensures MovedEndsBefore(ps, ps[a].start) != {}
    ensures Compacted(ps)[a].start == MaxOf(MovedEndsBefore(ps, ps[a].start))
  {
    hide *;
    var s := AView(ps);
    ViewSorted(ps, s);
    var i := BreakAt(s, ps[a].start);
    RunsMeet(s, i);
    var k := PlaceInRows(ps, s, i);
    SplitsAt(s, i);
    SameMove(ps, a, k);
    LargestMovedEnd(ps, s, i, ps[a].start);
  }

  /** A gap that is no break keeps its length. */
  lemma SmallGapStays(ps: seq<Process>, a: nat)
    requires RunsOpen(Rows(ps)) && a < |ps| && !IsBreak(Rows(ps), ps[a].start)
    requires EndsBefore(Rows(ps), ps[a].start) != {}
    ensures MovedEndsBefore(ps, ps[a].start) != {}
    ensures Compacted(ps)[a].start - MaxOf(MovedEndsBefore(ps, ps[a].start)) ==
      ps[a].start - MaxOf(EndsBefore(Rows(ps), ps[a].start))
  {
    hide *;
    var t := ps[a].start;
    var s := AView(ps);
    ViewSorted(ps, s);
    var b := PlaceInView(ps, s, a);
    assert s[b] in s;
    var i := FirstAt(s, t);
    BreaksIsBreak(s, i);
    SplitsAt(s, i);
    var k := PlaceInRows(ps, s, i);
    SameMove(ps, a, k);
    SlidMaxEnd(s, i);
    NoExtraShift(s, i);
    LargestMovedEnd(ps, s, i, t);
    LargestEnd(ps, s, i, t);
  }

  lemma NoExtraShift(s: seq<Process>, i: nat)
    requires 0 < i < |s| && !Breaks(s, i)
    ensures Slid(s)[i].start == s[i].start - Shift(s, i - 1)
  {
  }

  /** What compaction is for: the time between a start and the last end before
      it vanishes if it is more than one second, and stays as it is otherwise. */
  lemma GapsClosed(ps: seq<Process>, a: nat)
    requires RunsOpen(Rows(ps)) && a < |ps| && EndsBefore(Rows(ps), ps[a].start) != {}
    ensures MovedEndsBefore(ps, ps[a].start) != {}
    ensures
      var before := ps[a].start - MaxOf(EndsBefore(Rows(ps), ps[a].start));
      var after := Compacted(ps)[a].start - MaxOf(MovedEndsBefore(ps, ps[a].start));
      after == if before > 1000000 then 0 else before
  {
    hide Compacted, MovedEndsBefore, EndsBefore, RunsOpen;
    assert ps[a] in Rows(ps);
    assert IsBreak(Rows(ps), ps[a].start) <==> ps[a].start > MaxOf(EndsBefore(Rows(ps), ps[a].start)) + 1000000;
    if IsBreak(Rows(ps), ps[a].start) {
      LaterRunsMeet(ps, a);
    } else {
      SmallGapStays(ps, a);
    }
  }

  lemma SplitsAt(s: seq<Process>, i: nat)
    requires SortedByStart(s) && 0 < i < |s| && s[i - 1].start < s[i].start
    ensures Splits(s, i, s[i].start)
  {
  }

  ghost predicate SpansFrom(ps: seq<Process>, first: nat, last: nat) {
    && first < |ps| && last < |ps|
    && (forall k :: 0 <= k < |ps| ==> ps[first].start <= ps[k].start <= ps[last].start)
  }

  lemma Extremes(ps: seq<Process>, s: seq<Process>, first: nat, last: nat)
    requires View(ps, s) && SpansFrom(ps, first, last)
    ensures |s| > 0 && ps[first].start == s[0].start && ps[last].start == s[|s| - 1].start
    ensures Splits(s, |s|, ps[last].start + 1)
  {
    hide View, Slid, Compacted;
    ViewSorted(ps, s);
    var i := PlaceInView(ps, s, first);
    var j := PlaceInView(ps, s, last);
    forall k | 0 <= k < |s| ensures ps[first].start <= s[k].start <= ps[last].start {
      var m := PlaceInRows(ps, s, k);
    }
    assert s[0].start <= s[i].start && s[j].start <= s[|s| - 1].start;
  }

  /** The time between the first start and the last end shrinks by exactly the
      idle time removed: the first row stays, the last end moves by all of it. */
  lemma SpanShrinks(ps: seq<Process>, first: nat, last: nat)
    requires RunsOpen(Rows(ps)) && SpansFrom(ps, first, last)
    ensures Compacted(ps)[first].start == ps[first].start
    ensures var t := ps[last].start + 1;
      && EndsBefore(Rows(ps), t) != {} && MovedEndsBefore(ps, t) != {}
      && MaxOf(MovedEndsBefore(ps, t)) == MaxOf(EndsBefore(Rows(ps), t)) - Removed(Rows(ps), ps[last].start)
  {
    var s := AView(ps);
    var n := |s|;
    Extremes(ps, s, first, last);
    ViewSorted(ps, s);
    hide View, Slid, Compacted, Removed, Shift, MaxEnd, SpansFrom, Splits, MaxOf, OpensFinished, SortedByStart, Rows;
    hide EndsBefore, MovedEndsBefore;
    LastEndMoves(ps, s, ps[last].start + 1);
    FirstStays(ps, s, first);
  }

  lemma LastEndMoves(ps: seq<Process>, s: seq<Process>, t: int)
    requires View(ps, s) && |s| > 0 && Splits(s, |s|, t)
    ensures EndsBefore(Rows(ps), t) != {} && MovedEndsBefore(ps, t) != {}
    ensures MaxOf(MovedEndsBefore(ps, t)) ==
      MaxOf(EndsBefore(Rows(ps), t)) - Removed(Rows(ps), s[|s| - 1].start)
  {
    hide *;
    var n := |s|;
    ViewSorted(ps, s);
    LargestMovedEnd(ps, s, n, t);
    LargestEnd(ps, s, n, t);
    SlidMaxEnd(s, n);
    ShiftIsRemoved(s, n - 1);
  }

  lemma FirstStays(ps: seq<Process>, s: seq<Process>, first: nat)
    requires SortedByStart(s) && OpensFinished(s) && Rows(s) == Rows(ps) && |s| > 0
    requires first < |ps| && ps[first].start == s[0].start
    ensures Compacted(ps)[first].start == ps[first].start
  {
    ShiftIsRemoved(s, 0);
    CompactedAt(ps, first);
    hide Rows, Removed, Compacted;
    assert Shift(s, 0) == 0;
  }

  // ---- The algorithm ----

  datatype Run = Run(first: nat, last: nat, minStart: int, maxEnd: int)

  /** `runs` cuts the first `n` rows of a sorted order at its breaks. */
  ghost predicate CutAtBreaks(s: seq<Process>, n: nat, runs: seq<Run>) {
    && 0 < n <= |s| && |runs| > 0 && runs[0].first == 0 && runs[|runs| - 1].last == n - 1
    && (forall r :: 0 <= r < |runs| ==> RunOf(s, n, runs[r]))
    && (forall r :: 0 < r < |runs| ==> runs[r].first == runs[r - 1].last + 1 && Breaks(s, runs[r].first))
  }

  ghost predicate RunOf(s: seq<Process>, n: nat, run: Run)
    requires n <= |s|
  {
    && run.first <= run.last < n && run.minStart == s[run.first].start && run.maxEnd == MaxEnd(s, run.last + 1)
    && (forall k :: run.first < k <= run.last ==> !Breaks(s, k))
  }

  lemma CutCurrent(s: seq<Process>, n: nat, runs: seq<Run>, cur: Run)
    requires CutAtBreaks(s, n, runs + [cur])
    ensures cur.maxEnd == MaxEnd(s, n)
  {
    assert RunOf(s, n, (runs + [cur])[|runs|]);
  }

  method DetectRuns(s: seq<Process>) returns (runs: seq<Run>)
    requires SortedByStart(s) && OpensFinished(s) && |s| > 0
    ensures CutAtBreaks(s, |s|, runs)
  {
    runs := [];
    var cur := Run(0, 0, s[0].start, s[0].end);
    for i := 1 to |s|
      invariant CutAtBreaks(s, i, runs + [cur.(last := i - 1)])
    {
      hide CutAtBreaks;
      CutCurrent(s, i, runs, cur.(last := i - 1));
      if s[i].start > cur.maxEnd + GAP_THRESHOLD_US {
        cur := cur.(last := i - 1);
        runs := runs + [cur];
        CutBreak(s, i, runs);
        cur := Run(i, cur.last, s[i].start, s[i].end);
        assert cur.(last := i) == Run(i, i, s[i].start, s[i].end);
      } else {
        CutExtend(s, i, runs, cur.(last := i - 1));
        if s[i].end > cur.maxEnd {
          cur := cur.(maxEnd := s[i].end);
        }
      }
    }
    cur := cur.(last := |s| - 1);
    runs := runs + [cur];
  }

  lemma CutBreak(s: seq<Process>, i: nat, runs: seq<Run>)
    requires i < |s| && CutAtBreaks(s, i, runs) && Breaks(s, i) && s[i].start <= s[i].end
    ensures CutAtBreaks(s, i + 1, runs + [Run(i, i, s[i].start, s[i].end)])
  {
    var next := runs + [Run(i, i, s[i].start, s[i].end)];
    forall r | 0 <= r < |next| ensures RunOf(s, i + 1, next[r]) {
      assert r < |runs| ==> RunOf(s, i, runs[r]);
    }
  }

  lemma CutExtend(s: seq<Process>, i: nat, runs: seq<Run>, cur: Run)
    requires i < |s| && CutAtBreaks(s, i, runs + [cur]) && !Breaks(s, i)
    ensures CutAtBreaks(s, i + 1,
      runs + [cur.(last := i, maxEnd := if s[i].end > cur.maxEnd then s[i].end else cur.maxEnd)])
  {
    var before := runs + [cur];
    var after := runs + [cur.(last := i, maxEnd := if s[i].end > cur.maxEnd then s[i].end else cur.maxEnd)];
    assert RunOf(s, i, before[|runs|]);
    forall r | 0 <= r < |after| ensures RunOf(s, i + 1, after[r]) {
      assert r < |runs| ==> RunOf(s, i, before[r]) && before[r] == after[r];
    }
    forall r | 0 < r < |after| ensures after[r].first == after[r - 1].last + 1 && Breaks(s, after[r].first) {
      assert before[r].first == before[r - 1].last + 1;
      assert after[r].first == before[r].first && after[r - 1].last == before[r - 1].last;
    }
  }

  lemma {:induction false} ShiftWithinRun(s: seq<Process>, n: nat, run: Run, i: nat)
    requires n <= |s| && RunOf(s, n, run) && run.first <= i <= run.last
    ensures Shift(s, i) == Shift(s, run.first)
    decreases i
  {
    if run.first < i {
      ShiftWithinRun(s, n, run, i - 1);
    }
  }

  lemma ShiftAcross(s: seq<Process>, runs: seq<Run>, r: nat)
    requires CutAtBreaks(s, |s|, runs) && 0 < r < |runs|
    ensures Shift(s, runs[r].first) == Shift(s, runs[r - 1].first) + (runs[r].minStart - runs[r - 1].maxEnd)
  {
    hide MaxEnd;
    assert RunOf(s, |s|, runs[r]) && RunOf(s, |s|, runs[r - 1]);
    ShiftWithinRun(s, |s|, runs[r - 1], runs[r - 1].last);
    assert runs[r].first == runs[r - 1].last + 1 && Breaks(s, runs[r].first);
  }

  ghost predicate DistinctPids(ps: seq<Process>) {
    forall i, j :: 0 <= i < j < |ps| ==> ps[i].pid != ps[j].pid
  }

  /** The shifts recorded for the first `n` rows of a sorted order; absent means none. */
  ghost predicate ShiftsRecorded(s: seq<Process>, n: nat, shifts: map<Pid, int>)
    requires n <= |s|
  {
    && (forall i :: 0 <= i < n ==> (if s[i].pid in shifts then shifts[s[i].pid] else 0) == Shift(s, i))
    && (forall i :: n <= i < |s| ==> s[i].pid !in shifts)
  }

  lemma FirstRunUnshifted(s: seq<Process>, runs: seq<Run>)
    requires CutAtBreaks(s, |s|, runs)
    ensures runs[0].last + 1 <= |s| && ShiftsRecorded(s, runs[0].last + 1, map[])
    ensures Shift(s, runs[0].first) == 0
  {
    assert RunOf(s, |s|, runs[0]);
    forall i | 0 <= i < runs[0].last + 1 ensures Shift(s, i) == 0 {
      ShiftWithinRun(s, |s|, runs[0], i);
    }
  }

  lemma RecordShift(s: seq<Process>, i: nat, shifts: map<Pid, int>)
    requires i < |s| && DistinctPids(s) && ShiftsRecorded(s, i, shifts)
    ensures ShiftsRecorded(s, i + 1, shifts[s[i].pid := Shift(s, i)])
  {
    hide Shift;
  }

  method ShiftsByPid(s: seq<Process>, runs: seq<Run>) returns (shifts: map<Pid, int>)
    requires CutAtBreaks(s, |s|, runs) && DistinctPids(s)
    ensures ShiftsRecorded(s, |s|, shifts)
  {
    hide ShiftsRecorded, DistinctPids, Shift, Breaks, MaxEnd;
    shifts := map[];
    var cumulative := 0;
    FirstRunUnshifted(s, runs);
    for r := 1 to |runs|
      invariant cumulative == Shift(s, runs[r - 1].first)
      invariant runs[r - 1].last + 1 <= |s| && ShiftsRecorded(s, runs[r - 1].last + 1, shifts)
    {
      cumulative := cumulative + runs[r].minStart - runs[r - 1].maxEnd;
      ShiftAcross(s, runs, r);
      assert RunOf(s, |s|, runs[r]) && runs[r].first == runs[r - 1].last + 1;
      shifts := ShiftRun(s, runs[r], cumulative, shifts);
    }
  }

  method ShiftRun(s: seq<Process>, run: Run, cumulative: int, shifts0: map<Pid, int>)
    returns (shifts: map<Pid, int>)
    requires RunOf(s, |s|, run) && DistinctPids(s) && cumulative == Shift(s, run.first)
    requires ShiftsRecorded(s, run.first, shifts0)
    ensures ShiftsRecorded(s, run.last + 1, shifts)
  {
    shifts := shifts0;
    for i := run.first to run.last + 1
      invariant ShiftsRecorded(s, i, shifts)
    {
      hide ShiftsRecorded, DistinctPids;
      ShiftWithinRun(s, |s|, run, i);
      RecordShift(s, i, shifts);
      shifts := shifts[s[i].pid := cumulative];
    }
  }

  lemma PermutedPids(ps: seq<Process>, s: seq<Process>)
    requires DistinctPids(ps) && multiset(ps) == multiset(s)
    ensures DistinctPids(s)
  {
    assert NoDup(ps);
    PermutedNoDup(ps, s);
    forall i, j | 0 <= i < j < |s| ensures s[i].pid != s[j].pid {
      assert s[i] in s && s[j] in s;
      var a :| 0 <= a < |ps| && ps[a] == s[i];
      var b :| 0 <= b < |ps| && ps[b] == s[j];
    }
  }

  lemma RecordedIsRemoved(ps: seq<Process>, s: seq<Process>, shifts: map<Pid, int>, k: nat)
    requires View(ps, s) && ShiftsRecorded(s, |s|, shifts) && k < |ps|
    ensures Compacted(ps)[k] == Moved(ps[k], if ps[k].pid in shifts then shifts[ps[k].pid] else 0)
  {
    hide View, Compacted, Slid, Shift;
    var i := PlaceInView(ps, s, k);
    SlidAt(s, i);
  }

  lemma NothingToMove(ps: seq<Process>, s: seq<Process>)
    requires View(ps, s) && ShiftsRecorded(s, |s|, map[])
    ensures Compacted(ps) == ps
  {
    hide View, Compacted, ShiftsRecorded;
    forall k | 0 <= k < |ps| ensures Compacted(ps)[k] == ps[k] {
      RecordedIsRemoved(ps, s, map[], k);
    }
  }

  lemma FewRunsMoveNothing(ps: seq<Process>, s: seq<Process>, runs: seq<Run>)
    requires View(ps, s) && CutAtBreaks(s, |s|, runs) && |runs| <= 1
    ensures Compacted(ps) == ps
  {
    hide View, Compacted, OpensFinished, Shift;
    FirstRunUnshifted(s, runs);
    NothingToMove(ps, s);
  }

  lemma OneRowStays(ps: seq<Process>, s: seq<Process>)
    requires View(ps, s) && |ps| <= 1
    ensures Compacted(ps) == ps
  {
    ViewSorted(ps, s);
    assert ShiftsRecorded(s, |s|, map[]);
    NothingToMove(ps, s);
  }

  method ApplyShifts(procs: array<Process>, shifts: map<Pid, int>, ghost s: seq<Process>)
    requires View(procs[..], s) && ShiftsRecorded(s, |s|, shifts)
    modifies procs
    ensures procs[..] == Compacted(old(procs[..]))
  {
    hide View, Compacted, ShiftsRecorded;
    ghost var ps := procs[..];
    for i := 0 to procs.Length
      invariant forall k :: 0 <= k < i ==> procs[k] == Compacted(ps)[k]
      invariant forall k :: i <= k < procs.Length ==> procs[k] == ps[k]
    {
      RecordedIsRemoved(ps, s, shifts, i);
      if procs[i].pid in shifts {
        procs[i] := Moved(procs[i], shifts[procs[i].pid]);
      }
    }
    assert procs[..] == Compacted(ps);
  }

  /** Moves every row, in place, by the idle time removed before it starts. */
  method CompactRuns(procs: array<Process>)
    requires DistinctPids(procs[..]) && RunsOpen(Rows(procs[..]))
    modifies procs
    ensures procs[..] == Compacted(old(procs[..]))
  {
    var s := SortByStart(procs[..]);
    SortedIsView(procs[..], s);
    ViewSorted(procs[..], s);
    PermutedPids(procs[..], s);
    hide View, Compacted, CutAtBreaks, DistinctPids, ShiftsRecorded;
    if procs.Length <= 1 {
      OneRowStays(procs[..], s);
      return;
    }
    var runs := DetectRuns(s);
    if |runs| <= 1 {
      FewRunsMoveNothing(procs[..], s, runs);
      return;
    }
    var shifts := ShiftsByPid(s, runs);
    ApplyShifts(procs, shifts, s);
  }
}
