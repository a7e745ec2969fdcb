/** How many processes ran at once: the exact sweep of the summary and the
    bucket chart of the parallelism report. */
module Parallelism {
  import opened Processes

  predicate Finished(p: Process) { p.end > 0 }

  /** Clocks do not run backwards for the processes that finished. */
  predicate Timed(rows: seq<Process>) {
    forall i :: 0 <= i < |rows| && Finished(rows[i]) ==> rows[i].start <= rows[i].end
  }

  /** Running at instant `t`; a span holds its start and not its end. */
  ghost predicate Covers(p: Process, t: int) { Finished(p) && t in Lifetime(p) }

  /** The rows, by position, of the finished processes that run at instant `t`. */
  ghost function RunningAt(rows: seq<Process>, t: int): set<int> {
    set i | 0 <= i < |rows| && rows[i].end > 0 && t in Lifetime(rows[i])
  }

  ghost function Covering(rows: seq<Process>, t: int): nat {
    if rows == [] then 0
    else
      var n := |rows| - 1;
      Covering(rows[..n], t) + if Covers(rows[n], t) then 1 else 0
  }

  lemma {:induction false} CoveringCounts(rows: seq<Process>, t: int)
    ensures Covering(rows, t) == |RunningAt(rows, t)|
  {
    if rows == [] {
      assert RunningAt(rows, t) == {};
    } else {
      var n := |rows| - 1;
      CoveringCounts(rows[..n], t);
      RunningGrows(rows, t);
    }
  }

  lemma RunningGrows(rows: seq<Process>, t: int)
    requires rows != []
    ensures var n := |rows| - 1;
      |RunningAt(rows, t)| == |RunningAt(rows[..n], t)| + if Covers(rows[n], t) then 1 else 0
  {
    hide Lifetime;
    var n := |rows| - 1;
    var before := RunningAt(rows[..n], t);
    assert forall i :: 0 <= i < n ==> rows[..n][i] == rows[i];
    assert n !in before;
    if Covers(rows[n], t) {
      assert RunningAt(rows, t) == before + {n};
    } else {
      assert RunningAt(rows, t) == before;
    }
  }

  /** Its two events, seen from instant `t`; a row whose end lies before its
      start counts against the others in between. */
  function Surplus(p: Process, t: int): int {
    if !Finished(p) then 0 else (if p.start <= t then 1 else 0) - (if p.end <= t then 1 else 0)
  }

  function Net(rows: seq<Process>, t: int): int {
    if rows == [] then 0
    else
      var n := |rows| - 1;
      Net(rows[..n], t) + Surplus(rows[n], t)
  }

  lemma {:induction false} NetIsCovering(rows: seq<Process>, t: int)
    requires Timed(rows)
    ensures Net(rows, t) == Covering(rows, t)
  {
    if rows != [] {
      NetIsCovering(rows[..|rows| - 1], t);
    }
  }

  // ---- The sweep ----

  datatype Event = Event(time: int, delta: int)

  /** Pairs compare by time first; at one instant the ends come before the starts. */
  predicate NotAfter(a: Event, b: Event) {
    a.time < b.time || (a.time == b.time && a.delta <= b.delta)
  }

  predicate Sorted(es: seq<Event>) {
    forall i, j :: 0 <= i < j < |es| ==> NotAfter(es[i], es[j])
  }

  function Insert(es: seq<Event>, e: Event): (r: seq<Event>)
    ensures multiset(r) == multiset(es) + multiset{e}
  {
    var n := |es| - 1;
    if es == [] then [e]
    else
      assert es == es[..n] + [es[n]];
      if NotAfter(es[n], e) then es + [e] else Insert(es[..n], e) + [es[n]]
  }

  /** Equal pairs cannot be told apart, so every sort yields this list. */
  function Sort(es: seq<Event>): (r: seq<Event>)
    ensures multiset(r) == multiset(es)
  {
    var n := |es| - 1;
    if es == [] then []
    else
      assert es == es[..n] + [es[n]];
      Insert(Sort(es[..n]), es[n])
  }

  lemma {:induction false} InsertSorted(es: seq<Event>, e: Event)
    requires Sorted(es)
    ensures Sorted(Insert(es, e))
  {
    var n := |es| - 1;
    if es != [] && !NotAfter(es[n], e) {
      InsertSorted(es[..n], e);
      var r := Insert(es[..n], e);
      forall i | 0 <= i < |r| ensures NotAfter(r[i], es[n]) {
        assert r[i] in multiset(r);
        assert r[i] == e || r[i] in es[..n];
      }
    }
  }

  lemma {:induction false} SortSorted(es: seq<Event>)
    ensures Sorted(Sort(es))
  {
    if es != [] {
      var n := |es| - 1;
      SortSorted(es[..n]);
      InsertSorted(Sort(es[..n]), es[n]);
    }
  }

  /** The counter after all of `es`. */
  function Total(es: seq<Event>): int {
    if es == [] then 0 else Total(es[..|es| - 1]) + es[|es| - 1].delta
  }

  function Weight(e: Event, t: int): int { if e.time <= t then e.delta else 0 }

  ghost predicate Steps(es: seq<Event>) {
    forall e :: e in multiset(es) ==> e.delta == 1 || e.delta == -1
  }

  /** What the events up to instant `t` add up to. */
  function Balance(es: seq<Event>, t: int): int {
    if es == [] then 0 else Balance(es[..|es| - 1], t) + Weight(es[|es| - 1], t)
  }

  lemma BalanceSnoc(es: seq<Event>, e: Event, t: int)
    ensures Balance(es + [e], t) == Balance(es, t) + Weight(e, t)
  {
    assert (es + [e])[..|es|] == es;
  }

  lemma {:induction false} InsertBalance(es: seq<Event>, e: Event, t: int)
    ensures Balance(Insert(es, e), t) == Balance(es, t) + Weight(e, t)
  {
    var n := |es| - 1;
    if es == [] {
      BalanceSnoc([], e, t);
      assert [] + [e] == [e];
    } else if NotAfter(es[n], e) {
      BalanceSnoc(es, e, t);
    } else {
      InsertBalance(es[..n], e, t);
      BalanceSnoc(Insert(es[..n], e), es[n], t);
    }
  }

  lemma {:induction false} SortBalance(es: seq<Event>, t: int)
    ensures Balance(Sort(es), t) == Balance(es, t)
  {
    if es != [] {
      var n := |es| - 1;
      SortBalance(es[..n], t);
      InsertBalance(Sort(es[..n]), es[n], t);
    }
  }

  lemma {:induction false} TotalWithin(es: seq<Event>, t: int)
    requires forall i :: 0 <= i < |es| ==> es[i].time <= t
    ensures Total(es) == Balance(es, t)
  {
    if es != [] {
      TotalWithin(es[..|es| - 1], t);
    }
  }

  /** Each instant's balance is the counter at some point of the sweep. */
  lemma {:induction false} CutAt(es: seq<Event>, t: int) returns (k: nat)
    requires Sorted(es)
    ensures k <= |es| && Total(es[..k]) == Balance(es, t)
  {
    var n := |es| - 1;
    if es == [] || es[n].time <= t {
      k := |es|;
      assert es[..k] == es;
      TotalWithin(es, t);
    } else {
      k := CutAt(es[..n], t);
      assert es[..n][..k] == es[..k];
    }
  }

  /** Right after a start the counter does not exceed that instant's balance:
      what is left of the instant are starts. */
  lemma {:induction false} AfterStart(es: seq<Event>, i: nat, n: nat)
    requires Sorted(es) && i < n <= |es| && es[i].delta == 1
    ensures Total(es[..i + 1]) <= Balance(es[..n], es[i].time)
    decreases n
  {
    var t := es[i].time;
    if n == i + 1 {
      TotalWithin(es[..n], t);
    } else {
      AfterStart(es, i, n - 1);
      assert es[..n][..n - 1] == es[..n - 1];
      assert NotAfter(es[i], es[n - 1]);
    }
  }

  lemma NetSnoc(rows: seq<Process>, i: nat, t: int)
    requires i < |rows|
    ensures Net(rows[..i + 1], t) == Net(rows[..i], t) + Surplus(rows[i], t)
  {
    assert rows[..i + 1][..i] == rows[..i];
  }

  /** The two events of a finished row keep the balance equal to the net count. */
  lemma AddEvents(rows: seq<Process>, i: nat, es: seq<Event>)
    requires i < |rows| && Finished(rows[i])
    requires forall t :: Balance(es, t) == Net(rows[..i], t)
    ensures forall t :: Balance(es + [Event(rows[i].start, 1)] + [Event(rows[i].end, -1)], t) == Net(rows[..i + 1], t)
  {
    var a, b := Event(rows[i].start, 1), Event(rows[i].end, -1);
    forall t ensures Balance(es + [a] + [b], t) == Net(rows[..i + 1], t) {
      BalanceSnoc(es, a, t);
      BalanceSnoc(es + [a], b, t);
      NetSnoc(rows, i, t);
    }
  }

  method MaxParallel(rows: seq<Process>) returns (max: int)
    ensures forall t :: Net(rows, t) <= max
    ensures max == 0 || exists t :: Net(rows, t) == max
    ensures Timed(rows) ==>
      (forall t :: |RunningAt(rows, t)| <= max) && exists t :: |RunningAt(rows, t)| == max
  {
    var events: seq<Event> := [];
    for i := 0 to |rows|
      invariant forall t :: Balance(events, t) == Net(rows[..i], t)
      invariant Steps(events)
    {
      if rows[i].end > 0 {
        AddEvents(rows, i, events);
        events := events + [Event(rows[i].start, 1)];
        events := events + [Event(rows[i].end, -1)];
      } else {
        forall t ensures Balance(events, t) == Net(rows[..i + 1], t) {
          NetSnoc(rows, i, t);
        }
      }
    }
    assert rows[..|rows|] == rows;
    ghost var listed := events;
    SortSorted(listed);
    events := Sort(events);
    forall t ensures Balance(events, t) == Net(rows, t) {
      SortBalance(listed, t);
    }
    hide Sort, Net, Balance, Timed, RunningAt;
    max := Sweep(events);
    SweptIsMost(rows, events, max);
    if Timed(rows) {
      MostIsParallelism(rows, max);
    }
  }

  lemma SweptIsMost(rows: seq<Process>, events: seq<Event>, max: int)
    requires Sorted(events) && Swept(events, |events|, max) && forall t :: Balance(events, t) == Net(rows, t)
    ensures forall t :: Net(rows, t) <= max
    ensures max == 0 || exists t :: Net(rows, t) == max
  {
    hide Sorted, Net, Balance;
    forall t ensures Net(rows, t) <= max {
      assert Balance(events, t) == Net(rows, t);
      var k := CutAt(events, t);
      assert Total(events[..k]) <= max;
    }
    if max != 0 {
      var t :| Balance(events, t) >= max;
      assert Balance(events, t) == Net(rows, t);
    }
  }

  lemma MostIsParallelism(rows: seq<Process>, max: int)
    requires Timed(rows) && max >= 0 && forall t :: Net(rows, t) <= max
    requires max == 0 || exists t :: Net(rows, t) == max
    ensures (forall t :: |RunningAt(rows, t)| <= max) && exists t :: |RunningAt(rows, t)| == max
  {
    forall t ensures Net(rows, t) == |RunningAt(rows, t)| {
      NetIsCovering(rows, t);
      CoveringCounts(rows, t);
    }
    hide Timed, Net, RunningAt;
    assert Net(rows, 0) == |RunningAt(rows, 0)|;
  }

  lemma TotalSnoc(es: seq<Event>, i: nat)
    requires i < |es|
    ensures Total(es[..i + 1]) == Total(es[..i]) + es[i].delta
  {
    assert es[..i + 1][..i] == es[..i];
  }

  /** `max` bounds the counter over the first `n` events, and some instant reaches it. */
  ghost predicate Swept(es: seq<Event>, n: nat, max: int)
    requires n <= |es|
  {
    && max >= 0
    && (forall k :: 0 <= k <= n ==> Total(es[..k]) <= max)
    && (max == 0 || exists t :: Balance(es, t) >= max)
  }

  lemma SweptNext(es: seq<Event>, i: nat, max: int)
    requires Sorted(es) && Steps(es) && i < |es| && Swept(es, i, max)
    ensures var cur := Total(es[..i]) + es[i].delta;
      Total(es[..i + 1]) == cur && Swept(es, i + 1, if cur > max then cur else max)
  {
    TotalSnoc(es, i);
    if Total(es[..i]) + es[i].delta > max {
      assert es[i] in multiset(es) && es[i].delta == 1;
      AfterStart(es, i, |es|);
      assert es[..|es|] == es;
    }
  }

  /** The running counter over sorted events and its largest value. */
  method Sweep(events: seq<Event>) returns (max: int)
    requires Sorted(events) && Steps(events)
    ensures Swept(events, |events|, max) && max >= 0
  {
    max := 0;
    var cur := 0;
    for i := 0 to |events|
      invariant cur == Total(events[..i]) && Swept(events, i, max)
    {
      SweptNext(events, i, max);
      hide Sorted, Steps, Swept, Total;
      cur := cur + events[i].delta;
      if cur > max { max := cur; }
    }
  }

  // ---- The bucket chart ----

  const SECOND := 1000000
  const MOST_BUCKETS := 3600

  /** Narrowing a 64-bit value to `int`. */
  function Int32(x: int): int {
    (x + 0x8000_0000) % 0x1_0000_0000 - 0x8000_0000
  }

  datatype Chart = NoSpan | Chart(min: int, width: int, counts: seq<int>, peak: int, sum: int, active: int)

  /** The closed span of a process meets bucket `b`. */
  predicate Touches(p: Process, min: int, width: int, b: int) {
    Finished(p) && p.start < min + (b + 1) * width && min + b * width <= p.end
  }

  function Touching(rows: seq<Process>, min: int, width: int, b: int): nat {
    if rows == [] then 0
    else
      var n := |rows| - 1;
      Touching(rows[..n], min, width, b) + if Touches(rows[n], min, width, b) then 1 else 0
  }

  predicate IsMinStart(rows: seq<Process>, m: int) {
    (forall i :: 0 <= i < |rows| ==> m <= rows[i].start) && exists i :: 0 <= i < |rows| && rows[i].start == m
  }

  predicate IsMaxEnd(rows: seq<Process>, m: int) {
    (forall i :: 0 <= i < |rows| ==> rows[i].end <= m) && exists i :: 0 <= i < |rows| && rows[i].end == m
  }

  function SumOf(counts: seq<int>): int {
    if counts == [] then 0 else SumOf(counts[..|counts| - 1]) + counts[|counts| - 1]
  }

  function ActiveIn(counts: seq<int>): int {
    if counts == [] then 0
    else ActiveIn(counts[..|counts| - 1]) + if counts[|counts| - 1] > 0 then 1 else 0
  }

  predicate IsPeak(counts: seq<int>, peak: int) {
    && peak >= 0
    && (forall b :: 0 <= b < |counts| ==> counts[b] <= peak)
    && (peak == 0 || peak in counts)
  }

  /** The buckets hold, one by one, the processes touching them, and no
      process touches anything outside the chart. */
  ghost predicate Charts(rows: seq<Process>, c: Chart)
    requires c.Chart?
  {
    && IsMinStart(rows, c.min) && c.width > 0
    && (forall b :: 0 <= b < |c.counts| ==> c.counts[b] == Touching(rows, c.min, c.width, b))
    && (forall i, b :: 0 <= i < |rows| && Touches(rows[i], c.min, c.width, b) ==> 0 <= b < |c.counts|)
  }

  lemma DivBounds(x: int, w: int)
    requires x >= 0 && w > 0
    ensures 0 <= x / w && x / w * w <= x < (x / w + 1) * w
  {
  }

  lemma MulLe(a: int, b: int, w: int)
    requires a <= b && w > 0
    ensures a * w <= b * w
  {
  }

  lemma DivMeets(x: int, w: int, b: int)
    requires x >= 0 && w > 0
    ensures x < (b + 1) * w <==> x / w <= b
    ensures b * w <= x <==> b <= x / w
  {
    DivBounds(x, w);
    var q := x / w;
    if q <= b { MulLe(q + 1, b + 1, w); } else { MulLe(b + 1, q, w); }
    if b <= q { MulLe(b, q, w); } else { MulLe(q + 1, b, w); }
  }

  /** The first and last bucket computed for a row are the first and last it touches. */
  lemma TouchedRange(p: Process, min: int, width: int, b: int)
    requires Finished(p) && min <= p.start && min <= p.end && width > 0
    ensures Touches(p, min, width, b) <==> (p.start - min) / width <= b <= (p.end - min) / width
  {
    DivMeets(p.start - min, width, b);
    DivMeets(p.end - min, width, b);
  }

  /** The number of buckets and their width. */
  function Buckets(total: int): int {
    if total / SECOND + 1 > MOST_BUCKETS then MOST_BUCKETS else total / SECOND + 1
  }

  function Width(total: int): int {
    if total / SECOND + 1 > MOST_BUCKETS then total / MOST_BUCKETS + 1 else SECOND
  }

  /** The last bucket a span can reach is inside the chart, capped or not. */
  lemma NeverClamped(total: int, x: int)
    requires total > 0 && 0 <= x <= total
    ensures Width(total) > 0
    ensures 0 <= x / Width(total) < Buckets(total)
  {
    var w, n := Width(total), Buckets(total);
    if total / SECOND + 1 > MOST_BUCKETS {
      DivBounds(total, MOST_BUCKETS);
    } else {
      DivBounds(total, SECOND);
    }
    assert total < n * w;
    DivMeets(x, w, n - 1);
    DivBounds(x, w);
  }

  /** Every row ends inside a span this program can count in 32-bit seconds. */
  predicate SpanFits(rows: seq<Process>) {
    forall i, j :: 0 <= i < |rows| && 0 <= j < |rows| ==> (rows[j].end - rows[i].start) / SECOND + 1 < 0x8000_0000
  }

  /** `n` buckets of width `w` for a span: one-second buckets, the last of which
      holds the span's end, as long as 3600 of them reach over it, and otherwise
      3600 of the least width that does. */
  predicate Fits(n: nat, w: int, total: int) {
    if total < 3600 * 1000000 then w == 1000000 && (n - 1) * 1000000 <= total < n * 1000000
    else n == 3600 && 3600 * (w - 1) <= total < 3600 * w
  }

  lemma PlanFits(total: int)
    requires total > 0
    ensures Buckets(total) > 0 && Fits(Buckets(total), Width(total), total)
  {
    DivBounds(total, SECOND);
    DivBounds(total, MOST_BUCKETS);
  }

  /** The chart's extent follows from the earliest start and the latest end. */
  predicate Framed(c: Chart, min: int, max: int) {
    && (c.NoSpan? <==> max <= min)
    && (c.Chart? ==> c.min == min && Fits(|c.counts|, c.width, max - min))
  }

  /** No process ended before the recording began or began after it ended. */
  ghost predicate Inside(rows: seq<Process>) {
    forall i :: 0 <= i < |rows| && Finished(rows[i]) ==> StartsBy(rows, rows[i].end) && EndsFrom(rows, rows[i].start)
  }

  ghost predicate StartsBy(rows: seq<Process>, t: int) {
    exists j :: 0 <= j < |rows| && rows[j].start <= t
  }

  ghost predicate EndsFrom(rows: seq<Process>, t: int) {
    exists j :: 0 <= j < |rows| && t <= rows[j].end
  }

  /** Clocks that do not run backwards give that. */
  lemma TimedIsInside(rows: seq<Process>)
    requires Timed(rows)
    ensures Inside(rows)
  {
  }

  lemma SpanInside(rows: seq<Process>, i: nat, min: int, max: int)
    requires Inside(rows) && IsMinStart(rows, min) && IsMaxEnd(rows, max) && i < |rows| && Finished(rows[i])
    ensures min <= rows[i].start <= max && min <= rows[i].end <= max
  {
    assert StartsBy(rows, rows[i].end) && EndsFrom(rows, rows[i].start);
  }

  method BucketChart(rows: seq<Process>) returns (c: Chart)
    requires Inside(rows) && SpanFits(rows)
    ensures rows == [] ==> c == NoSpan
    ensures rows != [] ==> exists min, max :: IsMinStart(rows, min) && IsMaxEnd(rows, max) && Framed(c, min, max)
    ensures c.Chart? ==> Charts(rows, c)
    ensures c.Chart? ==> IsPeak(c.counts, c.peak) && c.sum == SumOf(c.counts) && c.active == ActiveIn(c.counts)
  {
    if |rows| == 0 {
      return NoSpan;
    }
    var minTime, maxTime := Bounds(rows);
    var total := maxTime - minTime;
    if total <= 0 {
      c := NoSpan;
      assert Framed(c, minTime, maxTime);
      return;
    }
    TotalFits(rows, minTime, maxTime);
    hide Inside, SpanFits, IsMinStart, IsMaxEnd, Touching, Touches, SumOf, ActiveIn, IsPeak;
    var n, width := Plan(total);
    var counts := Fill(rows, minTime, total, n, width);
    PlanFits(total);
    hide Buckets, Width, Fits;
    var peak, sum, active := Tally(counts);
    c := Chart(minTime, width, counts, peak, sum, active);
    assert Framed(c, minTime, maxTime);
  }

  lemma TotalFits(rows: seq<Process>, min: int, max: int)
    requires SpanFits(rows) && IsMinStart(rows, min) && IsMaxEnd(rows, max)
    ensures (max - min) / SECOND + 1 < 0x8000_0000
  {
    var i, j :| 0 <= i < |rows| && 0 <= j < |rows| && rows[i].start == min && rows[j].end == max;
    assert (rows[j].end - rows[i].start) / SECOND + 1 < 0x8000_0000;
  }

  method Plan(total: int) returns (n: int, width: int)
    requires total > 0 && total / SECOND + 1 < 0x8000_0000
    ensures n == Buckets(total) && width == Width(total) && n > 0
  {
    DivBounds(total, SECOND);
    width := SECOND;
    Narrow(total / width);
    n := Int32(total / width) + 1;
    if n > MOST_BUCKETS {
      n := MOST_BUCKETS;
      width := total / n + 1;
    }
  }

  method Tally(counts: seq<int>) returns (peak: int, sum: int, active: int)
    requires forall b :: 0 <= b < |counts| ==> counts[b] >= 0
    ensures IsPeak(counts, peak) && sum == SumOf(counts) && active == ActiveIn(counts)
  {
    peak, sum, active := 0, 0, 0;
    for i := 0 to |counts|
      invariant IsPeak(counts[..i], peak) && sum == SumOf(counts[..i]) && active == ActiveIn(counts[..i])
    {
      assert counts[..i + 1][..i] == counts[..i];
      if counts[i] > peak { peak := counts[i]; }
      if counts[i] > 0 {
        sum := sum + counts[i];
        active := active + 1;
      }
    }
    assert counts[..|counts|] == counts;
  }

  method Bounds(rows: seq<Process>) returns (minTime: int, maxTime: int)
    requires |rows| > 0
    ensures IsMinStart(rows, minTime) && IsMaxEnd(rows, maxTime)
  {
    minTime, maxTime := rows[0].start, rows[0].end;
    for i := 1 to |rows|
      invariant forall j :: 0 <= j < i ==> minTime <= rows[j].start && rows[j].end <= maxTime
      invariant exists j :: 0 <= j < i && rows[j].start == minTime
      invariant exists j :: 0 <= j < i && rows[j].end == maxTime
    {
      if rows[i].start < minTime { minTime := rows[i].start; }
      if rows[i].end > maxTime { maxTime := rows[i].end; }
    }
  }

  lemma TouchingSnoc(rows: seq<Process>, i: nat, min: int, width: int, b: int)
    requires i < |rows|
    ensures Touching(rows[..i + 1], min, width, b)
         == Touching(rows[..i], min, width, b) + if Touches(rows[i], min, width, b) then 1 else 0
  {
    assert rows[..i + 1][..i] == rows[..i];
  }

  /** The counts for the first `i` rows, none of which touches anything else. */
  ghost predicate Counted(counts: seq<int>, rows: seq<Process>, i: nat, min: int, width: int)
    requires i <= |rows|
  {
    && (forall b :: 0 <= b < |counts| ==> counts[b] == Touching(rows[..i], min, width, b))
    && (forall k, b :: 0 <= k < i && Touches(rows[k], min, width, b) ==> 0 <= b < |counts|)
  }

  lemma CountRow(before: seq<int>, after: seq<int>, rows: seq<Process>, i: nat, min: int, width: int, first: int, last: int)
    requires i < |rows| && Counted(before, rows, i, min, width) && |after| == |before|
    requires 0 <= first && last < |before|
    requires forall b :: Touches(rows[i], min, width, b) <==> first <= b <= last
    requires forall b :: 0 <= b < |after| ==> after[b] == before[b] + if first <= b <= last then 1 else 0
    ensures Counted(after, rows, i + 1, min, width)
  {
    forall b | 0 <= b < |after| ensures after[b] == Touching(rows[..i + 1], min, width, b) {
      TouchingSnoc(rows, i, min, width, b);
    }
    hide Touches;
  }

  lemma SkipRow(counts: seq<int>, rows: seq<Process>, i: nat, min: int, width: int)
    requires i < |rows| && Counted(counts, rows, i, min, width) && !Finished(rows[i])
    ensures Counted(counts, rows, i + 1, min, width)
  {
    forall b | 0 <= b < |counts| ensures counts[b] == Touching(rows[..i + 1], min, width, b) {
      TouchingSnoc(rows, i, min, width, b);
    }
  }

  method Fill(rows: seq<Process>, minTime: int, total: int, n: int, width: int) returns (counts: seq<int>)
    requires Inside(rows) && IsMinStart(rows, minTime) && IsMaxEnd(rows, minTime + total) && SpanFits(rows)
    requires total > 0 && n == Buckets(total) && width == Width(total)
    ensures |counts| == n && width > 0
    ensures forall b :: 0 <= b < n ==> counts[b] == Touching(rows, minTime, width, b) >= 0
    ensures forall i, b :: 0 <= i < |rows| && Touches(rows[i], minTime, width, b) ==> 0 <= b < n
  {
    NeverClamped(total, total);
    var buckets := new int[n](_ => 0);
    assert Counted(buckets[..], rows, 0, minTime, width);
    for i := 0 to |rows|
      invariant Counted(buckets[..], rows, i, minTime, width)
    {
      hide Counted, Touching, Touches, Inside, IsMinStart, IsMaxEnd, SpanFits, Buckets, Width;
      if rows[i].end > 0 {
        var first, last := Int32((rows[i].start - minTime) / width), Int32((rows[i].end - minTime) / width);
        RangeOf(rows, i, minTime, total);
        if first < 0 { first := 0; }
        if last >= n { last := n - 1; }
        ghost var before := buckets[..];
        CountSpan(buckets, first, last);
        CountRow(before, buckets[..], rows, i, minTime, width, first, last);
      } else {
        SkipRow(buckets[..], rows, i, minTime, width);
      }
    }
    assert rows[..|rows|] == rows;
    counts := buckets[..];
  }

  /** One more in each bucket from `first` to `last`. */
  method CountSpan(buckets: array<int>, first: int, last: int)
    requires 0 <= first < buckets.Length && last < buckets.Length
    modifies buckets
    ensures forall j :: 0 <= j < buckets.Length ==>
      buckets[..][j] == old(buckets[..])[j] + if first <= j <= last then 1 else 0
  {
    var b := first;
    while b <= last
      invariant first <= b && (b <= last + 1 || b == first)
      invariant forall j :: 0 <= j < buckets.Length ==> buckets[j] == old(buckets[j]) + if first <= j < b then 1 else 0
    {
      buckets[b] := buckets[b] + 1;
      b := b + 1;
    }
  }

  /** Neither cast nor clamp changes a finished row's bucket range. */
  lemma RangeOf(rows: seq<Process>, i: nat, minTime: int, total: int)
    requires Inside(rows) && IsMinStart(rows, minTime) && IsMaxEnd(rows, minTime + total) && SpanFits(rows)
    requires total > 0 && i < |rows| && Finished(rows[i])
    ensures Width(total) > 0
    ensures var w := Width(total);
      var first, last := (rows[i].start - minTime) / w, (rows[i].end - minTime) / w;
      && 0 <= first < Buckets(total) && 0 <= last < Buckets(total) && Int32(first) == first && Int32(last) == last
      && forall b :: Touches(rows[i], minTime, w, b) <==> first <= b <= last
  {
    var w, p := Width(total), rows[i];
    SpanInside(rows, i, minTime, minTime + total);
    hide Inside, IsMinStart, IsMaxEnd, SpanFits;
    NeverClamped(total, p.start - minTime);
    NeverClamped(total, p.end - minTime);
    assert Buckets(total) <= MOST_BUCKETS;
    hide Inside, IsMinStart, IsMaxEnd, SpanFits, Buckets, Width, Finished;
    SpanRange(p, minTime, w);
    Narrow((p.start - minTime) / w);
    Narrow((p.end - minTime) / w);
  }

  lemma Narrow(x: int)
    requires 0 <= x < 0x8000_0000
    ensures Int32(x) == x
  {
  }

  lemma SpanRange(p: Process, minTime: int, w: int)
    requires Finished(p) && minTime <= p.start && minTime <= p.end && w > 0
    ensures forall b :: Touches(p, minTime, w, b) <==> (p.start - minTime) / w <= b <= (p.end - minTime) / w
  {
    forall b ensures Touches(p, minTime, w, b) <==> (p.start - minTime) / w <= b <= (p.end - minTime) / w {
      TouchedRange(p, minTime, w, b);
    }
  }

  // ---- The chart against the sweep ----

  lemma {:induction false} InstantInBucket(rows: seq<Process>, min: int, width: int, t: int)
    requires min <= t && width > 0
    ensures Covering(rows, t) <= Touching(rows, min, width, (t - min) / width)
  {
    if rows != [] {
      InstantInBucket(rows[..|rows| - 1], min, width, t);
      DivBounds(t - min, width);
    }
  }

  lemma {:induction false} SomeoneCovers(rows: seq<Process>, t: int) returns (i: nat)
    requires Covering(rows, t) > 0
    ensures i < |rows| && Covers(rows[i], t)
  {
    i := |rows| - 1;
    if !Covers(rows[i], t) {
      i := SomeoneCovers(rows[..i], t);
    }
  }

  /** The chart never shows less than the true parallelism of any instant. */
  lemma PeakBoundsSweep(rows: seq<Process>, c: Chart, t: int)
    requires c.Chart? && Charts(rows, c) && IsPeak(c.counts, c.peak)
    ensures Covering(rows, t) <= c.peak
  {
    if Covering(rows, t) > 0 {
      var i := SomeoneCovers(rows, t);
      InstantInBucket(rows, c.min, c.width, t);
      DivBounds(t - c.min, c.width);
      assert Touches(rows[i], c.min, c.width, (t - c.min) / c.width);
    }
  }

  // ---- Nothing is counted twice or lost ----

  /** How many buckets the finished rows touch, row by row. */
  function Spans(rows: seq<Process>, min: int, width: int): int
    requires width > 0
  {
    if rows == [] then 0
    else
      var p := rows[|rows| - 1];
      Spans(rows[..|rows| - 1], min, width)
      + if Finished(p) then (p.end - min) / width - (p.start - min) / width + 1 else 0
  }

  function SumTouching(rows: seq<Process>, min: int, width: int, n: nat): int {
    if n == 0 then 0 else SumTouching(rows, min, width, n - 1) + Touching(rows, min, width, n - 1)
  }

  function CountIn(first: int, last: int, n: nat): int {
    if n == 0 then 0 else CountIn(first, last, n - 1) + if first <= n - 1 <= last then 1 else 0
  }

  lemma {:induction false} CountWhole(first: int, last: int, n: nat)
    requires 0 <= first <= last + 1
    ensures last < n ==> CountIn(first, last, n) == last - first + 1
    ensures last >= n && first <= n ==> CountIn(first, last, n) == n - first
    ensures first >= n ==> CountIn(first, last, n) == 0
  {
    if n > 0 {
      CountWhole(first, last, n - 1);
    }
  }

  lemma {:induction false} SumTouchingLast(rows: seq<Process>, min: int, width: int, n: nat)
    requires |rows| > 0 && width > 0
    requires Finished(rows[|rows| - 1]) ==> min <= rows[|rows| - 1].start <= rows[|rows| - 1].end
    ensures var p := rows[|rows| - 1];
      SumTouching(rows, min, width, n) == SumTouching(rows[..|rows| - 1], min, width, n)
        + if Finished(p) then CountIn((p.start - min) / width, (p.end - min) / width, n) else 0
  {
    if n > 0 {
      SumTouchingLast(rows, min, width, n - 1);
      if Finished(rows[|rows| - 1]) {
        TouchedRange(rows[|rows| - 1], min, width, n - 1);
      }
    }
  }

  lemma {:induction false} SumsAgree(rows: seq<Process>, min: int, width: int, n: nat)
    requires width > 0 && Timed(rows)
    requires forall i :: 0 <= i < |rows| ==> min <= rows[i].start
    requires forall i, b :: 0 <= i < |rows| && Touches(rows[i], min, width, b) ==> 0 <= b < n
    ensures SumTouching(rows, min, width, n) == Spans(rows, min, width)
  {
    if rows == [] {
      NoneTouch(min, width, n);
    } else {
      var p := rows[|rows| - 1];
      SumsAgree(rows[..|rows| - 1], min, width, n);
      SumTouchingLast(rows, min, width, n);
      if Finished(p) {
        var first, last := (p.start - min) / width, (p.end - min) / width;
        DivMeets(p.start - min, width, first);
        DivMeets(p.end - min, width, first);
        TouchedRange(p, min, width, last);
        DivBounds(p.start - min, width);
        CountWhole(first, last, n);
      }
    }
  }

  lemma {:induction false} NoneTouch(min: int, width: int, n: nat)
    ensures SumTouching([], min, width, n) == 0
  {
    if n > 0 {
      NoneTouch(min, width, n - 1);
    }
  }

  lemma {:induction false} SumOfCounts(rows: seq<Process>, min: int, width: int, counts: seq<int>)
    requires forall b :: 0 <= b < |counts| ==> counts[b] == Touching(rows, min, width, b)
    ensures SumOf(counts) == SumTouching(rows, min, width, |counts|)
  {
    if counts != [] {
      SumOfCounts(rows, min, width, counts[..|counts| - 1]);
    }
  }

  /** The bars add up to the buckets each process spans, nothing lost at the edges. */
  lemma BarsConserveSpans(rows: seq<Process>, c: Chart)
    requires c.Chart? && Timed(rows) && Charts(rows, c)
    ensures SumOf(c.counts) == Spans(rows, c.min, c.width)
  {
    SumOfCounts(rows, c.min, c.width, c.counts);
    SumsAgree(rows, c.min, c.width, |c.counts|);
  }
}
