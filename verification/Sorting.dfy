/** Sorting process rows by start time. Callers rely on the contract alone, so
    what they prove holds for every order among rows that start together. */
module Sorting {
  import opened Ordering
  import opened Processes

  ghost predicate SortedByStart(ps: seq<Process>) {
    forall i, j :: 0 <= i < j < |ps| ==> ps[i].start <= ps[j].start
  }

  function Insert(p: Process, ps: seq<Process>): (r: seq<Process>)
    ensures multiset(r) == multiset{p} + multiset(ps) && |r| == |ps| + 1
  {
    if ps == [] then [p]
    else if p.start < ps[0].start then [p] + ps
    else
      assert ps == [ps[0]] + ps[1..];
      [ps[0]] + Insert(p, ps[1..])
  }

  lemma {:induction false} InsertSorted(p: Process, ps: seq<Process>)
    requires SortedByStart(ps)
    ensures SortedByStart(Insert(p, ps))
  {
    if ps == [] || p.start < ps[0].start {
      FrontSorted(p, ps);
    } else {
      InsertSorted(p, ps[1..]);
      InsertedLater(p, ps[1..], ps[0].start);
      FrontSorted(ps[0], Insert(p, ps[1..]));
    }
  }

  lemma FrontSorted(p: Process, ps: seq<Process>)
    requires SortedByStart(ps) && forall k :: 0 <= k < |ps| ==> p.start <= ps[k].start
    ensures SortedByStart([p] + ps)
  {
  }

  lemma InsertedLater(p: Process, ps: seq<Process>, t: int)
    requires t <= p.start && forall k :: 0 <= k < |ps| ==> t <= ps[k].start
    ensures forall k :: 0 <= k < |Insert(p, ps)| ==> t <= Insert(p, ps)[k].start
  {
    var r := Insert(p, ps);
    hide Insert;
    forall k | 0 <= k < |r| ensures t <= r[k].start {
      assert r[k] in multiset(r);
      assert r[k] == p || r[k] in ps;
    }
  }

  /** One of the orders sorting may produce; it shows that there is one. */
  ghost function InStartOrder(ps: seq<Process>): (r: seq<Process>)
    ensures multiset(r) == multiset(ps) && SortedByStart(r)
  {
    if ps == [] then []
    else
      assert ps == [ps[0]] + ps[1..];
      InsertSorted(ps[0], InStartOrder(ps[1..]));
      Insert(ps[0], InStartOrder(ps[1..]))
  }

  method SortByStart(ps: seq<Process>) returns (sorted: seq<Process>)
    ensures multiset(sorted) == multiset(ps) && |sorted| == |ps| && SortedByStart(sorted)
  {
    sorted := [];
    for i := 0 to |ps|
      invariant multiset(sorted) == multiset(ps[..i]) && |sorted| == i && SortedByStart(sorted)
    {
      InsertSorted(ps[i], sorted);
      sorted := Insert(ps[i], sorted);
      assert ps[..i + 1] == ps[..i] + [ps[i]];
    }
    assert ps[..|ps|] == ps;
  }

  lemma {:induction false} NoDupMultiset<T(!new)>(s: seq<T>)
    requires NoDup(s)
    ensures forall x :: multiset(s)[x] <= 1
  {
    if s != [] {
      var front, last := s[..|s| - 1], s[|s| - 1];
      assert s == front + [last];
      NoDupMultiset(front);
      assert last !in front;
      assert multiset(front)[last] == 0;
    }
  }

  lemma RepeatCounts<T>(t: seq<T>, i: nat, j: nat)
    requires i < j < |t| && t[i] == t[j]
    ensures multiset(t)[t[i]] >= 2
  {
    assert t == t[..j] + t[j..];
    assert t[..j][i] == t[i] && t[j..][0] == t[i];
    assert t[i] in multiset(t[..j]) && t[i] in multiset(t[j..]);
  }

  /** A permutation of distinct items has distinct items. */
  lemma PermutedNoDup<T(!new)>(s: seq<T>, t: seq<T>)
    requires NoDup(s) && multiset(s) == multiset(t)
    ensures NoDup(t) && forall x :: x in s <==> x in t
  {
    NoDupMultiset(s);
    forall x ensures x in s <==> x in t {
      assert x in s <==> x in multiset(s);
      assert x in t <==> x in multiset(t);
    }
    forall i, j | 0 <= i < j < |t| ensures t[i] != t[j] {
      if t[i] == t[j] {
        RepeatCounts(t, i, j);
      }
    }
  }

  lemma PermutedMembers<T(!new)>(s: seq<T>, t: seq<T>)
    requires multiset(s) == multiset(t)
    ensures |s| == |t| && forall x :: x in s <==> x in t
  {
    assert |s| == |multiset(s)| && |t| == |multiset(t)|;
    forall x ensures x in s <==> x in t {
      assert x in s <==> x in multiset(s);
      assert x in t <==> x in multiset(t);
    }
  }
}
