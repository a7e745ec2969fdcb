/** The order in which the program's `std::set<int>` and `std::map<int, ...>` are walked. */
module Ordering {

  ghost predicate NoDup<T(!new)>(s: seq<T>) {
    forall i, j :: 0 <= i < j < |s| ==> s[i] != s[j]
  }

  /** `s` lists every element of `xs` exactly once. */
  ghost predicate Enumerates<T(!new)>(s: seq<T>, xs: set<T>) {
    NoDup(s) && forall x :: x in s <==> x in xs
  }

  ghost predicate StrictlyAscending(s: seq<int>) {
    forall i, j :: 0 <= i < j < |s| ==> s[i] < s[j]
  }

  ghost function Pick<T>(s: set<T>): (x: T)
    requires s != {}
    ensures x in s
  {
    var x :| x in s; x
  }

  lemma {:induction false} MinExists(s: set<int>)
    requires s != {}
    ensures exists m :: m in s && forall x :: x in s ==> m <= x
  {
    var m := Pick(s);
    if s != {m} {
      var rest := s - {m};
      assert s == rest + {m};
      assert rest != {};
      MinExists(rest);
      var r :| r in rest && forall x :: x in rest ==> r <= x;
      var least := if r < m then r else m;
      assert least in s && forall x :: x in s ==> least <= x;
    }
  }

  /** The elements of a set in the order an ordered container yields them. */
  function Ascending(s: set<int>): (r: seq<int>)
    ensures StrictlyAscending(r) && Enumerates(r, s)
  {
    if s == {} then []
    else
      MinExists(s);
      var m :| m in s && forall x :: x in s ==> m <= x;
      [m] + Ascending(s - {m})
  }

  lemma NoDupJoin<T(!new)>(a: seq<T>, b: seq<T>)
    requires NoDup(a) && NoDup(b) && forall x :: x in a ==> x !in b
    ensures NoDup(a + b)
  {
    forall i, j | 0 <= i < j < |a + b| ensures (a + b)[i] != (a + b)[j] {
      if i < |a| <= j {
        assert a[i] in a && b[j - |a|] in b;
      }
    }
  }

  // ---- Strings, as `std::set<std::string>` walks them ----

  predicate StringLess(a: string, b: string) {
    b != "" && (a == "" || a[0] < b[0] || (a[0] == b[0] && StringLess(a[1..], b[1..])))
  }

  /** Up to `k` the strings agree; there `a` ends or has the smaller character. */
  predicate LessAt(a: string, b: string, k: nat) {
    k < |b| && k <= |a| && a[..k] == b[..k] && (k == |a| || a[k] < b[k])
  }

  lemma LessAtStart(a: string, b: string, k: nat)
    requires LessAt(a, b, k)
    ensures b != "" && (k == 0 || (a != "" && a[0] == b[0]))
  {
    if k > 0 {
      assert a[..k][0] == a[0] && b[..k][0] == b[0];
    }
  }

  /** The order is by the first difference; a proper prefix comes first. */
  lemma {:induction false} StringLessMeans(a: string, b: string)
    ensures StringLess(a, b) <==> exists k: nat :: LessAt(a, b, k)
  {
    if a != "" && b != "" && a[0] == b[0] {
      StringLessMeans(a[1..], b[1..]);
      if k: nat :| LessAt(a, b, k) {
        assert k > 0 && a[1..][..k - 1] == a[..k][1..] && b[1..][..k - 1] == b[..k][1..];
        assert LessAt(a[1..], b[1..], k - 1);
      }
      if j: nat :| LessAt(a[1..], b[1..], j) {
        assert a[..j + 1] == [a[0]] + a[1..][..j] && b[..j + 1] == [b[0]] + b[1..][..j];
        assert LessAt(a, b, j + 1);
      }
    } else {
      if StringLess(a, b) {
        assert LessAt(a, b, 0);
      }
      if k: nat :| LessAt(a, b, k) {
        LessAtStart(a, b, k);
      }
    }
  }

  lemma {:induction false} StringsCompare(a: string, b: string)
    ensures a == b || StringLess(a, b) || StringLess(b, a)
    ensures !(StringLess(a, b) && StringLess(b, a))
  {
    if a != "" && b != "" && a[0] == b[0] {
      StringsCompare(a[1..], b[1..]);
      assert a == [a[0]] + a[1..] && b == [b[0]] + b[1..];
    }
  }

  lemma {:induction false} StringLessTrans(a: string, b: string, c: string)
    requires StringLess(a, b) && StringLess(b, c)
    ensures StringLess(a, c)
  {
    if a != "" && a[0] == b[0] == c[0] {
      StringLessTrans(a[1..], b[1..], c[1..]);
    }
  }

  predicate ComesFirst(m: string, s: set<string>) {
    m in s && forall x :: x in s && x != m ==> StringLess(m, x)
  }

  lemma {:induction false} FirstExists(s: set<string>)
    requires s != {}
    ensures exists m :: ComesFirst(m, s)
    decreases s
  {
    var m := Pick(s);
    var rest := s - {m};
    if rest == {} {
      assert forall x :: x in s && x != m ==> x in rest;
      assert ComesFirst(m, s);
    } else {
      FirstExists(rest);
      var r :| ComesFirst(r, rest);
      StringsCompare(m, r);
      hide StringLess;
      if StringLess(m, r) {
        forall x | x in s && x != m ensures StringLess(m, x) {
          assert x in rest;
          if x != r {
            StringLessTrans(m, r, x);
          }
        }
        assert ComesFirst(m, s);
      } else {
        assert ComesFirst(r, s);
      }
    }
  }

  lemma OneComesFirst(m: string, n: string, s: set<string>)
    requires ComesFirst(m, s) && ComesFirst(n, s)
    ensures m == n
  {
    StringsCompare(m, n);
  }

  function First(s: set<string>): (m: string)
    requires s != {}
    ensures ComesFirst(m, s)
  {
    FirstExists(s);
    assert forall m, n :: ComesFirst(m, s) && ComesFirst(n, s) ==> m == n by {
      forall m, n | ComesFirst(m, s) && ComesFirst(n, s) ensures m == n {
        OneComesFirst(m, n, s);
      }
    }
    var m :| m in s && ComesFirst(m, s);
    m
  }

  function Alphabetical(s: set<string>): (r: seq<string>)
    ensures Enumerates(r, s)
    ensures forall i, j :: 0 <= i < j < |r| ==> StringLess(r[i], r[j])
    decreases s
  {
    if s == {} then [] else [First(s)] + Alphabetical(s - {First(s)})
  }
}
