/** Byte-wise order of names, and the sorted enumeration of a set of names. */
module SortedNames {

  // Go's string order.
  predicate Leq(a: string, b: string) {
    a == [] || (b != [] && (a[0] < b[0] || (a[0] == b[0] && Leq(a[1..], b[1..]))))
  }

  lemma {:induction false} LeqTotal(a: string, b: string)
    ensures Leq(a, b) || Leq(b, a)
  {
    if a != [] && b != [] && a[0] == b[0] { LeqTotal(a[1..], b[1..]); }
  }

  lemma {:induction false} LeqAntisymmetric(a: string, b: string)
    requires Leq(a, b) && Leq(b, a)
    ensures a == b
  {
    if a != [] {
      LeqAntisymmetric(a[1..], b[1..]);
      assert a == [a[0]] + a[1..] && b == [b[0]] + b[1..];
    }
  }

  lemma {:induction false} LeqTransitive(a: string, b: string, c: string)
    requires Leq(a, b) && Leq(b, c)
    ensures Leq(a, c)
  {
    if a != [] && a[0] == b[0] && b[0] == c[0] { LeqTransitive(a[1..], b[1..], c[1..]); }
  }

  lemma LeqReflexive(a: string)
    ensures Leq(a, a)
  {
    LeqTotal(a, a);
  }

  ghost predicate Sorted(s: seq<string>) {
    forall i, j :: 0 <= i < j < |s| ==> Leq(s[i], s[j])
  }

  ghost predicate Distinct<T(!new)>(s: seq<T>) {
    forall i, j :: 0 <= i < j < |s| ==> s[i] != s[j]
  }

  function Elems<T>(s: seq<T>): set<T> {
    set x | x in s
  }

  lemma ElemsCons<T>(x: T, s: seq<T>)
    ensures Elems([x] + s) == {x} + Elems(s)
  {
    assert forall y :: y in [x] + s <==> y == x || y in s;
  }

  lemma DistinctCons<T(!new)>(x: T, s: seq<T>)
    ensures Distinct([x] + s) <==> x !in s && Distinct(s)
  {
    var r := [x] + s;
    assert forall i :: 0 <= i < |s| ==> r[i + 1] == s[i];
    if Distinct(r) {
      forall i | 0 <= i < |s| ensures s[i] != x { assert r[0] == x && r[i + 1] == s[i]; }
      forall i, j | 0 <= i < j < |s| ensures s[i] != s[j] { assert r[i + 1] == s[i] && r[j + 1] == s[j]; }
    }
  }

  /* ----- slices.Sort ----- */

  function Insert(x: string, s: seq<string>): (r: seq<string>)
    ensures multiset(r) == multiset(s) + multiset{x}
  {
    if s == [] then [x]
    else if Leq(x, s[0]) then [x] + s
    else
      assert s == [s[0]] + s[1..];
      [s[0]] + Insert(x, s[1..])
  }

  function Sort(s: seq<string>): (r: seq<string>)
    ensures multiset(r) == multiset(s)
  {
    if s == [] then [] else
    assert s == [s[0]] + s[1..];
    Insert(s[0], Sort(s[1..]))
  }

  lemma {:induction false} InsertSorted(x: string, s: seq<string>)
    requires Sorted(s)
    ensures Sorted(Insert(x, s))
  {
    if s == [] {
    } else if Leq(x, s[0]) {
      var r := [x] + s;
      forall i, j | 0 <= i < j < |r| ensures Leq(r[i], r[j]) {
        if i == 0 && j > 1 { LeqTransitive(x, s[0], s[j - 1]); }
      }
    } else {
      LeqTotal(x, s[0]);
      InsertSorted(x, s[1..]);
      var t := Insert(x, s[1..]);
      forall y | y in t ensures Leq(s[0], y) {
        assert y in multiset(t);
        assert y == x || y in multiset(s[1..]);
        if y in s[1..] { var k :| 0 <= k < |s[1..]| && s[1..][k] == y; assert s[k + 1] == y; }
      }
      var r := [s[0]] + t;
      forall i, j | 0 <= i < j < |r| ensures Leq(r[i], r[j]) {
        if i == 0 { assert t[j - 1] in t; }
      }
    }
  }

  lemma {:induction false} SortSorted(s: seq<string>)
    ensures Sorted(Sort(s))
  {
    if s != [] {
      SortSorted(s[1..]);
      InsertSorted(s[0], Sort(s[1..]));
    }
  }

  /* ----- the sorted enumeration of a set ----- */

  lemma LeastExists(s: set<string>) returns (m: string)
    requires s != {}
    ensures m in s && forall x :: x in s ==> Leq(m, x)
    decreases s
  {
    m :| m in s;
    LeqReflexive(m);
    if s != {m} {
      var t := s - {m};
      var n := LeastExists(t);
      LeqTotal(m, n);
      if Leq(m, n) {
        forall x | x in s ensures Leq(m, x) { if x != m { LeqTransitive(m, n, x); } }
      } else {
        forall x | x in s ensures Leq(n, x) { if x != m { assert x in t; } }
        m := n;
      }
    }
  }

  lemma SomeLeast(s: set<string>)
    requires s != {}
    ensures exists m :: m in s && forall x :: x in s ==> Leq(m, x)
  {
    var m := LeastExists(s);
  }

  ghost function Least(s: set<string>): (m: string)
    requires s != {}
    ensures m in s && forall x :: x in s ==> Leq(m, x)
  {
    SomeLeast(s);
    var m :| m in s && forall x :: x in s ==> Leq(m, x);
    m
  }

  ghost function SortSet(s: set<string>): seq<string> {
    if s == {} then [] else [Least(s)] + SortSet(s - {Least(s)})
  }

  // There is one sorted enumeration: whatever order a set is listed in, sorting gives the same names.
  lemma {:induction false} SortedIsSortSet(q: seq<string>, s: set<string>)
    requires Sorted(q) && Distinct(q) && Elems(q) == s
    ensures q == SortSet(s)
  {
    if q == [] {
    } else {
      var h := q[0];
      assert h in s;
      var m := Least(s);
      var k :| 0 <= k < |q| && q[k] == m;
      LeqReflexive(h);
      assert Leq(h, m);
      LeqAntisymmetric(h, m);
      forall x ensures x in Elems(q[1..]) <==> x in s - {h} {
        if x in q[1..] { var i :| 0 <= i < |q[1..]| && q[1..][i] == x; assert q[i + 1] == x; }
        if x in s - {h} { var i :| 0 <= i < |q| && q[i] == x; assert q[1..][i - 1] == x; }
      }
      SortedIsSortSet(q[1..], s - {h});
    }
  }

  lemma {:induction false} SortSetIs(s: set<string>)
    ensures Sorted(SortSet(s)) && Distinct(SortSet(s)) && Elems(SortSet(s)) == s
    decreases s
  {
    if s != {} {
      var m := Least(s);
      var q := SortSet(s - {m});
      SortSetIs(s - {m});
      var r := [m] + q;
      forall x | x in q ensures x in s && x != m { assert x in Elems(q); }
      forall i, j | 0 <= i < j < |r| ensures Leq(r[i], r[j]) && r[i] != r[j] {
        assert r[j] in q;
      }
      forall x ensures x in Elems(r) <==> x in s {
        if x in s && x != m { assert x in Elems(q); var i :| 0 <= i < |q| && q[i] == x; assert r[i + 1] == x; }
        if x == m { assert r[0] == x; }
      }
    }
  }

  lemma DistinctByCount(a: seq<string>, b: seq<string>)
    requires multiset(a) == multiset(b) && Distinct(a)
    ensures Distinct(b) && Elems(a) == Elems(b)
  {
    forall x ensures multiset(a)[x] <= 1 { CountDistinct(a, x); }
    forall i, j | 0 <= i < j < |b| ensures b[i] != b[j] {
      if b[i] == b[j] { CountTwice(b, i, j); }
    }
    forall x ensures x in a <==> x in b { assert x in multiset(a) <==> x in multiset(b); }
  }

  lemma {:induction false} CountDistinct(a: seq<string>, x: string)
    requires Distinct(a)
    ensures multiset(a)[x] <= 1
  {
    if a != [] {
      assert a == [a[0]] + a[1..];
      CountDistinct(a[1..], x);
      assert forall i :: 0 <= i < |a[1..]| ==> a[1..][i] == a[i + 1] != a[0];
      assert a[0] == x ==> x !in multiset(a[1..]);
    }
  }

  lemma CountTwice(b: seq<string>, i: nat, j: nat)
    requires i < j < |b| && b[i] == b[j]
    ensures multiset(b)[b[i]] >= 2
  {
    assert b == b[..j] + b[j..];
    assert b[i] in b[..j] && b[..j][i] == b[i];
    assert b[j] in b[j..] && b[j..][0] == b[j];
  }

  // Sorting any enumeration of a set gives the sorted enumeration.
  lemma SortOfEnumeration(order: seq<string>, s: set<string>)
    requires Distinct(order) && Elems(order) == s
    ensures Sort(order) == SortSet(s)
  {
    SortSorted(order);
    DistinctByCount(order, Sort(order));
    SortedIsSortSet(Sort(order), s);
  }
}
