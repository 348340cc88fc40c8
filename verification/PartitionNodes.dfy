/** Comparing two parsed partition definitions by changing them for a moment. */
module PartitionNodes {
  import opened Common
  import opened SortedNames
  import opened PartitionModel

  // A definition as the parser holds it: comparisons overwrite its name and the order of its constants.
  class PartitionNode {
    var name: string
    var range: ValueRange
    var options: string

    constructor (d: PartDef)
      ensures Def() == d
    {
      name, range, options := d.name, d.range, d.options;
    }

    function Def(): PartDef
      reads this
    {
      PartDef(name, range, options)
    }
  }

  // The constants in the order of their text.
  function SortedValues(vs: seq<Value>): (r: seq<Value>)
    ensures multiset(r) == multiset(vs) && Sorted(r)
  {
    var r := Sort(vs);
    SortSorted(vs);
    ValuesStay(vs, r);
    r
  }

  lemma ValuesStay(vs: seq<Value>, r: seq<string>)
    requires multiset(r) == multiset(vs)
    ensures forall i :: 0 <= i < |r| ==> r[i] != ""
  {
    forall i | 0 <= i < |r| ensures r[i] != "" {
      assert r[i] in multiset(r);
      assert r[i] in multiset(vs);
    }
  }

  // There is one sorted order.
  lemma {:induction false} SortedUnique(a: seq<string>, b: seq<string>)
    requires Sorted(a) && Sorted(b) && multiset(a) == multiset(b)
    ensures a == b
  {
    assert |a| == |multiset(a)| == |multiset(b)| == |b|;
    if a != [] {
      FirstIsLeast(a, b);
      FirstIsLeast(b, a);
      LeqAntisymmetric(a[0], b[0]);
      TailCounts(a);
      TailCounts(b);
      SortedUnique(a[1..], b[1..]);
    }
  }

  lemma TailCounts(a: seq<string>)
    requires a != []
    ensures a == [a[0]] + a[1..] && multiset(a[1..]) == multiset(a) - multiset{a[0]}
    ensures Sorted(a) ==> Sorted(a[1..])
  {
    assert a == [a[0]] + a[1..];
    hide Leq;
  }

  lemma FirstIsLeast(a: seq<string>, b: seq<string>)
    requires Sorted(a) && multiset(a) == multiset(b) && a != [] && b != []
    ensures Leq(a[0], b[0])
  {
    assert b[0] in multiset(b);
    assert b[0] in a;
    var i :| 0 <= i < |a| && a[i] == b[0];
    if i == 0 { LeqReflexive(a[0]); }
  }

  lemma SortedMeansSame(a: seq<Value>, b: seq<Value>)
    ensures SortedValues(a) == SortedValues(b) <==> multiset(a) == multiset(b)
  {
    if multiset(a) == multiset(b) { SortedUnique(SortedValues(a), SortedValues(b)); }
  }

  // Equal up to the case of the name and the order of the constants; both definitions read as before afterwards.
  method PartitionDefEqual(a: PartitionNode, b: PartitionNode) returns (r: bool)
    modifies a, b
    ensures r == DefEqual(old(a.Def()), old(b.Def()))
    ensures a.Def() == old(a.Def()) && b.Def() == old(b.Def())
  {
    if !EqualFold(a.name, b.name) { return false; }
    var savedName := b.name;
    b.name := a.name;
    if a.range.In? && b.range.In? {
      SortedMeansSame(a.range.values, b.range.values);
      var savedA, savedB := a.range, b.range;
      a.range := In(SortedValues(a.range.values));
      b.range := In(SortedValues(b.range.values));
      r := a.Def() == b.Def();
      a.range := savedA;
      b.range := savedB;
    } else {
      r := a.Def() == b.Def();
    }
    b.name := savedName;
  }

  // Whether only the options changed.
  method PartitionValueRangeEqual(a: PartitionNode, b: PartitionNode) returns (r: bool)
    modifies a, b
    ensures r == SameRange(old(a.range), old(b.range))
    ensures a.Def() == old(a.Def()) && b.Def() == old(b.Def())
  {
    if a.range.In? && b.range.In? {
      SortedMeansSame(a.range.values, b.range.values);
      var savedA, savedB := a.range, b.range;
      a.range := In(SortedValues(a.range.values));
      b.range := In(SortedValues(b.range.values));
      r := a.range == b.range;
      a.range := savedA;
      b.range := savedB;
    } else {
      r := a.range == b.range;
    }
  }
}
