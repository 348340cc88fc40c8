/**
 * The plan-time checks of a desired partition list accept exactly the lists that are well-formed, for LIST constants
 * compared as text and for RANGE bounds that are integers or MAXVALUE.
 */
module PartitionChecks {
  import opened Common
  import opened PartitionModel
  import opened PartitionSpec
  import opened PartitionRewrite

  /* ----- the validators are exact ----- */

  lemma {:induction false} BoundsOfRange(l: seq<PartDef>)
    requires AllLessThan(l)
    ensures |Bounds(l)| == |l| && forall i :: 0 <= i < |l| ==> Bounds(l)[i] == l[i].range.bound
  {
    if l != [] { BoundsOfRange(l[..|l| - 1]); }
  }

  ghost predicate NoForms(l: seq<PartDef>)
    requires AllLessThan(l)
  {
    forall i :: 0 <= i < |l| ==> !l[i].range.bound.Form?
  }

  // The one-pass check accepts integer and MAXVALUE bounds exactly when they strictly increase.
  lemma MonotonicCheckIsExact(ev: Eval, l: seq<PartDef>)
    requires AllLessThan(l) && NoForms(l)
    ensures AdjacentAscend(Bounds(l)) <==> Increasing(ev, l)
  {
    BoundsOfRange(l);
    if AdjacentAscend(Bounds(l)) {
      forall i, j | 0 <= i < j < |l| ensures Below(RankAt(ev, l[i]), RankAt(ev, l[j])) { AscendFar(ev, l, i, j); }
    }
    if Increasing(ev, l) {
      forall i | 0 < i < |l| ensures Ascends(Bounds(l)[i - 1], Bounds(l)[i]) {
        assert Below(RankAt(ev, l[i - 1]), RankAt(ev, l[i]));
      }
    }
  }

  lemma {:induction false} AscendFar(ev: Eval, l: seq<PartDef>, i: nat, j: nat)
    requires AllLessThan(l) && NoForms(l) && i < j < |l|
    requires |Bounds(l)| == |l| && forall k :: 0 <= k < |l| ==> Bounds(l)[k] == l[k].range.bound
    requires AdjacentAscend(Bounds(l))
    ensures Below(RankAt(ev, l[i]), RankAt(ev, l[j]))
  {
    assert Ascends(Bounds(l)[j - 1], Bounds(l)[j]);
    if i < j - 1 { AscendFar(ev, l, i, j - 1); }
  }

  // A MAXVALUE partition that is not the last is rejected whatever the other bounds are.
  lemma MaxvalueIsLast(l: seq<PartDef>, i: nat)
    requires AllLessThan(l) && i + 1 < |l| && IsMaxvalue(l[i])
    ensures !AdjacentAscend(Bounds(l))
  {
    BoundsOfRange(l);
    assert !Ascends(Bounds(l)[i], Bounds(l)[i + 1]);
  }

  ghost predicate HasValue(ls: seq<Listing>, v: Value) {
    exists i :: 0 <= i < |ls| && ls[i].value == v
  }

  lemma HasValueAppend(a: seq<Listing>, b: seq<Listing>, v: Value)
    ensures HasValue(a + b, v) <==> HasValue(a, v) || HasValue(b, v)
  {
    if i :| 0 <= i < |a| && a[i].value == v { assert (a + b)[i] == a[i]; }
    if i :| 0 <= i < |b| && b[i].value == v { assert (a + b)[|a| + i] == b[i]; }
  }

  lemma OwnValues(d: PartDef, v: Value)
    ensures HasValue(ListingsOf(d), v) <==> SlotHas(d, v)
  {
    if SlotHas(d, v) {
      var p :| 0 <= p < |d.range.values| && d.range.values[p] == v;
      assert ListingsOf(d)[p].value == v;
    }
    if HasValue(ListingsOf(d), v) {
      var p :| 0 <= p < |ListingsOf(d)| && ListingsOf(d)[p].value == v;
      assert d.range.values[p] == v;
    }
  }

  lemma OwnedSplit(l: seq<PartDef>, v: Value)
    requires l != []
    ensures Owned(l, v) <==> Owned(l[..|l| - 1], v) || SlotHas(l[|l| - 1], v)
  {
    var init := l[..|l| - 1];
    if i :| 0 <= i < |init| && init[i].range.In? && v in init[i].range.values { assert l[i] == init[i]; }
    if i :| 0 <= i < |l| && l[i].range.In? && v in l[i].range.values { assert i < |init| ==> init[i] == l[i]; }
  }

  lemma {:induction false} ListedIsOwned(l: seq<PartDef>, v: Value)
    ensures HasValue(Listings(l), v) <==> Owned(l, v)
  {
    if l != [] {
      var n := |l| - 1;
      ListedIsOwned(l[..n], v);
      HasValueAppend(Listings(l[..n]), ListingsOf(l[n]), v);
      OwnValues(l[n], v);
      OwnedSplit(l, v);
    }
  }

  ghost predicate Apart(a: seq<Listing>, b: seq<Listing>) {
    forall v :: HasValue(a, v) ==> !HasValue(b, v)
  }

  lemma DistinctAppend(a: seq<Listing>, b: seq<Listing>)
    ensures DistinctValues(a + b) <==> DistinctValues(a) && DistinctValues(b) && Apart(a, b)
  {
    if DistinctValues(a + b) {
      forall i, j | 0 <= i < j < |a| ensures a[i].value != a[j].value {
        assert (a + b)[i] == a[i] && (a + b)[j] == a[j];
      }
      forall i, j | 0 <= i < j < |b| ensures b[i].value != b[j].value {
        assert (a + b)[|a| + i] == b[i] && (a + b)[|a| + j] == b[j];
      }
      forall v | HasValue(a, v) ensures !HasValue(b, v) {
        var i :| 0 <= i < |a| && a[i].value == v;
        assert (a + b)[i] == a[i];
        assert forall j :: 0 <= j < |b| ==> (a + b)[|a| + j] == b[j];
      }
    }
    if DistinctValues(a) && DistinctValues(b) && Apart(a, b) {
      forall i, j | 0 <= i < j < |a + b| ensures (a + b)[i].value != (a + b)[j].value {
        if i < |a| <= j { assert HasValue(a, a[i].value) && HasValue(b, b[j - |a|].value); }
      }
    }
  }

  lemma OwnDistinct(d: PartDef)
    requires d.range.In?
    ensures DistinctValues(ListingsOf(d)) <==> NoRepeats(d.range.values)
  {
    var vs, ls := d.range.values, ListingsOf(d);
    assert forall i :: 0 <= i < |ls| ==> ls[i].value == vs[i];
  }

  // The last partition shares no constant with the ones before it.
  ghost predicate LastApart(init: seq<PartDef>, last: PartDef) {
    forall v :: Owned(init, v) ==> !SlotHas(last, v)
  }

  lemma DisjointSplit(l: seq<PartDef>)
    requires l != [] && AllIn(l)
    ensures var n := |l| - 1;
      ValuesDisjoint(l) <==> (ValuesDisjoint(l[..n]) && NoRepeats(l[n].range.values) && LastApart(l[..n], l[n]))
  {
    var n := |l| - 1;
    var init := l[..n];
    assert forall i :: 0 <= i < n ==> init[i] == l[i];
    if ValuesDisjoint(l) {
      forall v | Owned(init, v) ensures !SlotHas(l[n], v) {
        var i :| 0 <= i < n && init[i].range.In? && v in init[i].range.values;
        assert v in l[i].range.values;
      }
      forall i, j, v | 0 <= i < j < n && v in init[i].range.values ensures v !in init[j].range.values {
        assert v in l[i].range.values;
      }
    }
    if ValuesDisjoint(init) && NoRepeats(l[n].range.values) && LastApart(init, l[n]) {
      forall i | 0 <= i < |l| ensures NoRepeats(l[i].range.values) {
        if i < n { assert NoRepeats(init[i].range.values); }
      }
      forall i, j, v | 0 <= i < j < |l| && v in l[i].range.values ensures v !in l[j].range.values {
        assert v in init[i].range.values;
        if j == n { assert Owned(init, v); assert !SlotHas(l[n], v); }
      }
    }
  }

  // The scan for shared constants accepts LIST partitions exactly when MySQL does.
  lemma {:induction false} DuplicateCheckIsExact(l: seq<PartDef>)
    requires AllIn(l)
    ensures DistinctValues(Listings(l)) <==> ValuesDisjoint(l)
  {
    if l == [] {
      assert ValuesDisjoint(l);
    } else {
      var n := |l| - 1;
      var init, own := Listings(l[..n]), ListingsOf(l[n]);
      hide DistinctValues, ValuesDisjoint, NoRepeats;
      DuplicateCheckIsExact(l[..n]);
      DistinctAppend(init, own);
      OwnDistinct(l[n]);
      forall v ensures HasValue(init, v) <==> Owned(l[..n], v) { ListedIsOwned(l[..n], v); }
      forall v ensures HasValue(own, v) <==> SlotHas(l[n], v) { OwnValues(l[n], v); }
      DisjointSplit(l);
    }
  }
}
