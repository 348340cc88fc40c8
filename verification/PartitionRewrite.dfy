/** REORGANIZE scripts for layouts with the same partition names: every state on the way. */
module PartitionRewrite {
  import opened Common
  import opened PartitionModel
  import opened PartitionSpec

  /* ----- the states between statements ----- */

  // Slots before i are rewritten, the others are still the catalog's.
  function Mixed(cur: seq<PartDef>, des: seq<PartDef>, i: nat): (m: seq<PartDef>)
    requires i <= |cur| == |des|
    ensures |m| == |cur|
    ensures forall k :: 0 <= k < |cur| ==> m[k] == if k < i then SlotDef(cur, des, k) else cur[k]
  {
    Slots(cur, des, 0, i) + cur[i..]
  }

  // Every statement runs, leaves a legal table and loses no row; `final` is the last layout.
  // When `ok` is false the last statement, and no other, is refused.
  ghost predicate Executes(ev: Eval, kind: Strategy, t: Table, ss: seq<Stmt>, ok: bool, final: seq<PartDef>)
    decreases |ss|
  {
    Legal(ev, kind, t.layout) && Stored(ev, t) &&
    if ss == [] then ok && t.layout == final
    else match Exec(ev, kind, t, ss[0])
      case None => !ok && |ss| == 1
      case Some(t') => t'.rows == t.rows && Executes(ev, kind, t', ss[1..], ok, final)
  }

  // The same, said of every prefix of the script.
  lemma {:induction false} EveryPrefix(ev: Eval, kind: Strategy, t: Table, ss: seq<Stmt>, ok: bool,
    final: seq<PartDef>, n: nat)
    requires Executes(ev, kind, t, ss, ok, final) && n <= |ss|
    ensures n < |ss| || ok ==>
      var r := Run(ev, kind, t, ss[..n]);
      r.Some? && Legal(ev, kind, r.value.layout) && r.value.rows == t.rows && Stored(ev, r.value)
    ensures ok ==> Run(ev, kind, t, ss) == Some(Table(final, t.rows))
    ensures !ok ==> Run(ev, kind, t, ss).None?
    decreases |ss|
  {
    if ss != [] {
      match Exec(ev, kind, t, ss[0]) {
        case None =>
        case Some(t') =>
          EveryPrefix(ev, kind, t', ss[1..], ok, final, if n == 0 then 0 else n - 1);
          if n > 0 { assert ss[..n][0] == ss[0] && ss[..n][1..] == ss[1..][..n - 1]; }
      }
    }
  }

  // Putting one executed statement in front.
  lemma ExecutesCons(ev: Eval, kind: Strategy, t: Table, s: Stmt, rest: seq<Stmt>, ok: bool, final: seq<PartDef>)
    requires Legal(ev, kind, t.layout) && Stored(ev, t)
    requires match Exec(ev, kind, t, s)
             case None => !ok && rest == []
             case Some(t') => t'.rows == t.rows && Executes(ev, kind, t', rest, ok, final)
    ensures Executes(ev, kind, t, [s] + rest, ok, final)
  {
    assert ([s] + rest)[0] == s && ([s] + rest)[1..] == rest;
  }

  lemma ExecutesNil(ev: Eval, kind: Strategy, t: Table, ok: bool, final: seq<PartDef>)
    requires Legal(ev, kind, t.layout) && Stored(ev, t) && ok && t.layout == final
    ensures Executes(ev, kind, t, [], ok, final)
  {
  }

  lemma SlotNames(cur: seq<PartDef>, des: seq<PartDef>, i: nat)
    requires i <= |cur| && SameNames(cur, des) && UniqueNames(cur)
    ensures forall k :: 0 <= k < |cur| ==> Fold(Mixed(cur, des, i)[k].name) == Fold(cur[k].name)
    ensures UniqueNames(Mixed(cur, des, i))
  {
  }

  // The names of a run are found where the run starts.
  lemma RunIsFound(cur: seq<PartDef>, des: seq<PartDef>, i: nat, last: nat)
    requires i <= last < |cur| && SameNames(cur, des) && UniqueNames(cur)
    ensures var l, names := Mixed(cur, des, i), NamesOf(cur[i..last + 1]);
      names != [] && IndexOfName(l, names[0]) == i && Consecutive(l, i, names) && |names| == last + 1 - i
  {
    SlotNames(cur, des, i);
    var l, names := Mixed(cur, des, i), NamesOf(cur[i..last + 1]);
    assert names[0] == cur[i].name;
    assert EqualFold(l[i].name, names[0]);
    var f := IndexOfName(l, names[0]);
    assert f == i;
    forall j | 0 <= j < |names| ensures EqualFold(l[i + j].name, names[j]) {
      assert names[j] == cur[i + j].name;
    }
  }

  lemma ReplaceRun(cur: seq<PartDef>, des: seq<PartDef>, i: nat, last: nat)
    requires i <= last < |cur| == |des|
    ensures Replace(Mixed(cur, des, i), i, last + 1, Slots(cur, des, i, last + 1)) == Mixed(cur, des, last + 1)
  {
  }

  // REORGANIZE of the consecutive partitions that start at `first`.
  lemma ReorganizeAt(ev: Eval, kind: Strategy, t: Table, names: seq<string>, into: seq<PartDef>, first: nat)
    requires names != [] && into != [] && first + |names| <= |t.layout|
    requires IndexOfName(t.layout, names[0]) == first && Consecutive(t.layout, first, names)
    requires Legal(ev, kind, Replace(t.layout, first, first + |names|, into))
    requires kind == RangeType ==> AllLessThan(t.layout) && AllLessThan(into)
    ensures var next := first + |names|;
      Exec(ev, kind, t, Reorganize(names, into)) ==
        if kind == RangeType && !KeepsUpperEdge(ev, t.layout, next, into) then None
        else Some(Table(Replace(t.layout, first, next, into), RowsKept(ev, t, first, next, into)))
  {
    hide Legal, Consecutive, IndexOfName, Replace, RowsKept, KeepsUpperEdge, AllLessThan;
  }

  lemma ReorganizeRunIs(cur: seq<PartDef>, des: seq<PartDef>, i: nat, last: nat)
    requires i <= last < |cur| == |des|
    ensures ReorganizeRun(cur, des, i, last) == Reorganize(NamesOf(cur[i..last + 1]), Slots(cur, des, i, last + 1))
  {
  }

  // One REORGANIZE takes the table from the state before its run to the state after it.
  lemma ReorganizeStep(ev: Eval, kind: Strategy, cur: seq<PartDef>, des: seq<PartDef>, i: nat, last: nat, t: Table)
    requires i <= last < |cur| == |des| && SameNames(cur, des) && UniqueNames(cur)
    requires t.layout == Mixed(cur, des, i)
    requires Legal(ev, kind, Mixed(cur, des, last + 1))
    requires kind == RangeType ==> AllLessThan(t.layout) && AllLessThan(Slots(cur, des, i, last + 1))
    ensures var into := Slots(cur, des, i, last + 1);
      Exec(ev, kind, t, ReorganizeRun(cur, des, i, last)) ==
        if kind == RangeType && !KeepsUpperEdge(ev, t.layout, last + 1, into) then None
        else Some(Table(Mixed(cur, des, last + 1), RowsKept(ev, t, i, last + 1, into)))
  {
    hide *;
    RunIsFound(cur, des, i, last);
    ReplaceRun(cur, des, i, last);
    ReorganizeRunIs(cur, des, i, last);
    ReorganizeAt(ev, kind, t, NamesOf(cur[i..last + 1]), Slots(cur, des, i, last + 1), i);
  }

  lemma StillHome(ev: Eval, l: seq<PartDef>, first: nat, next: nat, into: seq<PartDef>, k: Key)
    requires first <= next <= |l| && Home(ev, l, k) < |l|
    requires first <= Home(ev, l, k) < next ==> Home(ev, into, k) < |into|
    ensures Home(ev, Replace(l, first, next, into), k) < |Replace(l, first, next, into)|
  {
    var h, l' := Home(ev, l, k), Replace(l, first, next, into);
    if h < first { assert l'[h] == l[h]; }
    else if h < next { var j := Home(ev, into, k); assert l'[first + j] == into[j]; }
    else { assert l'[h - next + first + |into|] == l[h]; }
  }

  // A REORGANIZE loses no row when each of its rows is accepted by one of the new partitions.
  lemma NoRowLost(ev: Eval, t: Table, first: nat, next: nat, into: seq<PartDef>)
    requires first <= next <= |t.layout| && Stored(ev, t)
    requires forall k :: k in t.rows && first <= Home(ev, t.layout, k) < next ==> Home(ev, into, k) < |into|
    ensures RowsKept(ev, t, first, next, into) == t.rows
    ensures Stored(ev, Table(Replace(t.layout, first, next, into), t.rows))
  {
    forall k | k in t.rows
      ensures Home(ev, Replace(t.layout, first, next, into), k) < |Replace(t.layout, first, next, into)| {
      StillHome(ev, t.layout, first, next, into, k);
    }
  }

  /* ----- RANGE ----- */

  // The two layouts agree on the edge between slots i - 1 and i.
  ghost predicate EdgeKept(ev: Eval, cur: seq<PartDef>, des: seq<PartDef>, i: nat)
    requires i <= |cur| == |des| && AllLessThan(cur) && AllLessThan(des)
  {
    0 < i < |cur| ==> RankAt(ev, cur[i - 1]) == RankAt(ev, des[i - 1])
  }

  ghost predicate LastBoundShrinks(ev: Eval, cur: seq<PartDef>, des: seq<PartDef>)
    requires cur != [] && des != [] && AllLessThan(cur) && AllLessThan(des)
  {
    Below(RankAt(ev, des[|des| - 1]), RankAt(ev, cur[|cur| - 1]))
  }

  lemma MixedIncreasing(ev: Eval, cur: seq<PartDef>, des: seq<PartDef>, i: nat)
    requires i <= |cur| == |des| && Increasing(ev, cur) && Increasing(ev, des) && EdgeKept(ev, cur, des, i)
    ensures Increasing(ev, Mixed(cur, des, i))
    ensures forall k :: 0 <= k < i ==> SlotDef(cur, des, k).range == des[k].range
  {
    var m := Mixed(cur, des, i);
    assert forall k :: 0 <= k < i ==> SlotDef(cur, des, k).range == des[k].range;
    forall a, b | 0 <= a < b < |m| ensures Below(RankAt(ev, m[a]), RankAt(ev, m[b])) {
      if a < i <= b {
        assert RankAt(ev, m[a]) == RankAt(ev, des[a]);
        assert a < i - 1 ==> Below(RankAt(ev, des[a]), RankAt(ev, des[i - 1]));
        assert Below(RankAt(ev, cur[i - 1]), RankAt(ev, cur[b]));
      }
    }
  }

  // The cascade is what makes the end of every run a kept edge.
  lemma CascadeKeepsEdge(ev: Eval, cur: seq<PartDef>, des: seq<PartDef>, i: nat)
    requires i < |cur| == |des| && AllLessThan(cur) && AllLessThan(des)
    ensures EdgeKept(ev, cur, des, CascadeLast(cur, des, RunLast(cur, des, i)) + 1)
  {
    var r := RunLast(cur, des, i);
    if r + 1 < |cur| {
      if SameRange(cur[r].range, des[r].range) {
        assert cur[r].range == des[r].range;
      } else {
        assert DefEqual(cur[r + 1], des[r + 1]);
      }
    }
  }

  // The rows of a run fit in the run's new partitions.
  lemma RangeRowsFit(ev: Eval, cur: seq<PartDef>, des: seq<PartDef>, i: nat, last: nat, t: Table)
    requires i <= last < |cur| == |des| && Increasing(ev, cur) && Increasing(ev, des)
    requires t.layout == Mixed(cur, des, i)
    requires !Below(RankAt(ev, des[last]), RankAt(ev, cur[last]))
    ensures forall k :: k in t.rows && i <= Home(ev, t.layout, k) < last + 1 ==>
      Home(ev, Slots(cur, des, i, last + 1), k) < last + 1 - i
  {
    var into := Slots(cur, des, i, last + 1);
    forall k | k in t.rows && i <= Home(ev, t.layout, k) < last + 1 ensures Home(ev, into, k) < |into| {
      var h := Home(ev, t.layout, k);
      assert Accepts(ev, cur[h], k);
      assert h < last ==> Below(RankAt(ev, cur[h]), RankAt(ev, cur[last]));
      assert into[last - i] == SlotDef(cur, des, last);
      assert into[last - i].range == des[last].range;
      assert Accepts(ev, into[last - i], k);
    }
  }

  lemma RangeStateLegal(ev: Eval, cur: seq<PartDef>, des: seq<PartDef>, i: nat)
    requires cur != [] && i <= |cur| && SameNames(cur, des) && UniqueNames(cur)
    requires Increasing(ev, cur) && Increasing(ev, des) && EdgeKept(ev, cur, des, i)
    ensures Legal(ev, RangeType, Mixed(cur, des, i))
    ensures i < |cur| && DefEqual(cur[i], des[i]) ==>
      EdgeKept(ev, cur, des, i + 1) && Mixed(cur, des, i + 1) == Mixed(cur, des, i)
    ensures i < |cur| && DefEqual(cur[i], des[i]) && i + 1 == |cur| ==> !LastBoundShrinks(ev, cur, des)
  {
    SlotNames(cur, des, i);
    MixedIncreasing(ev, cur, des, i);
    if i < |cur| && DefEqual(cur[i], des[i]) { assert cur[i].range == des[i].range; }
  }

  lemma SlotRange(cur: seq<PartDef>, des: seq<PartDef>, j: nat)
    requires j < |cur| == |des| && cur[j].range.LessThan? && des[j].range.LessThan?
    ensures SlotDef(cur, des, j).range == des[j].range
  {
  }

  // Whether MySQL's rule on the upper edge holds for a statement of a RANGE script.
  lemma RangeEdgeRule(ev: Eval, cur: seq<PartDef>, des: seq<PartDef>, i: nat, last: nat)
    requires i <= last < |cur| == |des|
    requires Increasing(ev, cur) && Increasing(ev, des) && EdgeKept(ev, cur, des, last + 1)
    ensures var l, into := Mixed(cur, des, i), Slots(cur, des, i, last + 1);
      AllLessThan(l) && AllLessThan(into) && into != [] &&
      (KeepsUpperEdge(ev, l, last + 1, into) <==> !(last + 1 == |cur| && LastBoundShrinks(ev, cur, des)))
    ensures !(last + 1 == |cur| && LastBoundShrinks(ev, cur, des)) ==>
      !Below(RankAt(ev, des[last]), RankAt(ev, cur[last]))
  {
    var l, into := Mixed(cur, des, i), Slots(cur, des, i, last + 1);
    forall j | 0 <= j < |cur| ensures SlotDef(cur, des, j).range == des[j].range { SlotRange(cur, des, j); }
    hide SlotDef, Increasing;
    assert into[last - i].range == des[last].range && l[last] == cur[last];
  }

  // One statement of a RANGE script, ending at a kept edge.
  lemma RangeRun(ev: Eval, cur: seq<PartDef>, des: seq<PartDef>, i: nat, last: nat, t: Table)
    requires i <= last < |cur| == |des| && SameNames(cur, des) && UniqueNames(cur)
    requires AllLessThan(cur) && AllLessThan(des)
    requires Increasing(ev, cur) && Increasing(ev, des) && EdgeKept(ev, cur, des, last + 1)
    requires t.layout == Mixed(cur, des, i) && Stored(ev, t)
    ensures var r := Exec(ev, RangeType, t, ReorganizeRun(cur, des, i, last));
      if last + 1 == |cur| && LastBoundShrinks(ev, cur, des) then r.None?
      else r == Some(Table(Mixed(cur, des, last + 1), t.rows)) && Stored(ev, r.value)
  {
    hide *;
    RangeStateLegal(ev, cur, des, last + 1);
    RangeEdgeRule(ev, cur, des, i, last);
    ReorganizeStep(ev, RangeType, cur, des, i, last, t);
    if !(last + 1 == |cur| && LastBoundShrinks(ev, cur, des)) {
      RangeRowsFit(ev, cur, des, i, last, t);
      NoRowLost(ev, t, i, last + 1, Slots(cur, des, i, last + 1));
      ReplaceRun(cur, des, i, last);
    }
  }

  lemma RangeScriptStep(cur: seq<PartDef>, des: seq<PartDef>, i: nat)
    requires i < |cur| == |des| && !DefEqual(cur[i], des[i])
    ensures var last := CascadeLast(cur, des, RunLast(cur, des, i));
      RangeScript(cur, des, i) == [ReorganizeRun(cur, des, i, last)] + RangeScript(cur, des, last + 1)
  {
    hide DefEqual, ReorganizeRun, CascadeLast, RunLast;
  }

  // From a kept edge on: the rest of the script runs to the end, unless the last bound shrinks;
  // then only the last statement is refused.
  lemma AscendRanges(ev: Eval, l: seq<PartDef>)
    requires Increasing(ev, l)
    ensures AllLessThan(l)
  {
  }

  lemma {:induction false} RangeRest(ev: Eval, cur: seq<PartDef>, des: seq<PartDef>, i: nat, t: Table)
    requires cur != [] && i <= |cur| == |des| && SameNames(cur, des) && UniqueNames(cur)
    requires Increasing(ev, cur) && Increasing(ev, des) && EdgeKept(ev, cur, des, i)
    requires i == |cur| ==> !LastBoundShrinks(ev, cur, des)
    requires t.layout == Mixed(cur, des, i) && Stored(ev, t)
    ensures Executes(ev, RangeType, t, RangeScript(cur, des, i), !LastBoundShrinks(ev, cur, des),
      Mixed(cur, des, |cur|))
    decreases |cur| - i
  {
    hide *;
    AscendRanges(ev, cur);
    AscendRanges(ev, des);
    RangeStateLegal(ev, cur, des, i);
    if i == |cur| {
      RangeScriptEnd(cur, des);
      ExecutesNil(ev, RangeType, t, true, Mixed(cur, des, |cur|));
    } else {
      if DefEqual(cur[i], des[i]) {
        RangeScriptSkip(cur, des, i);
        RangeRest(ev, cur, des, i + 1, t);
      } else {
        RangeRestChanged(ev, cur, des, i, t);
      }
    }
  }

  lemma {:induction false} RangeRestChanged(ev: Eval, cur: seq<PartDef>, des: seq<PartDef>, i: nat, t: Table)
    requires i < |cur| == |des| && SameNames(cur, des) && UniqueNames(cur) && !DefEqual(cur[i], des[i])
    requires AllLessThan(cur) && AllLessThan(des) && cur != [] && des != []
    requires Increasing(ev, cur) && Increasing(ev, des) && Legal(ev, RangeType, t.layout)
    requires t.layout == Mixed(cur, des, i) && Stored(ev, t)
    ensures Executes(ev, RangeType, t, RangeScript(cur, des, i), !LastBoundShrinks(ev, cur, des),
      Mixed(cur, des, |cur|))
    decreases |cur| - i, 0
  {
    hide *;
    var last := CascadeLast(cur, des, RunLast(cur, des, i));
    var ok, final := !LastBoundShrinks(ev, cur, des), Mixed(cur, des, |cur|);
    var s, rest := ReorganizeRun(cur, des, i, last), RangeScript(cur, des, last + 1);
    RangeScriptStep(cur, des, i);
    CascadeKeepsEdge(ev, cur, des, i);
    RangeRun(ev, cur, des, i, last, t);
    if ok || last + 1 < |cur| {
      RangeRest(ev, cur, des, last + 1, Table(Mixed(cur, des, last + 1), t.rows));
    } else {
      RangeScriptEnd(cur, des);
    }
    ExecutesCons(ev, RangeType, t, s, rest, ok, final);
  }

  lemma RangeScriptSkip(cur: seq<PartDef>, des: seq<PartDef>, i: nat)
    requires i < |cur| == |des| && DefEqual(cur[i], des[i])
    ensures RangeScript(cur, des, i) == RangeScript(cur, des, i + 1)
  {
  }

  lemma RangeScriptEnd(cur: seq<PartDef>, des: seq<PartDef>)
    requires |cur| == |des|
    ensures RangeScript(cur, des, |cur|) == []
  {
  }

  // RANGE: the whole script, from the catalog's layout.
  lemma RangeScriptExecutes(ev: Eval, cur: seq<PartDef>, des: seq<PartDef>, rows: set<Key>)
    requires cur != [] && SameNames(cur, des) && UniqueNames(cur)
    requires Increasing(ev, cur) && Increasing(ev, des) && Stored(ev, Table(cur, rows))
    ensures Executes(ev, RangeType, Table(cur, rows), RangeScript(cur, des, 0), !LastBoundShrinks(ev, cur, des),
      Mixed(cur, des, |cur|))
    ensures SameLayout(Mixed(cur, des, |cur|), des)
  {
    assert Mixed(cur, des, 0) == cur;
    RangeRest(ev, cur, des, 0, Table(cur, rows));
    MixedIsDesired(cur, des);
  }

  lemma MixedIsDesired(cur: seq<PartDef>, des: seq<PartDef>)
    requires |cur| == |des|
    ensures SameLayout(Mixed(cur, des, |cur|), des)
  {
    forall k | 0 <= k < |cur| ensures DefEqual(Mixed(cur, des, |cur|)[k], des[k]) {
      assert DefEqual(des[k], des[k]);
    }
  }

  /* ----- LIST ----- */

  predicate SlotHas(d: PartDef, v: Value) {
    d.range.In? && v in d.range.values
  }

  // Slots that compare equal list the same constants.
  lemma EqualSlotsHaveSameValues(a: PartDef, b: PartDef, v: Value)
    requires DefEqual(a, b)
    ensures SlotHas(a, v) <==> SlotHas(b, v)
  {
    if a.range.In? && b.range.In? {
      assert v in a.range.values <==> v in multiset(a.range.values);
      assert v in b.range.values <==> v in multiset(b.range.values);
    }
  }

  // When the changed slots only grow, every state on the way keeps inside the desired slots.
  lemma MixedGrowing(cur: seq<PartDef>, des: seq<PartDef>, i: nat)
    requires i <= |cur| == |des| && ValuesDisjoint(cur) && ValuesDisjoint(des) && ChangedSlotsGrow(cur, des)
    ensures ValuesDisjoint(Mixed(cur, des, i))
    ensures forall k, v :: 0 <= k < |cur| && SlotHas(cur[k], v) ==> SlotHas(SlotDef(cur, des, k), v)
  {
    var m := Mixed(cur, des, i);
    forall k, v | 0 <= k < |cur|
      ensures SlotHas(m[k], v) ==> SlotHas(des[k], v)
      ensures SlotHas(cur[k], v) ==> SlotHas(SlotDef(cur, des, k), v)
    {
      if DefEqual(cur[k], des[k]) { EqualSlotsHaveSameValues(cur[k], des[k], v); }
    }
    forall a, b, v | 0 <= a < b < |m| && v in m[a].range.values ensures v !in m[b].range.values {
      assert SlotHas(m[a], v) && SlotHas(des[a], v);
      assert !SlotHas(des[b], v);
      assert !SlotHas(m[b], v);
    }
  }

  lemma ListStateLegal(ev: Eval, cur: seq<PartDef>, des: seq<PartDef>, i: nat)
    requires cur != [] && i <= |cur| && SameNames(cur, des) && UniqueNames(cur)
    requires ValuesDisjoint(cur) && ValuesDisjoint(des) && ChangedSlotsGrow(cur, des)
    ensures Legal(ev, ListType, Mixed(cur, des, i))
    ensures i < |cur| && DefEqual(cur[i], des[i]) ==> Mixed(cur, des, i + 1) == Mixed(cur, des, i)
  {
    SlotNames(cur, des, i);
    MixedGrowing(cur, des, i);
  }

  lemma ListRowFits(ev: Eval, cur: seq<PartDef>, des: seq<PartDef>, i: nat, last: nat, k: Key)
    requires i <= last < |cur| == |des|
    requires i <= Home(ev, Mixed(cur, des, i), k) < last + 1
    requires AllIn(cur)
    requires forall j, v :: 0 <= j < |cur| && SlotHas(cur[j], v) ==> SlotHas(SlotDef(cur, des, j), v)
    ensures Home(ev, Slots(cur, des, i, last + 1), k) < last + 1 - i
  {
    hide DefEqual, SlotDef;
    var h, into := Home(ev, Mixed(cur, des, i), k), Slots(cur, des, i, last + 1);
    assert Accepts(ev, cur[h], k);
    assert SlotHas(cur[h], k.v) && SlotHas(SlotDef(cur, des, h), k.v);
    assert into[h - i] == SlotDef(cur, des, h);
    assert Accepts(ev, into[h - i], k);
  }

  // One statement of a run-by-run LIST script.
  lemma ListRun(ev: Eval, cur: seq<PartDef>, des: seq<PartDef>, i: nat, last: nat, t: Table)
    requires i <= last < |cur| == |des| && SameNames(cur, des) && UniqueNames(cur) && AllIn(cur)
    requires ValuesDisjoint(cur) && ValuesDisjoint(des) && ChangedSlotsGrow(cur, des)
    requires t.layout == Mixed(cur, des, i) && Stored(ev, t)
    ensures Exec(ev, ListType, t, ReorganizeRun(cur, des, i, last)) == Some(Table(Mixed(cur, des, last + 1), t.rows))
    ensures Stored(ev, Table(Mixed(cur, des, last + 1), t.rows))
  {
    hide *;
    ListStateLegal(ev, cur, des, last + 1);
    ReorganizeStep(ev, ListType, cur, des, i, last, t);
    MixedGrowing(cur, des, i);
    forall k | k in t.rows && i <= Home(ev, t.layout, k) < last + 1
      ensures Home(ev, Slots(cur, des, i, last + 1), k) < |Slots(cur, des, i, last + 1)|
    {
      ListRowFits(ev, cur, des, i, last, k);
    }
    NoRowLost(ev, t, i, last + 1, Slots(cur, des, i, last + 1));
    ReplaceRun(cur, des, i, last);
  }

  lemma ListScriptStep(cur: seq<PartDef>, des: seq<PartDef>, i: nat)
    requires i < |cur| == |des| && !DefEqual(cur[i], des[i])
    ensures var last := RunLast(cur, des, i);
      ListScript(cur, des, i) == [ReorganizeRun(cur, des, i, last)] + ListScript(cur, des, last + 1)
  {
    hide DefEqual, ReorganizeRun, RunLast;
  }

  lemma GrowLists(cur: seq<PartDef>, des: seq<PartDef>)
    requires SameNames(cur, des) && ValuesDisjoint(cur)
    ensures AllIn(cur) && |cur| == |des|
  {
  }

  lemma {:induction false} ListRest(ev: Eval, cur: seq<PartDef>, des: seq<PartDef>, i: nat, t: Table)
    requires cur != [] && i <= |cur| && SameNames(cur, des) && UniqueNames(cur)
    requires ValuesDisjoint(cur) && ValuesDisjoint(des) && ChangedSlotsGrow(cur, des)
    requires t.layout == Mixed(cur, des, i) && Stored(ev, t)
    ensures Executes(ev, ListType, t, ListScript(cur, des, i), true, Mixed(cur, des, |cur|))
    decreases |cur| - i
  {
    hide *;
    GrowLists(cur, des);
    ListStateLegal(ev, cur, des, i);
    if i == |cur| {
      ListScriptEnd(cur, des);
      ExecutesNil(ev, ListType, t, true, Mixed(cur, des, |cur|));
    } else if DefEqual(cur[i], des[i]) {
      ListScriptSkip(cur, des, i);
      ListRest(ev, cur, des, i + 1, t);
    } else {
      var last := RunLast(cur, des, i);
      ListScriptStep(cur, des, i);
      ListRun(ev, cur, des, i, last, t);
      ListRest(ev, cur, des, last + 1, Table(Mixed(cur, des, last + 1), t.rows));
      ExecutesCons(ev, ListType, t, ReorganizeRun(cur, des, i, last), ListScript(cur, des, last + 1), true,
        Mixed(cur, des, |cur|));
    }
  }

  lemma ListScriptSkip(cur: seq<PartDef>, des: seq<PartDef>, i: nat)
    requires i < |cur| == |des| && DefEqual(cur[i], des[i])
    ensures ListScript(cur, des, i) == ListScript(cur, des, i + 1)
  {
  }

  lemma ListScriptEnd(cur: seq<PartDef>, des: seq<PartDef>)
    requires |cur| == |des|
    ensures ListScript(cur, des, |cur|) == []
  {
  }

  lemma ListScriptExecutes(ev: Eval, cur: seq<PartDef>, des: seq<PartDef>, rows: set<Key>)
    requires cur != [] && SameNames(cur, des) && UniqueNames(cur)
    requires ValuesDisjoint(cur) && ValuesDisjoint(des) && ChangedSlotsGrow(cur, des)
    requires Stored(ev, Table(cur, rows))
    ensures Executes(ev, ListType, Table(cur, rows), ListScript(cur, des, 0), true, Mixed(cur, des, |cur|))
    ensures SameLayout(Mixed(cur, des, |cur|), des)
  {
    assert Mixed(cur, des, 0) == cur;
    ListRest(ev, cur, des, 0, Table(cur, rows));
    MixedIsDesired(cur, des);
  }
}
