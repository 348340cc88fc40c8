/** What a planned partition script does to a table: it runs, it ends in the desired layout,
    and without permission to drop partitions it loses no row. */
module PartitionPlan {
  import opened Common
  import opened PartitionModel
  import opened PartitionSpec
  import opened PartitionRewrite
  import opened PartitionChecks
  import opened PartitionMatch

  // The rows of a LIST table whose constant still has a partition in l.
  ghost function RowsOwned(rows: set<Key>, l: seq<PartDef>): set<Key> {
    set k | k in rows && k.Const? && Owned(l, k.v)
  }

  /* ----- LIST, one span ----- */

  lemma OwnedAt(ev: Eval, l: seq<PartDef>, k: Key)
    requires AllIn(l)
    ensures Home(ev, l, k) < |l| <==> k.Const? && Owned(l, k.v)
  {
    if k.Const? && Owned(l, k.v) {
      var i :| 0 <= i < |l| && l[i].range.In? && k.v in l[i].range.values;
      assert Accepts(ev, l[i], k);
    }
  }

  // Which rows a span keeps: those whose constant is owned anywhere in desired.
  lemma SpanKeepsOwned(ev: Eval, cur: seq<PartDef>, des: seq<PartDef>, first: nat, last: nat, k: Key)
    requires first <= last < |cur| == |des| && ValuesDisjoint(cur) && AllIn(des)
    requires forall j :: 0 <= j < |cur| && !(first <= j <= last) ==> DefEqual(cur[j], des[j])
    requires Home(ev, cur, k) < |cur|
    ensures
      (first <= Home(ev, cur, k) < last + 1 ==> Home(ev, Slots(cur, des, first, last + 1), k) < last + 1 - first)
      <==> k.Const? && Owned(des, k.v)
  {
    hide DefEqual;
    var h, into := Home(ev, cur, k), Slots(cur, des, first, last + 1);
    var v := k.v;
    assert SlotHas(cur[h], v);
    if first <= h <= last {
      if Home(ev, into, k) < |into| {
        var j := first + Home(ev, into, k);
        assert SlotHas(SlotDef(cur, des, j), v);
        if DefEqual(cur[j], des[j]) { EqualSlotsHaveSameValues(cur[j], des[j], v); }
        assert SlotHas(des[j], v);
      }
      if Owned(des, v) {
        var m :| 0 <= m < |des| && des[m].range.In? && v in des[m].range.values;
        if DefEqual(cur[m], des[m]) {
          EqualSlotsHaveSameValues(cur[m], des[m], v);
          assert SlotHas(cur[m], v);
          assert m == h;
        }
        assert SlotHas(SlotDef(cur, des, m), v);
        assert into[m - first] == SlotDef(cur, des, m);
        assert Accepts(ev, into[m - first], k);
      }
    } else {
      EqualSlotsHaveSameValues(cur[h], des[h], v);
      assert SlotHas(des[h], v);
    }
  }

  lemma MixedOutsideSpan(cur: seq<PartDef>, des: seq<PartDef>, first: nat, last: nat)
    requires first <= last < |cur| == |des|
    requires forall j :: 0 <= j < |cur| && !(first <= j <= last) ==> DefEqual(cur[j], des[j])
    ensures Mixed(cur, des, first) == cur && Mixed(cur, des, last + 1) == Mixed(cur, des, |cur|)
  {
    hide DefEqual;
  }

  lemma MixedListLegal(ev: Eval, cur: seq<PartDef>, des: seq<PartDef>)
    requires cur != [] && SameNames(cur, des) && UniqueNames(cur) && ValuesDisjoint(cur) && ValuesDisjoint(des)
    ensures Legal(ev, ListType, Mixed(cur, des, |cur|))
  {
    var m := Mixed(cur, des, |cur|);
    MixedIsDesired(cur, des);
    SlotNames(cur, des, |cur|);
    SameNamesUnique(cur, des);
    hide UniqueNames, DefEqual;
    assert forall i :: 0 <= i < |m| ==> m[i].range.In? && NoRepeats(m[i].range.values);
    hide SlotDef, NoRepeats, SameLayout, SameNames;
    SameLayoutLegal(ev, ListType, m, des);
  }

  // A single-span LIST REORGANIZE runs and loses exactly the rows whose constant desired discards.
  lemma SpanExecutes(ev: Eval, cur: seq<PartDef>, des: seq<PartDef>, first: nat, last: nat, rows: set<Key>)
    requires first <= last < |cur| == |des| && cur != [] && SameNames(cur, des) && UniqueNames(cur)
    requires ValuesDisjoint(cur) && ValuesDisjoint(des) && AllIn(des)
    requires forall j :: 0 <= j < |cur| && !(first <= j <= last) ==> DefEqual(cur[j], des[j])
    requires Stored(ev, Table(cur, rows))
    ensures var t := Table(Mixed(cur, des, |cur|), RowsOwned(rows, des));
      Exec(ev, ListType, Table(cur, rows), ReorganizeRun(cur, des, first, last)) == Some(t) &&
      Legal(ev, ListType, t.layout) && Stored(ev, t) && SameLayout(t.layout, des)
  {
    hide *;
    var t, into := Table(cur, rows), Slots(cur, des, first, last + 1);
    MixedListLegal(ev, cur, des);
    MixedIsDesired(cur, des);
    MixedOutsideSpan(cur, des, first, last);
    ReorganizeStep(ev, ListType, cur, des, first, last, t);
    SpanRows(ev, cur, des, first, last, rows);
    SpanStored(ev, Mixed(cur, des, |cur|), des, rows);
  }

  lemma SpanRows(ev: Eval, cur: seq<PartDef>, des: seq<PartDef>, first: nat, last: nat, rows: set<Key>)
    requires first <= last < |cur| == |des| && ValuesDisjoint(cur) && AllIn(des)
    requires forall j :: 0 <= j < |cur| && !(first <= j <= last) ==> DefEqual(cur[j], des[j])
    requires Stored(ev, Table(cur, rows))
    ensures RowsKept(ev, Table(cur, rows), first, last + 1, Slots(cur, des, first, last + 1)) == RowsOwned(rows, des)
  {
    hide ValuesDisjoint, DefEqual, Slots, Home, Owned;
    forall k | k in rows
      ensures k in RowsKept(ev, Table(cur, rows), first, last + 1, Slots(cur, des, first, last + 1)) <==>
        k in RowsOwned(rows, des)
    {
      SpanKeepsOwned(ev, cur, des, first, last, k);
    }
  }

  lemma SpanStored(ev: Eval, m: seq<PartDef>, des: seq<PartDef>, rows: set<Key>)
    requires SameLayout(m, des)
    ensures Stored(ev, Table(m, RowsOwned(rows, des)))
  {
    forall k | k in RowsOwned(rows, des) ensures Home(ev, m, k) < |m| {
      var i :| 0 <= i < |des| && des[i].range.In? && k.v in des[i].range.values;
      assert DefEqual(m[i], des[i]);
      EqualSlotsHaveSameValues(m[i], des[i], k.v);
      assert SlotHas(des[i], k.v) && SlotHas(m[i], k.v);
      assert Accepts(ev, m[i], k);
    }
  }

  /* ----- slicing the MAXVALUE catch-all ----- */

  // The layout after the slice: the catalog with the new partitions before its last one.
  function Sliced(c: seq<PartDef>, d: seq<PartDef>): (l: seq<PartDef>)
    requires 0 < |c| < |d|
    ensures |l| == |d|
    ensures forall i :: 0 <= i < |l| ==>
      l[i] == if i < |c| - 1 then c[i] else if i < |d| - 1 then d[i] else c[|c| - 1]
  {
    c[..|c| - 1] + d[|c| - 1..|d| - 1] + [c[|c| - 1]]
  }

  lemma SlicedIsDesired(cur: PartOption, des: PartOption)
    requires CatchAllInsert(cur, des)
    ensures SameLayout(Sliced(cur.defs, des.defs), des.defs)
  {
    var l, d := Sliced(cur.defs, des.defs), des.defs;
    forall i | 0 <= i < |l| ensures DefEqual(l[i], d[i]) {
      assert DefEqual(d[i], d[i]);
    }
  }

  lemma SlicedNames(cur: PartOption, des: PartOption)
    requires CatchAllInsert(cur, des) && UniqueNames(cur.defs)
    ensures UniqueNames(Sliced(cur.defs, des.defs)) && UniqueNames(des.defs)
  {
    var c, d := cur.defs, des.defs;
    var l, n, extras := Sliced(c, d), |c| - 1, d[|c| - 1..|d| - 1];
    forall j | n <= j < |d| - 1 ensures l[j] == extras[j - n] {}
    forall i, j | 0 <= i < j < |l| ensures Fold(l[i].name) != Fold(l[j].name) {
    }
    SlicedIsDesired(cur, des);
    hide DefEqual;
    forall i | 0 <= i < |d| ensures Fold(d[i].name) == Fold(l[i].name) { EqualNames(l[i], d[i]); }
    forall i, j | 0 <= i < j < |d| ensures Fold(d[i].name) != Fold(d[j].name) {
      assert Fold(d[i].name) == Fold(l[i].name) && Fold(d[j].name) == Fold(l[j].name);
    }
  }

  lemma EqualNames(a: PartDef, b: PartDef)
    requires DefEqual(a, b)
    ensures Fold(a.name) == Fold(b.name)
  {
  }

  lemma LastIsFound(c: seq<PartDef>)
    requires c != [] && UniqueNames(c)
    ensures IndexOfName(c, c[|c| - 1].name) == |c| - 1
  {
    var f := IndexOfName(c, c[|c| - 1].name);
    assert EqualFold(c[|c| - 1].name, c[|c| - 1].name);
    assert f <= |c| - 1;
  }

  lemma CatchAllReplaced(c: seq<PartDef>, d: seq<PartDef>)
    requires 0 < |c| < |d|
    ensures Replace(c, |c| - 1, |c|, d[|c| - 1..|d| - 1] + [c[|c| - 1]]) == Sliced(c, d)
  {
    assert c[|c|..] == [];
  }

  lemma CatchAllFound(c: seq<PartDef>, d: seq<PartDef>)
    requires 0 < |c| < |d| && UniqueNames(c)
    ensures var n := |c| - 1; var into := d[n..|d| - 1] + [c[n]];
      IndexOfName(c, c[n].name) == n && Consecutive(c, n, [c[n].name]) && Replace(c, n, n + 1, into) == Sliced(c, d)
  {
    LastIsFound(c);
    CatchAllReplaced(c, d);
    OneInPlace(c, |c| - 1);
    hide *;
  }

  lemma OneInPlace(c: seq<PartDef>, n: nat)
    requires n < |c|
    ensures Consecutive(c, n, [c[n].name])
  {
    assert EqualFold(c[n].name, [c[n].name][0]);
    hide Fold;
  }

  lemma CatchAllRows(ev: Eval, c: seq<PartDef>, into: seq<PartDef>, k: Key)
    requires c != [] && IsMaxvalue(c[|c| - 1]) && into != [] && into[|into| - 1] == c[|c| - 1]
    requires Home(ev, c, k) == |c| - 1
    ensures Home(ev, into, k) < |into|
  {
    assert Accepts(ev, into[|into| - 1], k);
  }

  lemma CatchAllFacts(ev: Eval, cur: PartOption, des: PartOption)
    requires CatchAllInsert(cur, des) && 0 < |cur.defs| < |des.defs| && Legal(ev, RangeType, cur.defs) &&
      Increasing(ev, des.defs)
    ensures Legal(ev, RangeType, Sliced(cur.defs, des.defs)) && UniqueNames(des.defs) && UniqueNames(cur.defs)
    ensures var c, d := cur.defs, des.defs; var into := d[|c| - 1..|d| - 1] + [c[|c| - 1]];
      IsMaxvalue(c[|c| - 1]) && AllLessThan(c) && AllLessThan(into) && KeepsUpperEdge(ev, c, |c|, into)
  {
    var c, d := cur.defs, des.defs;
    var n, into, l := |c| - 1, d[|c| - 1..|d| - 1] + [c[|c| - 1]], Sliced(c, d);
    SlicedNames(cur, des);
    SlicedIsDesired(cur, des);
    SameLayoutLegal(ev, RangeType, l, d);
    assert forall i :: 0 <= i < |into| ==> into[i] == l[n + i];
    hide DefEqual, SameLayout, UniqueNames, Sliced, CatchAllInsert;
  }

  // The new partitions slice the catch-all's range: no row is lost and the covered range is unchanged.
  lemma CatchAllExecutes(ev: Eval, cur: PartOption, des: PartOption, t: Table)
    requires CatchAllInsert(cur, des) && 0 < |cur.defs| < |des.defs| && Legal(ev, RangeType, cur.defs) &&
      Increasing(ev, des.defs)
    requires t.layout == cur.defs && Stored(ev, t)
    ensures var t' := Table(Sliced(cur.defs, des.defs), t.rows);
      Exec(ev, RangeType, t, CatchAllStmt(cur.defs, des.defs)) == Some(t') &&
      Legal(ev, RangeType, t'.layout) && Stored(ev, t') && SameLayout(t'.layout, des.defs)
    ensures UniqueNames(des.defs)
  {
    hide *;
    var c, d := cur.defs, des.defs;
    var n := |c| - 1;
    var into := d[n..|d| - 1] + [c[n]];
    SlicedIsDesired(cur, des);
    CatchAllFacts(ev, cur, des);
    CatchAllFound(c, d);
    ReorganizeAt(ev, RangeType, t, [c[n].name], into, n);
    forall k | k in t.rows && n <= Home(ev, c, k) < n + 1 ensures Home(ev, into, k) < |into| {
      CatchAllRows(ev, c, into, k);
    }
    NoRowLost(ev, t, n, n + 1, into);
    CatchAllStmtIs(c, d);
  }

  lemma CatchAllStmtIs(c: seq<PartDef>, d: seq<PartDef>)
    requires 0 < |c| < |d|
    ensures CatchAllStmt(c, d) == Reorganize([c[|c| - 1].name], d[|c| - 1..|d| - 1] + [c[|c| - 1]])
  {
  }

  lemma AddBehindMaxvalueIsRejected(c: seq<PartDef>, d: seq<PartDef>)
    requires c != [] && IsMaxvalue(c[|c| - 1]) && AllLessThan(d)
    requires Unmatched(c, d) == [] && d[MatchCount(c, d)..] != []
    ensures !AdjacentAscend(Bounds(d))
  {
    NoDropsIffPrefix(c, d);
    assert DefEqual(c[|c| - 1], d[..|c|][|c| - 1]);
    MaxvalueIsLast(d, |c| - 1);
  }

  // ADD PARTITION is never planned behind a MAXVALUE partition: desired was rejected before.
  lemma NoAddAfterMaxvalue(cur: PartOption, des: PartOption, allowDrop: bool, stmts: seq<Stmt>, skipped: seq<Stmt>)
    requires cur.defs != [] && IsMaxvalue(cur.defs[|cur.defs| - 1]) && AllLessThan(des.defs)
    requires PlanOptions(cur, des, allowDrop) == Planned(stmts, skipped)
    ensures forall i :: 0 <= i < |stmts| ==> !stmts[i].AddPartition?
  {
    hide DefEqual, IsMaxvalue, AllLessThan, SameNames, CatchAllInsert, DistinctValues, AdjacentAscend, Bounds, Listings,
      SameHeader, Unmatched, MatchCount, RangeScript, ListScript, Discards, ChangedSlotsGrow;
    var c, d := cur.defs, des.defs;
    if (cur.kind == RangeType || cur.kind == ListType) && !SameNames(c, d) && !CatchAllInsert(cur, des) {
      if d[MatchCount(c, d)..] != [] && Unmatched(c, d) == [] { AddBehindMaxvalueIsRejected(c, d); }
    } else if SameNames(c, d) {
      SameNamesLength(c, d);
      if cur.kind == RangeType { ReorganizeOnly(c, d, 0); }
      ReorganizeOnlyList(c, d, 0);
    }
  }

  lemma SameNamesLength(a: seq<PartDef>, b: seq<PartDef>)
    requires SameNames(a, b)
    ensures |a| == |b|
  {
  }

  lemma {:induction false} ReorganizeOnly(cur: seq<PartDef>, des: seq<PartDef>, i: nat)
    requires i <= |cur| == |des|
    ensures forall k :: 0 <= k < |RangeScript(cur, des, i)| ==> RangeScript(cur, des, i)[k].Reorganize?
    decreases |cur| - i
  {
    if i < |cur| {
      if DefEqual(cur[i], des[i]) { ReorganizeOnly(cur, des, i + 1); }
      else { ReorganizeOnly(cur, des, CascadeLast(cur, des, RunLast(cur, des, i)) + 1); }
    }
  }

  lemma {:induction false} ReorganizeOnlyList(cur: seq<PartDef>, des: seq<PartDef>, i: nat)
    requires i <= |cur| == |des|
    ensures forall k :: 0 <= k < |ListScript(cur, des, i)| ==> ListScript(cur, des, i)[k].Reorganize?
    decreases |cur| - i
  {
    if i < |cur| {
      if DefEqual(cur[i], des[i]) { ReorganizeOnlyList(cur, des, i + 1); }
      else { ReorganizeOnlyList(cur, des, RunLast(cur, des, i) + 1); }
    }
  }

  /* ----- the whole plan ----- */

  // After n statements the table is legal and every row has a partition.
  ghost predicate SafePrefix(ev: Eval, kind: Strategy, t: Table, stmts: seq<Stmt>, n: nat, keepsRows: bool)
    requires n <= |stmts|
  {
    var r := Run(ev, kind, t, stmts[..n]);
    r.Some? && Legal(ev, kind, r.value.layout) && Stored(ev, r.value) && (keepsRows ==> r.value.rows == t.rows)
  }

  // The rows a plan may lose, and no others: LIST, those whose constant desired discards;
  // RANGE, those of partitions whose name is gone.
  ghost predicate RowsAsPlanned(ev: Eval, kind: Strategy, t: Table, end: Table, des: seq<PartDef>)
    requires Stored(ev, t)
  {
    (kind == ListType ==> end.rows == RowsOwned(t.rows, des)) &&
    (kind == RangeType ==> end.rows <= t.rows && forall k :: k in t.rows ==>
      (k in end.rows <==> HasName(end.layout, t.layout[Home(ev, t.layout, k)].name)))
  }

  // What the statements of a plan do to a table whose partitions are the catalog's:
  // all of them run, or, when `ok` is false, all but the last.
  ghost predicate Delivers(ev: Eval, kind: Strategy, t: Table, des: seq<PartDef>, stmts: seq<Stmt>, ok: bool,
    keepsRows: bool)
    requires Stored(ev, t)
  {
    (forall n :: 0 <= n < |stmts| ==> SafePrefix(ev, kind, t, stmts, n, keepsRows)) &&
    match Run(ev, kind, t, stmts)
    case None => !ok
    case Some(end) =>
      ok && SafePrefix(ev, kind, t, stmts, |stmts|, keepsRows) &&
      SameLayout(end.layout, des) && RowsAsPlanned(ev, kind, t, end, des)
  }

  lemma StoredIsOwned(ev: Eval, t: Table, des: seq<PartDef>)
    requires Stored(ev, t) && SameLayout(t.layout, des) && AllIn(t.layout)
    ensures RowsOwned(t.rows, des) == t.rows
  {
    forall k | k in t.rows ensures k.Const? && Owned(des, k.v) {
      var h := Home(ev, t.layout, k);
      EqualSlotsHaveSameValues(t.layout[h], des[h], k.v);
      assert SlotHas(t.layout[h], k.v) && SlotHas(des[h], k.v);
    }
  }

  // When no row is lost and every old name is still there, the rows are as planned.
  lemma NothingLost(ev: Eval, kind: Strategy, t: Table, end: Table, des: seq<PartDef>)
    requires Stored(ev, t) && Stored(ev, end) && SameLayout(end.layout, des) && end.rows == t.rows
    requires Legal(ev, kind, end.layout)
    requires forall i :: 0 <= i < |t.layout| ==> HasName(end.layout, t.layout[i].name)
    ensures RowsAsPlanned(ev, kind, t, end, des)
  {
    hide DefEqual, UniqueNames, HasName, Home, SameLayout, Increasing;
    if kind == ListType { StoredIsOwned(ev, end, des); }
  }

  // What the last statement owes.
  ghost predicate Lands(ev: Eval, kind: Strategy, t: Table, end: Table, des: seq<PartDef>, keepsRows: bool)
    requires Stored(ev, t)
  {
    Legal(ev, kind, end.layout) && Stored(ev, end) && SameLayout(end.layout, des) &&
    RowsAsPlanned(ev, kind, t, end, des) && (keepsRows ==> end.rows == t.rows)
  }

  lemma OneStep(ev: Eval, kind: Strategy, t: Table, des: seq<PartDef>, s: Stmt, keepsRows: bool)
    requires Stored(ev, t) && Legal(ev, kind, t.layout)
    requires Exec(ev, kind, t, s).Some? ==> Lands(ev, kind, t, Exec(ev, kind, t, s).value, des, keepsRows)
    ensures Delivers(ev, kind, t, des, [s], Exec(ev, kind, t, s).Some?, keepsRows)
  {
    hide Exec, Legal, Stored, SameLayout, RowsAsPlanned;
    assert [s][..0] == [] && [s][..1] == [s] && [s][1..] == [];
    match Exec(ev, kind, t, s) {
      case None =>
      case Some(end) => assert Run(ev, kind, end, []) == Some(end);
    }
  }

  lemma NoStep(ev: Eval, kind: Strategy, t: Table, des: seq<PartDef>)
    requires Stored(ev, t) && Legal(ev, kind, t.layout) && SameLayout(t.layout, des)
    ensures Delivers(ev, kind, t, des, [], true, true)
  {
    forall i | 0 <= i < |t.layout| ensures HasName(t.layout, t.layout[i].name) {
      assert EqualFold(t.layout[i].name, t.layout[i].name);
    }
    NothingLost(ev, kind, t, t, des);
  }

  lemma ManySteps(ev: Eval, kind: Strategy, t: Table, des: seq<PartDef>, ss: seq<Stmt>, ok: bool, final: seq<PartDef>)
    requires Executes(ev, kind, t, ss, ok, final) && Stored(ev, t) && SameLayout(final, des)
    requires forall i :: 0 <= i < |t.layout| ==> HasName(final, t.layout[i].name)
    ensures Delivers(ev, kind, t, des, ss, ok, true)
  {
    hide Exec, Executes, Legal, Stored, SameLayout, RowsAsPlanned, HasName;
    forall n | 0 <= n < |ss| ensures SafePrefix(ev, kind, t, ss, n, true) {
      EveryPrefix(ev, kind, t, ss, ok, final, n);
    }
    EveryPrefix(ev, kind, t, ss, ok, final, |ss|);
    assert ss[..|ss|] == ss;
    if ok {
      NothingLost(ev, kind, t, Table(final, t.rows), des);
    }
  }

  lemma MixedHasNames(cur: seq<PartDef>, des: seq<PartDef>)
    requires SameNames(cur, des)
    ensures forall i :: 0 <= i < |cur| ==> HasName(Mixed(cur, des, |cur|), cur[i].name)
  {
    forall i | 0 <= i < |cur| ensures HasName(Mixed(cur, des, |cur|), cur[i].name) {
      assert EqualFold(Mixed(cur, des, |cur|)[i].name, cur[i].name);
    }
  }

  lemma SameNamesUnique(cur: seq<PartDef>, des: seq<PartDef>)
    requires SameNames(cur, des) && UniqueNames(cur)
    ensures UniqueNames(des)
  {
    assert forall i, j :: 0 <= i < j < |des| ==>
      Fold(des[i].name) == Fold(cur[i].name) && Fold(des[j].name) == Fold(cur[j].name);
  }

  // What the planner is given: a layout MySQL holds, and a desired list of the same kind.
  ghost predicate Inputs(ev: Eval, kind: Strategy, t: Table, des: seq<PartDef>) {
    Legal(ev, kind, t.layout) && Stored(ev, t) && des != [] &&
    (kind == RangeType ==> Increasing(ev, des)) && (kind == ListType ==> ValuesDisjoint(des))
  }

  lemma AllEqualIsSame(cur: seq<PartDef>, des: seq<PartDef>)
    requires |cur| == |des| && FirstChanged(cur, des, 0) == |cur|
    ensures SameLayout(cur, des)
  {
  }

  lemma SameLastBound(ev: Eval, cur: seq<PartDef>, des: seq<PartDef>)
    requires cur != [] && SameLayout(cur, des) && AllLessThan(cur) && AllLessThan(des)
    ensures !LastBoundShrinks(ev, cur, des)
  {
    assert DefEqual(cur[|cur| - 1], des[|cur| - 1]);
  }

  lemma RangeRewriteDelivers(ev: Eval, t: Table, des: seq<PartDef>)
    requires Inputs(ev, RangeType, t, des) && SameNames(t.layout, des) && |t.layout| == |des|
    requires t.layout != [] && AllLessThan(t.layout) && AllLessThan(des)
    ensures Delivers(ev, RangeType, t, des, RangeScript(t.layout, des, 0), !LastBoundShrinks(ev, t.layout, des), true)
  {
    MixedHasNames(t.layout, des);
    RangeScriptExecutes(ev, t.layout, des, t.rows);
    hide *;
    ManySteps(ev, RangeType, t, des, RangeScript(t.layout, des, 0), !LastBoundShrinks(ev, t.layout, des),
      Mixed(t.layout, des, |t.layout|));
  }

  lemma ListRewriteDelivers(ev: Eval, t: Table, des: seq<PartDef>)
    requires Inputs(ev, ListType, t, des) && SameNames(t.layout, des) && |t.layout| == |des| &&
      ChangedSlotsGrow(t.layout, des)
    ensures Delivers(ev, ListType, t, des, ListScript(t.layout, des, 0), true, true)
  {
    MixedHasNames(t.layout, des);
    ListScriptExecutes(ev, t.layout, des, t.rows);
    hide *;
    ManySteps(ev, ListType, t, des, ListScript(t.layout, des, 0), true, Mixed(t.layout, des, |t.layout|));
  }

  // Same names: REORGANIZE.
  lemma RewriteDelivers(ev: Eval, kind: Strategy, t: Table, des: seq<PartDef>, allowDrop: bool, stmts: seq<Stmt>,
    skipped: seq<Stmt>)
    requires Inputs(ev, kind, t, des) && SameNames(t.layout, des) && |t.layout| == |des|
    requires kind == RangeType ==> AllLessThan(t.layout) && AllLessThan(des)
    requires RewritePlan(kind, t.layout, des, allowDrop) == Planned(stmts, skipped)
    ensures skipped == []
    ensures UniqueNames(des)
    ensures Delivers(ev, kind, t, des, stmts, !(kind == RangeType && LastBoundShrinks(ev, t.layout, des)), !allowDrop)
  {
    var cur := t.layout;
    SameNamesUnique(cur, des);
    assert kind == RangeType || kind == ListType;
    hide DefEqual, UniqueNames, Legal, Stored, Delivers, SameLayout, RangeScript, ListScript, ReorganizeRun, Discards,
      ChangedSlotsGrow, FirstChanged, LastChanged, SameNames, Increasing, ValuesDisjoint, AllLessThan;
    if FirstChanged(cur, des, 0) == |cur| {
      AllEqualIsSame(cur, des);
      NoStep(ev, kind, t, des);
      if kind == RangeType { SameLastBound(ev, cur, des); }
      Weaken(ev, kind, t, des, stmts, true, !allowDrop);
    } else if kind == RangeType {
      RangeRewriteDelivers(ev, t, des);
      Weaken(ev, kind, t, des, stmts, !LastBoundShrinks(ev, cur, des), !allowDrop);
    } else if ChangedSlotsGrow(cur, des) {
      ListRewriteDelivers(ev, t, des);
      Weaken(ev, kind, t, des, stmts, true, !allowDrop);
    } else {
      SpanDelivers(ev, t, des, allowDrop);
    }
  }

  lemma Weaken(ev: Eval, kind: Strategy, t: Table, des: seq<PartDef>, stmts: seq<Stmt>, ok: bool, keepsRows: bool)
    requires Stored(ev, t) && Delivers(ev, kind, t, des, stmts, ok, true)
    ensures Delivers(ev, kind, t, des, stmts, ok, keepsRows)
  {
    hide Run, Legal, Stored, RowsAsPlanned, SameLayout;
    forall n | 0 <= n < |stmts| ensures SafePrefix(ev, kind, t, stmts, n, keepsRows) {
      assert SafePrefix(ev, kind, t, stmts, n, true);
    }
  }

  lemma SpanDelivers(ev: Eval, t: Table, des: seq<PartDef>, allowDrop: bool)
    requires Inputs(ev, ListType, t, des) && SameNames(t.layout, des)
    requires |t.layout| == |des| && FirstChanged(t.layout, des, 0) < |t.layout|
    requires allowDrop || !Discards(t.layout, des)
    ensures Delivers(ev, ListType, t, des,
      [ReorganizeRun(t.layout, des, FirstChanged(t.layout, des, 0), LastChanged(t.layout, des, |t.layout|))],
        true, !allowDrop)
  {
    var cur := t.layout;
    var first, last := FirstChanged(cur, des, 0), LastChanged(cur, des, |cur|);
    assert first <= last;
    SpanExecutes(ev, cur, des, first, last, t.rows);
    if !Discards(cur, des) { NoDiscardKeepsRows(ev, t, des); }
    OneStep(ev, ListType, t, des, ReorganizeRun(cur, des, first, last), !allowDrop);
  }

  lemma NoDiscardKeepsRows(ev: Eval, t: Table, des: seq<PartDef>)
    requires Stored(ev, t) && AllIn(t.layout) && !Discards(t.layout, des)
    ensures RowsOwned(t.rows, des) == t.rows
  {
    forall k | k in t.rows ensures k.Const? && Owned(des, k.v) { OwnedAt(ev, t.layout, k); }
  }

  // New names: slicing the catch-all.
  lemma CatchAllDelivers(ev: Eval, cur: PartOption, des: PartOption, t: Table, keepsRows: bool)
    requires CatchAllInsert(cur, des) && 0 < |cur.defs| < |des.defs| && t.layout == cur.defs &&
      Inputs(ev, RangeType, t, des.defs)
    ensures UniqueNames(des.defs)
    ensures Delivers(ev, RangeType, t, des.defs, [CatchAllStmt(cur.defs, des.defs)], true, keepsRows)
  {
    CatchAllExecutes(ev, cur, des, t);
    var c, l := cur.defs, Sliced(cur.defs, des.defs);
    forall i | 0 <= i < |c| ensures HasName(l, c[i].name) {
      var j := if i < |c| - 1 then i else |l| - 1;
      assert l[j] == c[i];
    }
    NothingLost(ev, RangeType, t, Table(l, t.rows), des.defs);
    OneStep(ev, RangeType, t, des.defs, CatchAllStmt(cur.defs, des.defs), keepsRows);
  }

  // New partitions at the end: ADD PARTITION.
  lemma AddDelivers(ev: Eval, kind: Strategy, t: Table, des: seq<PartDef>, keepsRows: bool)
    requires Inputs(ev, kind, t, des)
    requires Unmatched(t.layout, des) == [] && des[MatchCount(t.layout, des)..] != []
    ensures Delivers(ev, kind, t, des, [AddPartition(des[MatchCount(t.layout, des)..])], UniqueNames(des), keepsRows)
  {
    var cur, adds := t.layout, des[MatchCount(t.layout, des)..];
    AddExecutes(ev, kind, cur, des, t);
    if UniqueNames(des) {
      forall i | 0 <= i < |cur| ensures HasName(cur + adds, cur[i].name) { assert (cur + adds)[i] == cur[i]; }
      NothingLost(ev, kind, t, Table(cur + adds, t.rows), des);
    }
    OneStep(ev, kind, t, des, AddPartition(adds), keepsRows);
  }

  // A row's partition is dropped exactly when its name is gone.
  lemma DroppedByName(ev: Eval, t: Table, des: seq<PartDef>, k: Key, i: nat)
    requires UniqueNames(t.layout) && Home(ev, t.layout, k) < |t.layout|
    requires Without(t.layout, NamesOf(Unmatched(t.layout, des))) == Kept(t.layout, des)
    requires i < |Kept(t.layout, des)| && EqualFold(Kept(t.layout, des)[i].name, t.layout[Home(ev, t.layout, k)].name)
    ensures Kept(t.layout, des)[i] == t.layout[Home(ev, t.layout, k)]
    ensures !Names(NamesOf(Unmatched(t.layout, des)), t.layout[Home(ev, t.layout, k)])
  {
    var cur := t.layout;
    var h, kept := Home(ev, cur, k), Kept(cur, des);
    var at := KeptIsSublist(cur, des);
    assert cur[at[i]] == kept[i];
    assert at[i] == h;
    WithoutKeepsUnnamed(cur, NamesOf(Unmatched(cur, des)), i);
  }

  // For LIST, exactly when desired no longer lists its constant.
  lemma DroppedByValue(ev: Eval, t: Table, des: seq<PartDef>, k: Key)
    requires Legal(ev, ListType, t.layout) && Home(ev, t.layout, k) < |t.layout|
    requires Without(t.layout, NamesOf(Unmatched(t.layout, des))) == Kept(t.layout, des)
    requires SameLayout(Kept(t.layout, des), des)
    ensures !Names(NamesOf(Unmatched(t.layout, des)), t.layout[Home(ev, t.layout, k)]) <==> k.Const? && Owned(des, k.v)
  {
    var cur := t.layout;
    var h, kept := Home(ev, cur, k), Kept(cur, des);
    assert k.Const? && SlotHas(cur[h], k.v);
    if !Names(NamesOf(Unmatched(cur, des)), cur[h]) {
      WithoutMember(cur, NamesOf(Unmatched(cur, des)), h);
      var i :| 0 <= i < |kept| && kept[i] == cur[h];
      EqualSlotsHaveSameValues(kept[i], des[i], k.v);
      assert SlotHas(des[i], k.v);
    }
    if Owned(des, k.v) {
      var i :| 0 <= i < |des| && des[i].range.In? && k.v in des[i].range.values;
      var at := KeptIsSublist(cur, des);
      EqualSlotsHaveSameValues(kept[i], des[i], k.v);
      assert SlotHas(des[i], k.v) && SlotHas(kept[i], k.v) && cur[at[i]] == kept[i];
      assert at[i] == h;
      WithoutKeepsUnnamed(cur, NamesOf(Unmatched(cur, des)), i);
    }
  }

  lemma DroppedRow(ev: Eval, kind: Strategy, t: Table, des: seq<PartDef>, k: Key)
    requires Inputs(ev, kind, t, des) && k in t.rows
    requires Without(t.layout, NamesOf(Unmatched(t.layout, des))) == Kept(t.layout, des)
    requires SameLayout(Kept(t.layout, des), des)
    ensures var cur := t.layout; var h := Home(ev, cur, k); var d := Names(NamesOf(Unmatched(cur, des)), cur[h]);
      (!d <==> HasName(Kept(cur, des), cur[h].name)) && (kind == ListType ==> (!d <==> k.Const? && Owned(des, k.v)))
  {
    var cur := t.layout;
    var h, kept, names := Home(ev, cur, k), Kept(cur, des), NamesOf(Unmatched(cur, des));
    if !Names(names, cur[h]) {
      WithoutMember(cur, names, h);
      var i :| 0 <= i < |kept| && kept[i] == cur[h];
      assert EqualFold(kept[i].name, cur[h].name);
    }
    if HasName(kept, cur[h].name) {
      var i :| 0 <= i < |kept| && EqualFold(kept[i].name, cur[h].name);
      DroppedByName(ev, t, des, k, i);
    }
    if kind == ListType { DroppedByValue(ev, t, des, k); }
  }

  lemma {:induction false} WithoutKeepsUnnamed(l: seq<PartDef>, names: seq<string>, i: nat)
    requires i < |Without(l, names)|
    ensures !Names(names, Without(l, names)[i])
  {
    if Names(names, l[0]) { WithoutKeepsUnnamed(l[1..], names, i); }
    else if i > 0 { WithoutKeepsUnnamed(l[1..], names, i - 1); }
  }

  // Partitions gone: DROP PARTITION.
  lemma DropDelivers(ev: Eval, kind: Strategy, t: Table, des: seq<PartDef>)
    requires Inputs(ev, kind, t, des)
    requires MatchCount(t.layout, des) == |des| && Unmatched(t.layout, des) != []
    ensures UniqueNames(des)
    ensures Delivers(ev, kind, t, des, [DropPartition(NamesOf(Unmatched(t.layout, des)))], true, false)
  {
    var cur := t.layout;
    var names, kept := NamesOf(Unmatched(cur, des)), Kept(cur, des);
    DropExecutes(ev, kind, cur, des, t);
    forall i | 0 <= i < |cur| ensures Names(names, cur[i]) <==> HasName(Unmatched(cur, des), cur[i].name) {
      NamesOfHasName(Unmatched(cur, des), cur[i]);
    }
    WithoutUnmatched(cur, des, names);
    LayoutNamesUnique(kept, des);
    forall k | k in t.rows
      ensures k in RowsOutside(ev, t, names) <==> HasName(kept, cur[Home(ev, cur, k)].name)
      ensures kind == ListType ==> (k in RowsOutside(ev, t, names) <==> k in RowsOwned(t.rows, des))
    {
      DroppedRow(ev, kind, t, des, k);
    }
    var end := Table(kept, RowsOutside(ev, t, names));
    assert kind == ListType ==> end.rows == RowsOwned(t.rows, des);
    assert RowsAsPlanned(ev, kind, t, end, des);
    OneStep(ev, kind, t, des, DropPartition(names), false);
  }

  lemma LayoutNamesUnique(a: seq<PartDef>, b: seq<PartDef>)
    requires SameLayout(a, b) && UniqueNames(a)
    ensures UniqueNames(b)
  {
    assert forall i :: 0 <= i < |a| ==> DefEqual(a[i], b[i]);
    assert forall i, j :: 0 <= i < j < |b| ==> Fold(b[i].name) == Fold(a[i].name) && Fold(b[j].name) == Fold(a[j].name);
  }

  // When MySQL takes the whole script: the desired names are distinct, and a rewrite of the same
  // RANGE partitions does not lower the last bound. Nothing else can go wrong.
  ghost predicate Accepted(ev: Eval, kind: Strategy, cur: seq<PartDef>, des: seq<PartDef>) {
    UniqueNames(des) &&
    !(kind == RangeType && SameNames(cur, des) && cur != [] && AllLessThan(cur) && AllLessThan(des) &&
      LastBoundShrinks(ev, cur, des))
  }

  // A desired list the planner's checks can judge. Order has to be assumed only for bounds that are
  // expressions: everything else the checks establish themselves.
  ghost predicate Comparable(ev: Eval, kind: Strategy, des: seq<PartDef>) {
    des != [] &&
    (kind == RangeType ==> AllLessThan(des) && (NoForms(des) || Increasing(ev, des))) &&
    (kind == ListType ==> AllIn(des))
  }

  // One partition scheme: everything in the clause but the partitions themselves.
  ghost predicate OneScheme(cur: PartOption, des: PartOption) {
    cur.kind == des.kind && cur.linear == des.linear && cur.keyAlgorithm == des.keyAlgorithm && cur.expr == des.expr &&
    |cur.columns| == |des.columns| &&
    forall i :: 0 <= i < |cur.columns| ==> Fold(cur.columns[i]) == Fold(des.columns[i])
  }

  lemma SchemeIs(cur: PartOption, des: PartOption)
    ensures SameHeader(cur, des) <==> OneScheme(cur, des)
  {
  }

  // The main result. Every statement of a plan runs, from any legal table, exactly when Accepted
  // says so; the table is legal after each one; it ends in the desired layout, and the scheme, which no
  // statement touches, is desired's as well; without permission
  // to drop partitions no row is ever lost, and with it only the rows RowsAsPlanned names.
  lemma PlanDelivers(ev: Eval, cur: PartOption, des: PartOption, allowDrop: bool, t: Table, stmts: seq<Stmt>,
    skipped: seq<Stmt>)
    requires (cur.kind == RangeType || cur.kind == ListType) && t.layout == cur.defs
    requires Legal(ev, cur.kind, t.layout) && Stored(ev, t) && Comparable(ev, cur.kind, des.defs)
    requires PlanOptions(cur, des, allowDrop) == Planned(stmts, skipped)
    ensures OneScheme(cur, des)
    ensures skipped == [] ==>
      Delivers(ev, cur.kind, t, des.defs, stmts, Accepted(ev, cur.kind, cur.defs, des.defs), !allowDrop)
    ensures skipped != [] ==> stmts == [] && !allowDrop && PlanOptions(cur, des, true) == Planned(skipped, [])
  {
    var kind, c, d := cur.kind, cur.defs, des.defs;
    SchemeIs(cur, des);
    if kind == RangeType && NoForms(d) { MonotonicCheckIsExact(ev, d); }
    if kind == ListType { DuplicateCheckIsExact(d); }
    assert kind == RangeType ==> AllLessThan(c) && AllLessThan(d) && c != [];
    hide DistinctValues, AdjacentAscend, Bounds, Listings, SameHeader, OneScheme, Legal, Stored, Increasing,
      ValuesDisjoint, UniqueNames, DefEqual, CatchAllInsert, SameNames, RewritePlan, Delivers, AllLessThan,
      LastBoundShrinks, NoForms;
    if SameNames(c, d) {
      SameNamesLength(c, d);
      RewriteDelivers(ev, kind, t, d, allowDrop, stmts, skipped);
    } else if CatchAllInsert(cur, des) {
      CatchAllDelivers(ev, cur, des, t, !allowDrop);
    } else {
      AddDropDelivers(ev, kind, t, d, allowDrop, stmts, skipped);
    }
  }

  lemma AddDropDelivers(ev: Eval, kind: Strategy, t: Table, des: seq<PartDef>, allowDrop: bool, stmts: seq<Stmt>,
    skipped: seq<Stmt>)
    requires Inputs(ev, kind, t, des)
    requires AddDropPlan(t.layout, des, allowDrop) == Planned(stmts, skipped)
    ensures skipped == [] ==> Delivers(ev, kind, t, des, stmts, UniqueNames(des), !allowDrop)
  {
    var cur := t.layout;
    if des[MatchCount(cur, des)..] != [] {
      AddDelivers(ev, kind, t, des, !allowDrop);
    } else if Unmatched(cur, des) == [] {
      NoDropsIffPrefix(cur, des);
      assert des[..|cur|] == des;
      LayoutNamesUnique(cur, des);
      NoStep(ev, kind, t, des);
      Weaken(ev, kind, t, des, [], true, !allowDrop);
    } else {
      DropDelivers(ev, kind, t, des);
    }
  }

  // Planning again from the layout the script leaves finds nothing to do.
  lemma ReplanIsEmpty(cur: PartOption, des: PartOption, allowDrop: bool, again: bool, end: seq<PartDef>)
    requires cur.kind == RangeType || cur.kind == ListType
    requires PlanOptions(cur, des, allowDrop).Planned? && SameLayout(end, des.defs)
    ensures PlanOptions(cur.(defs := end), des, again) == Planned([], [])
  {
    assert forall i :: 0 <= i < |end| ==> DefEqual(end[i], des.defs[i]);
    var f := FirstChanged(end, des.defs, 0);
    assert f == |end|;
  }

  /* ----- the two ways a plan can be refused ----- */

  // Two new partitions with one name are planned, and MySQL refuses them.
  lemma RepeatedNewNameIsRefused(ev: Eval)
    ensures var p0, p1, p2 := PartDef("p0", LessThan(Int(10)), ""), PartDef("p1", LessThan(Int(20)), ""),
      PartDef("p1", LessThan(Int(30)), "");
      AddDropPlan([p0], [p0, p1, p2], false) == Planned([AddPartition([p1, p2])], []) &&
      AdjacentAscend(Bounds([p0, p1, p2])) &&
      Run(ev, RangeType, Table([p0], {}), [AddPartition([p1, p2])]).None?
  {
    var p0, p1, p2 := PartDef("p0", LessThan(Int(10)), ""), PartDef("p1", LessThan(Int(20)), ""),
      PartDef("p1", LessThan(Int(30)), "");
    var l := [p0, p1, p2];
    BoundsOfRange(l);
    assert DefEqual(p0, p0) && l[..1] == [p0];
    NoDropsIffPrefix([p0], l);
    assert l[1..] == [p1, p2];
    assert ([p0] + [p1, p2])[1] == p1 && ([p0] + [p1, p2])[2] == p2;
    assert !UniqueNames([p0] + [p1, p2]);
  }

  // Lowering the last bound is planned, and MySQL refuses it.
  lemma LoweredLastBoundIsRefused(ev: Eval)
    ensures var p, q := PartDef("p0", LessThan(Int(20)), ""), PartDef("p0", LessThan(Int(10)), "");
      RewritePlan(RangeType, [p], [q], false) == Planned([Reorganize(["p0"], [q])], []) &&
      Run(ev, RangeType, Table([p], {}), [Reorganize(["p0"], [q])]).None?
  {
    var p, q := PartDef("p0", LessThan(Int(20)), ""), PartDef("p0", LessThan(Int(10)), "");
    assert !DefEqual(p, q);
    assert FirstChanged([p], [q], 0) == 0 && RunLast([p], [q], 0) == 0 && CascadeLast([p], [q], 0) == 0;
    assert RangeScript([p], [q], 1) == [];
    var s := ReorganizeRun([p], [q], 0, 0);
    assert NamesOf([p][0..1])[0] == "p0";
    assert !DefEqual([p][0], [q][0]) && SlotDef([p], [q], 0) == [q][0];
    assert s == Reorganize(["p0"], [q]);
    assert RangeScript([p], [q], 0) == [s] + [];
    assert IndexOfName([p], "p0") == 0;
    assert !KeepsUpperEdge(ev, [p], 1, [q]);
  }
}
