/** The statements of one table after its renames: columns, primary key, indexes. */
module SchemaLocal {
  import opened Common
  import opened SortedNames
  import opened SchemaModel
  import opened SchemaSpec

  // The table as the planner sees it; column order is the database's own business.
  ghost predicate Shows(t: Table, s: Schema) {
    t.attrs == s.cols.vals && t.pk == s.pk && t.indexes == s.indexes.vals
  }

  ghost predicate SchemaOk(s: Schema) {
    s.cols.Ok() && s.cols.keys != [] && "" !in s.cols.vals && PartsIn(s.pk, s.cols.vals) &&
    s.indexes.Ok() && s.fks.Ok() &&
    forall n :: n in s.indexes.vals ==> s.indexes.vals[n].parts != [] && PartsIn(s.indexes.vals[n].parts, s.cols.vals)
  }

  // Columns without their order.
  ghost predicate ColsOk(t: Table) {
    Distinct(t.cols) && Elems(t.cols) == t.attrs.Keys
  }

  /* ----- columns: adds and changes ----- */

  // The columns of desired up to position i.
  function FirstCols(des: OMap<string>, i: nat): map<string, string>
    requires i <= |des.keys|
  {
    map n | n in Elems(des.keys[..i]) && n in des.vals :: des.vals[n]
  }

  // The column order the adds produce.
  function AddedCols(cols: seq<string>, cur: map<string, string>, des: OMap<string>, i: nat): seq<string>
    requires i <= |des.keys|
    decreases |des.keys| - i
  {
    if i == |des.keys| then cols
    else
      var n := des.keys[i];
      if n in des.vals && n !in cur then
        AddedCols(InsertAfter(cols, n, if i == 0 then "" else des.keys[i - 1]), cur, des, i + 1)
      else AddedCols(cols, cur, des, i + 1)
  }

  lemma {:induction false} InsertedElems(s: seq<string>, c: string, after: string)
    requires Distinct(s) && c !in s
    ensures Distinct(InsertAfter(s, c, after)) && Elems(InsertAfter(s, c, after)) == Elems(s) + {c}
  {
    if after == "" || s == [] {
      ElemsCons(c, s);
      DistinctCons(c, s);
    } else {
      var h, t := s[0], s[1..];
      assert s == [h] + t;
      ElemsCons(h, t);
      DistinctCons(h, t);
      if h == after {
        assert [h, c] + t == [h] + ([c] + t);
        ElemsCons(c, t);
        DistinctCons(c, t);
        ElemsCons(h, [c] + t);
        DistinctCons(h, [c] + t);
      } else {
        InsertedElems(t, c, after);
        var r := InsertAfter(t, c, after);
        assert h !in Elems(r);
        ElemsCons(h, r);
        DistinctCons(h, r);
      }
    }
  }

  lemma PrefixStep(s: seq<string>, i: nat)
    requires Distinct(s) && i < |s|
    ensures s[i] in Elems(s) && s[i] !in Elems(s[..i]) && Elems(s[..i + 1]) == Elems(s[..i]) + {s[i]}
  {
    assert s[..i + 1] == s[..i] + [s[i]];
  }

  lemma FirstColsStep(des: OMap<string>, i: nat)
    requires des.Ok() && i < |des.keys|
    ensures des.keys[i] in des.vals
    ensures FirstCols(des, i + 1) == FirstCols(des, i)[des.keys[i] := des.vals[des.keys[i]]]
    ensures des.keys[i] !in FirstCols(des, i)
  {
    PrefixStep(des.keys, i);
    hide Distinct, Elems;
  }

  lemma AllFirstCols(des: OMap<string>)
    requires des.Ok()
    ensures FirstCols(des, |des.keys|) == des.vals
  {
    assert des.keys[..|des.keys|] == des.keys;
  }

  // The table once the desired column at position i is in place.
  function PlacedCol(t: Table, cur: map<string, string>, des: OMap<string>, i: nat): Table
    requires i < |des.keys|
  {
    t.(cols := if des.keys[i] in cur then t.cols
      else InsertAfter(t.cols, des.keys[i], if i == 0 then "" else des.keys[i - 1]),
       attrs := cur + FirstCols(des, i + 1))
  }

  // One desired column: it is added, changed or already there.
  lemma AddStep(k: string, t: Table, cur: map<string, string>, des: OMap<string>, i: nat)
    requires des.Ok() && i < |des.keys| && "" !in des.vals && des.keys[i] in des.vals
    requires ColsOk(t) && t.attrs == cur + FirstCols(des, i)
    ensures var n := des.keys[i];
      ColsOk(PlacedCol(t, cur, des, i)) &&
      (n !in cur ==>
        ExecLocal(t, AddColumn(k, n, des.vals[n], if i == 0 then "" else des.keys[i - 1])) ==
          Some(PlacedCol(t, cur, des, i))) &&
      (n in cur && cur[n] != des.vals[n] ==>
        ExecLocal(t, ModifyColumn(k, n, des.vals[n])) == Some(PlacedCol(t, cur, des, i))) &&
      (n in cur && cur[n] == des.vals[n] ==> t == PlacedCol(t, cur, des, i))
  {
    hide ExecLocal, ColsOk, FirstCols, InsertAfter, Distinct, Elems;
    var n, after := des.keys[i], if i == 0 then "" else des.keys[i - 1];
    MergeStep(cur, des, i);
    if n !in cur {
      AddNew(k, t, n, des.vals[n], after);
    } else {
      KeepOld(k, t, n, des.vals[n]);
    }
  }

  lemma MergeStep(cur: map<string, string>, des: OMap<string>, i: nat)
    requires des.Ok() && i < |des.keys| && "" !in des.vals
    ensures var n := des.keys[i]; var m := cur + FirstCols(des, i);
      n in des.vals && n != "" && cur + FirstCols(des, i + 1) == m[n := des.vals[n]] &&
      (n !in cur ==> n !in m) && (n in cur ==> n in m && m[n] == cur[n]) && (i > 0 ==> des.keys[i - 1] in m)
  {
    FirstColsStep(des, i);
    if i > 0 { AnchorExists(des, i); }
    hide FirstCols, Distinct, Elems;
    MergePut(cur, FirstCols(des, i), des.keys[i], des.vals[des.keys[i]]);
  }

  lemma AddNew(k: string, t: Table, n: string, a: string, after: string)
    requires ColsOk(t) && n !in t.attrs && n != "" && (after == "" || after in t.attrs)
    ensures var u := t.(cols := InsertAfter(t.cols, n, after), attrs := t.attrs[n := a]);
      ExecLocal(t, AddColumn(k, n, a, after)) == Some(u) && ColsOk(u)
  {
    assert n !in Elems(t.cols);
    InsertedElems(t.cols, n, after);
    hide InsertAfter, Distinct, Elems;
  }

  lemma KeepOld(k: string, t: Table, n: string, a: string)
    requires ColsOk(t) && n in t.attrs
    ensures ExecLocal(t, ModifyColumn(k, n, a)) == Some(t.(attrs := t.attrs[n := a]))
    ensures ColsOk(t.(attrs := t.attrs[n := a]))
    ensures t.attrs[n] == a ==> t.attrs[n := a] == t.attrs
  {
    assert t.attrs[n := a].Keys == t.attrs.Keys;
  }

  // The AFTER anchor is the desired predecessor, which is there by now.
  lemma AnchorExists(des: OMap<string>, i: nat)
    requires des.Ok() && 0 < i <= |des.keys|
    ensures des.keys[i - 1] in FirstCols(des, i)
  {
    assert des.keys[..i][i - 1] == des.keys[i - 1];
    assert des.keys[i - 1] in Elems(des.keys);
  }

  lemma {:induction false} AddsRun(k: string, t: Table, cur: map<string, string>, des: OMap<string>, i: nat)
    requires des.Ok() && i <= |des.keys| && "" !in des.vals
    requires ColsOk(t) && t.attrs == cur + FirstCols(des, i)
    ensures var u := t.(cols := AddedCols(t.cols, cur, des, i), attrs := cur + des.vals);
      RunLocal(t, ColumnAdds(k, cur, des, i)) == Some(u) && ColsOk(u)
    decreases |des.keys| - i
  {
    if i == |des.keys| {
      AllFirstCols(des);
    } else {
      FirstColsStep(des, i);
      AddStep(k, t, cur, des, i);
      var n, after := des.keys[i], if i == 0 then "" else des.keys[i - 1];
      AddsRun(k, PlacedCol(t, cur, des, i), cur, des, i + 1);
      hide ExecLocal, ColsOk, FirstCols, InsertAfter;
      var rest := ColumnAdds(k, cur, des, i + 1);
      if n !in cur { RunCons(t, AddColumn(k, n, des.vals[n], after), rest); }
      else if cur[n] != des.vals[n] { RunCons(t, ModifyColumn(k, n, des.vals[n]), rest); }
    }
  }

  lemma RunCons(t: Table, s: Stmt, rest: seq<Stmt>)
    ensures RunLocal(t, [s] + rest) == match ExecLocal(t, s) case None => None case Some(u) => RunLocal(u, rest)
  {
    hide ExecLocal;
    assert ([s] + rest)[0] == s && ([s] + rest)[1..] == rest;
  }

  /* ----- columns: drops ----- */

  lemma {:induction false} GoneIs<W>(keys: seq<string>, des: map<string, W>)
    requires Distinct(keys)
    ensures Distinct(Gone<string, W>(keys, des))
    ensures forall x :: x in Gone<string, W>(keys, des) <==> x in keys && x !in des
  {
    if keys != [] {
      var h, t := keys[0], keys[1..];
      assert keys == [h] + t;
      DistinctCons(h, t);
      GoneIs(t, des);
      DistinctCons(h, Gone<string, W>(t, des));
    }
  }

  lemma {:induction false} StripTwice(a: set<string>, b: set<string>, s: seq<Part>)
    ensures StripParts(a, StripParts(b, s)) == StripParts(a + b, s)
  {
    if s != [] {
      StripTwice(a, b, s[1..]);
      var r := StripParts(b, s[1..]);
      assert ([s[0]] + r)[0] == s[0] && ([s[0]] + r)[1..] == r;
      assert [] + r == r;
    }
  }

  lemma {:induction false} StripNone(s: seq<Part>)
    ensures StripParts({}, s) == s
  {
    if s != [] { StripNone(s[1..]); }
  }

  lemma StripIndexesNone(m: map<string, Index>)
    requires forall n :: n in m ==> m[n].parts != []
    ensures StripIndexes({}, m) == m
  {
    forall n | n in m ensures StripParts({}, m[n].parts) == m[n].parts { StripNone(m[n].parts); }
  }

  lemma StripNothing(a: set<string>)
    ensures StripParts(a, []) == []
  {
  }

  lemma StripIndexesTwice(a: set<string>, b: set<string>, m: map<string, Index>)
    ensures StripIndexes(a, StripIndexes(b, m)) == StripIndexes(a + b, m)
  {
    StripNothing(a);
    forall n | n in m ensures StripParts(a, StripParts(b, m[n].parts)) == StripParts(a + b, m[n].parts) {
      StripTwice(a, b, m[n].parts);
    }
  }

  function WithoutAll(s: seq<string>, gone: seq<string>): seq<string>
    decreases |gone|
  {
    if gone == [] then s else WithoutAll(Without(s, gone[0]), gone[1..])
  }

  lemma {:induction false} WithoutElems(s: seq<string>, c: string)
    requires Distinct(s)
    ensures Distinct(Without(s, c)) && Elems(Without(s, c)) == Elems(s) - {c}
  {
    if s != [] {
      var h, t := s[0], s[1..];
      assert s == [h] + t;
      ElemsCons(h, t);
      DistinctCons(h, t);
      WithoutElems(t, c);
      var r := Without(t, c);
      if h == c {
        assert [] + r == r;
        assert c !in Elems(t);
      } else {
        assert h !in Elems(r);
        ElemsCons(h, r);
        DistinctCons(h, r);
      }
    }
  }

  // The table after all the columns of `gone` are dropped.
  function Dropped(t: Table, gone: seq<string>): Table {
    Table(WithoutAll(t.cols, gone), t.attrs - Elems(gone), StripParts(Elems(gone), t.pk),
      StripIndexes(Elems(gone), t.indexes), t.fks)
  }

  lemma {:induction false} DropsRun(k: string, t: Table, gone: seq<string>, stays: string)
    requires Distinct(gone) && Elems(gone) <= t.attrs.Keys && ColsOk(t)
    requires stays in t.attrs && stays !in gone
    requires forall n :: n in t.indexes ==> t.indexes[n].parts != []
    ensures RunLocal(t, ColumnDrops(k, gone)) == Some(Dropped(t, gone)) && ColsOk(Dropped(t, gone))
    decreases |gone|
  {
    hide *;
    if gone == [] {
      DropNothing(k, t);
    } else {
      var c, rest := gone[0], gone[1..];
      assert gone == [c] + rest;
      DistinctCons(c, rest);
      ElemsCons(c, rest);
      NotIn(c, gone);
      assert c in t.attrs.Keys && stays != c;
      DropOne(k, t, c, stays);
      var u := Table(Without(t.cols, c), t.attrs - {c}, StripParts({c}, t.pk), StripIndexes({c}, t.indexes), t.fks);
      assert c !in Elems(rest) by { NotIn(c, rest); }
      assert Elems(rest) <= u.attrs.Keys;
      DropsRun(k, u, rest, stays);
      DroppedStep(t, c, rest);
      RunCons(t, DropColumn(k, c), ColumnDrops(k, rest));
      ColumnDropsCons(k, c, rest);
    }
  }

  lemma NotIn(c: string, s: seq<string>)
    ensures c in Elems(s) <==> c in s
  {
  }

  lemma ColumnDropsCons(k: string, c: string, rest: seq<string>)
    ensures ColumnDrops(k, [c] + rest) == [DropColumn(k, c)] + ColumnDrops(k, rest)
  {
  }

  lemma DropNothing(k: string, t: Table)
    requires ColsOk(t) && forall n :: n in t.indexes ==> t.indexes[n].parts != []
    ensures RunLocal(t, ColumnDrops(k, [])) == Some(Dropped(t, [])) && ColsOk(Dropped(t, []))
  {
    assert Elems<string>([]) == {};
    StripNone(t.pk);
    StripIndexesNone(t.indexes);
    assert t.attrs - {} == t.attrs;
    assert ColumnDrops(k, []) == [];
  }

  lemma DropOne(k: string, t: Table, c: string, stays: string)
    requires c in t.attrs && stays in t.attrs && stays != c && ColsOk(t)
    ensures var u := Table(Without(t.cols, c), t.attrs - {c}, StripParts({c}, t.pk),
      StripIndexes({c}, t.indexes), t.fks);
      ExecLocal(t, DropColumn(k, c)) == Some(u) && ColsOk(u) && forall n :: n in u.indexes ==> u.indexes[n].parts != []
  {
    WithoutElems(t.cols, c);
    TwoColumns(t.attrs, c, stays);
    hide Distinct, Elems, Without, StripParts;
  }

  lemma TwoColumns(m: map<string, string>, c: string, stays: string)
    requires c in m && stays in m && stays != c
    ensures |m| > 1
  {
    assert |m| == |m.Keys|;
    assert m.Keys == {c} + (m.Keys - {c});
    assert stays in m.Keys - {c};
  }

  lemma DroppedStep(t: Table, c: string, rest: seq<string>)
    ensures var u := Table(Without(t.cols, c), t.attrs - {c}, StripParts({c}, t.pk),
      StripIndexes({c}, t.indexes), t.fks);
      Dropped(u, rest) == Dropped(t, [c] + rest)
  {
    assert Elems([c] + rest) == Elems(rest) + {c};
    StripTwice(Elems(rest), {c}, t.pk);
    StripIndexesTwice(Elems(rest), {c}, t.indexes);
    assert ([c] + rest)[0] == c && ([c] + rest)[1..] == rest;
    assert (t.attrs - {c}) - Elems(rest) == t.attrs - Elems([c] + rest);
  }

  /* ----- indexes ----- */

  // The planner's test for an index that goes with its columns is what MySQL does.
  lemma {:induction false} StripsToNothing(gone: set<string>, s: seq<Part>)
    requires "" !in gone
    ensures StripParts(gone, s) == [] <==> forall i :: 0 <= i < |s| ==> s[i].column in gone
  {
    if s != [] {
      StripsToNothing(gone, s[1..]);
      assert forall i :: 0 < i < |s| ==> s[i] == s[1..][i - 1];
      assert forall i :: 0 <= i < |s[1..]| ==> s[1..][i] == s[i + 1];
    }
  }

  lemma {:induction false} StripsNothing(gone: set<string>, s: seq<Part>)
    requires forall i :: 0 <= i < |s| ==> s[i].column !in gone
    ensures StripParts(gone, s) == s
  {
    if s != [] { StripsNothing(gone, s[1..]); }
  }

  // The index is dropped by a statement of its own.
  predicate DropNow(cur: map<string, Index>, des: map<string, Index>, allowed: bool, gone: set<string>, n: string) {
    n in cur && !SameIndex(cur, des, n) && !AllPartsDropped(cur[n].parts, gone) && (n in des || allowed)
  }

  function DropsUpTo(cur: OMap<Index>, des: map<string, Index>, allowed: bool, gone: set<string>, i: nat): set<string>
    requires i <= |cur.keys|
  {
    set n | n in Elems(cur.keys[..i]) && DropNow(cur.vals, des, allowed, gone, n)
  }

  lemma DropsUpToStep(cur: OMap<Index>, des: map<string, Index>, allowed: bool, gone: set<string>, i: nat)
    requires cur.Ok() && i < |cur.keys|
    ensures var n, a, b := cur.keys[i], DropsUpTo(cur, des, allowed, gone, i),
      DropsUpTo(cur, des, allowed, gone, i + 1);
      n in cur.vals && n !in a && b == if DropNow(cur.vals, des, allowed, gone, n) then a + {n} else a
  {
    hide DropNow;
    PrefixStep(cur.keys, i);
    hide Distinct, Elems;
  }

  ghost predicate HasParts(m: map<string, Index>) {
    forall n :: n in m ==> m[n].parts != []
  }

  lemma DropIndexOne(k: string, t: Table, cur: OMap<Index>, des: map<string, Index>, allowed: bool, gone: set<string>,
    done: set<string>, n: string)
    requires "" !in gone && HasParts(cur.vals) && n !in done
    requires t.indexes == StripIndexes(gone, cur.vals) - done && DropNow(cur.vals, des, allowed, gone, n)
    ensures ExecLocal(t, DropIndex(k, n)) == Some(t.(indexes := StripIndexes(gone, cur.vals) - (done + {n})))
  {
    StripsToNothing(gone, cur.vals[n].parts);
    assert n in StripIndexes(gone, cur.vals);
    hide StripIndexes;
    assert (StripIndexes(gone, cur.vals) - done) - {n} == StripIndexes(gone, cur.vals) - (done + {n});
  }

  // Every DROP INDEX hits an index that is still there.
  lemma {:induction false} IndexDropsRun(k: string, t: Table, cur: OMap<Index>, des: OMap<Index>, allowed: bool,
    gone: set<string>, i: nat)
    requires cur.Ok() && i <= |cur.keys| && HasParts(cur.vals) && "" !in gone
    requires t.indexes == StripIndexes(gone, cur.vals) - DropsUpTo(cur, des.vals, allowed, gone, i)
    ensures RunLocal(t, IndexDrops(k, cur, des, allowed, gone, i)) ==
      Some(t.(indexes := StripIndexes(gone, cur.vals) - DropsUpTo(cur, des.vals, allowed, gone, |cur.keys|)))
    decreases |cur.keys| - i
  {
    if i < |cur.keys| {
      DropsUpToStep(cur, des.vals, allowed, gone, i);
      var n, done := cur.keys[i], DropsUpTo(cur, des.vals, allowed, gone, i);
      hide StripIndexes, DropsUpTo, ExecLocal, AllPartsDropped, SameIndex, HasParts;
      if DropNow(cur.vals, des.vals, allowed, gone, n) {
        DropIndexOne(k, t, cur, des.vals, allowed, gone, done, n);
        var u := t.(indexes := StripIndexes(gone, cur.vals) - DropsUpTo(cur, des.vals, allowed, gone, i + 1));
        IndexDropsRun(k, u, cur, des, allowed, gone, i + 1);
        RunCons(t, DropIndex(k, n), IndexDrops(k, cur, des, allowed, gone, i + 1));
      } else {
        IndexDropsRun(k, t, cur, des, allowed, gone, i + 1);
      }
    }
  }

  function CreatedUpTo(cur: map<string, Index>, des: OMap<Index>, i: nat): map<string, Index>
    requires i <= |des.keys|
  {
    map n | n in Elems(des.keys[..i]) && n in des.vals && !SameIndex(cur, des.vals, n) :: des.vals[n]
  }

  lemma CreatedUpToStep(cur: map<string, Index>, des: OMap<Index>, i: nat)
    requires des.Ok() && i < |des.keys|
    ensures var n, a, b := des.keys[i], CreatedUpTo(cur, des, i), CreatedUpTo(cur, des, i + 1);
      n in des.vals && n !in a && b == if SameIndex(cur, des.vals, n) then a else a[n := des.vals[n]]
  {
    PrefixStep(des.keys, i);
    hide SameIndex, Distinct, Elems;
  }

  lemma MergePut<V>(a: map<string, V>, b: map<string, V>, n: string, v: V)
    ensures (a + b)[n := v] == a + b[n := v]
  {
  }

  // Every CREATE INDEX uses a free name and columns that exist.
  lemma {:induction false} IndexCreatesRun(k: string, t: Table, base: map<string, Index>, cur: map<string, Index>,
    des: OMap<Index>, i: nat)
    requires des.Ok() && i <= |des.keys| && t.indexes == base + CreatedUpTo(cur, des, i)
    requires forall n :: n in des.vals && !SameIndex(cur, des.vals, n) ==> n !in base
    requires forall n :: n in des.vals ==> des.vals[n].parts != [] && PartsIn(des.vals[n].parts, t.attrs)
    ensures RunLocal(t, IndexCreates(k, cur, des, i)) == Some(t.(indexes := base + CreatedUpTo(cur, des, |des.keys|)))
    decreases |des.keys| - i
  {
    if i < |des.keys| {
      CreatedUpToStep(cur, des, i);
      var n := des.keys[i];
      hide CreatedUpTo, PartsIn, SameIndex;
      if SameIndex(cur, des.vals, n) {
        IndexCreatesRun(k, t, base, cur, des, i + 1);
      } else {
        var u := t.(indexes := base + CreatedUpTo(cur, des, i + 1));
        MergePut(base, CreatedUpTo(cur, des, i), n, des.vals[n]);
        assert ExecLocal(t, CreateIndex(k, n, des.vals[n])) == Some(u);
        IndexCreatesRun(k, u, base, cur, des, i + 1);
        hide ExecLocal;
        RunCons(t, CreateIndex(k, n, des.vals[n]), IndexCreates(k, cur, des, i + 1));
      }
    }
  }

  // The indexes a table ends with.
  function FinalIndexes(cur: map<string, Index>, des: map<string, Index>, allowed: bool,
    gone: set<string>): map<string, Index> {
    if allowed then des else StripIndexes(gone, cur) + des
  }

  // Drop suppression is exact: what the columns took, what is dropped and what is created add up.
  lemma IndexesAddUp(cur: OMap<Index>, des: OMap<Index>, allowed: bool, gone: set<string>)
    requires cur.Ok() && des.Ok() && HasParts(cur.vals) && "" !in gone
    requires forall n, i :: n in des.vals && 0 <= i < |des.vals[n].parts| ==> des.vals[n].parts[i].column !in gone
    ensures var base := StripIndexes(gone, cur.vals) - DropsUpTo(cur, des.vals, allowed, gone, |cur.keys|);
      (forall n :: n in des.vals && !SameIndex(cur.vals, des.vals, n) ==> n !in base) &&
      base + CreatedUpTo(cur.vals, des, |des.keys|) == FinalIndexes(cur.vals, des.vals, allowed, gone)
  {
    hide *;
    var strip, drops := StripIndexes(gone, cur.vals), DropsUpTo(cur, des.vals, allowed, gone, |cur.keys|);
    var made, final := CreatedUpTo(cur.vals, des, |des.keys|), FinalIndexes(cur.vals, des.vals, allowed, gone);
    var whole := (strip - drops) + made;
    forall n
      ensures n in des.vals && !SameIndex(cur.vals, des.vals, n) ==> n !in strip - drops
      ensures n in whole <==> n in final
      ensures n in final ==> whole[n] == final[n]
    {
      AtName(cur, des, allowed, gone, n);
      NameAddsUpIs(cur, des, allowed, gone, n);
    }
    MapsAgree(whole, final);
  }

  lemma MapsAgree<V>(a: map<string, V>, b: map<string, V>)
    requires forall n :: n in a <==> n in b
    requires forall n :: n in b ==> a[n] == b[n]
    ensures a == b
  {
  }

  lemma NameAddsUpIs(cur: OMap<Index>, des: OMap<Index>, allowed: bool, gone: set<string>, n: string)
    requires NameAddsUp(cur, des, allowed, gone, n)
    ensures var strip, drops := StripIndexes(gone, cur.vals), DropsUpTo(cur, des.vals, allowed, gone, |cur.keys|);
      var made, final := CreatedUpTo(cur.vals, des, |des.keys|), FinalIndexes(cur.vals, des.vals, allowed, gone);
      (n in des.vals && !SameIndex(cur.vals, des.vals, n) ==> n !in strip - drops) &&
      (n in (strip - drops) + made <==> n in final) &&
      (n in final ==> ((strip - drops) + made)[n] == final[n])
  {
    hide StripIndexes, FinalIndexes, DropsUpTo, CreatedUpTo, SameIndex;
  }

  ghost predicate NameAddsUp(cur: OMap<Index>, des: OMap<Index>, allowed: bool, gone: set<string>, n: string) {
    var strip, drops := StripIndexes(gone, cur.vals), DropsUpTo(cur, des.vals, allowed, gone, |cur.keys|);
    var made, final := CreatedUpTo(cur.vals, des, |des.keys|), FinalIndexes(cur.vals, des.vals, allowed, gone);
    (n in des.vals && !SameIndex(cur.vals, des.vals, n) ==> n !in strip - drops) &&
    (n in (strip - drops) + made <==> n in final) &&
    (n in final ==> ((strip - drops) + made)[n] == final[n])
  }

  lemma AtName(cur: OMap<Index>, des: OMap<Index>, allowed: bool, gone: set<string>, n: string)
    requires cur.Ok() && des.Ok() && HasParts(cur.vals) && "" !in gone
    requires forall n, i :: n in des.vals && 0 <= i < |des.vals[n].parts| ==> des.vals[n].parts[i].column !in gone
    ensures NameAddsUp(cur, des, allowed, gone, n)
  {
    AllDrops(cur, des.vals, allowed, gone);
    AllCreated(cur.vals, des);
    AddUpAt(cur.vals, des.vals, allowed, gone, n);
    hide StripIndexes, FinalIndexes, DropsUpTo, CreatedUpTo, SameIndex, HasParts, Distinct, Elems, DropNow;
  }

  // One index name, told apart by what happens to it.
  ghost predicate AddsUp(cur: map<string, Index>, des: map<string, Index>, allowed: bool, gone: set<string>,
    n: string) {
    var strip, final := StripIndexes(gone, cur), FinalIndexes(cur, des, allowed, gone);
    var stays, made := n in strip && !DropNow(cur, des, allowed, gone, n), n in des && !SameIndex(cur, des, n);
    !(stays && made) && (n in final <==> stays || made) &&
    (made ==> final[n] == des[n]) && (stays ==> final[n] == strip[n])
  }

  lemma AddUpAt(cur: map<string, Index>, des: map<string, Index>, allowed: bool, gone: set<string>, n: string)
    requires HasParts(cur) && "" !in gone
    requires forall n, i :: n in des && 0 <= i < |des[n].parts| ==> des[n].parts[i].column !in gone
    ensures AddsUp(cur, des, allowed, gone, n)
  {
    StripIndexesFewer(gone, cur);
    if n in cur { OneIndex(cur, des, gone, n); }
    hide StripIndexes, AllPartsDropped;
  }

  lemma AllDrops(cur: OMap<Index>, des: map<string, Index>, allowed: bool, gone: set<string>)
    requires cur.Ok()
    ensures forall n :: n in DropsUpTo(cur, des, allowed, gone, |cur.keys|) <==>
      DropNow(cur.vals, des, allowed, gone, n)
  {
    assert cur.keys[..|cur.keys|] == cur.keys;
  }

  lemma AllCreated(cur: map<string, Index>, des: OMap<Index>)
    requires des.Ok()
    ensures var m := CreatedUpTo(cur, des, |des.keys|);
      forall n :: (n in m <==> n in des.vals && !SameIndex(cur, des.vals, n)) && (n in m ==> m[n] == des.vals[n])
  {
    assert des.keys[..|des.keys|] == des.keys;
  }

  lemma StripIndexesFewer(gone: set<string>, m: map<string, Index>)
    ensures StripIndexes(gone, m).Keys <= m.Keys
  {
  }

  lemma OneIndex(cur: map<string, Index>, des: map<string, Index>, gone: set<string>, n: string)
    requires n in cur && cur[n].parts != [] && "" !in gone
    requires n in des ==> forall i :: 0 <= i < |des[n].parts| ==> des[n].parts[i].column !in gone
    ensures n in StripIndexes(gone, cur) <==> !AllPartsDropped(cur[n].parts, gone)
    ensures SameIndex(cur, des, n) ==> n in StripIndexes(gone, cur) && StripIndexes(gone, cur)[n] == cur[n]
  {
    StripsToNothing(gone, cur[n].parts);
    if SameIndex(cur, des, n) { StripsNothing(gone, cur[n].parts); }
  }

  /* ----- the primary key ----- */

  // The case the statement order gets wrong: the key changes while all of its columns are dropped,
  // so DROP PRIMARY KEY comes after MySQL has already removed the key with its last column.
  predicate KeyTrap(c: Schema, d: Schema, p: Policy) {
    p.column && c.pk != [] && c.pk != d.pk && (d.pk != [] || p.constraint) &&
    forall i :: 0 <= i < |c.pk| ==> c.pk[i].column in c.cols.vals && c.pk[i].column !in d.cols.vals
  }

  // The columns that are really dropped.
  function GoneCols(c: Schema, d: Schema, p: Policy): set<string> {
    if p.column then Elems(Gone<string, string>(c.cols.keys, d.cols.vals)) else {}
  }

  function FinalKey(c: Schema, d: Schema, p: Policy): seq<Part> {
    if d.pk != [] || p.constraint then d.pk else StripParts(GoneCols(c, d, p), c.pk)
  }

  lemma GoneColsAre(c: Schema, d: Schema, p: Policy)
    requires SchemaOk(c) && SchemaOk(d)
    ensures forall x :: x in GoneCols(c, d, p) <==> p.column && x in c.cols.vals && x !in d.cols.vals
    ensures "" !in GoneCols(c, d, p)
  {
    GoneIs(c.cols.keys, d.cols.vals);
    assert forall x :: x in c.cols.keys <==> x in Elems(c.cols.keys);
  }

  lemma KeyRuns(k: string, t: Table, c: Schema, d: Schema, p: Policy)
    requires SchemaOk(c) && SchemaOk(d)
    requires t.pk == StripParts(GoneCols(c, d, p), c.pk) && PartsIn(d.pk, t.attrs)
    ensures RunLocal(t, KeyDrop(k, c.pk, d.pk, p.constraint) + KeyAdd(k, c.pk, d.pk)) ==
      if KeyTrap(c, d, p) then None else Some(t.(pk := FinalKey(c, d, p)))
  {
    var gone := GoneCols(c, d, p);
    GoneColsAre(c, d, p);
    TrapIs(c, d, p);
    if c.pk == d.pk {
      StripsNothing(gone, c.pk);
    } else if c.pk == [] {
      StripNothing(gone);
    }
    hide StripParts, GoneCols, KeyTrap, SchemaOk, PartsIn;
    KeyStmts(k, t, c.pk, d.pk, p.constraint);
  }

  lemma TrapIs(c: Schema, d: Schema, p: Policy)
    requires SchemaOk(c) && SchemaOk(d)
    ensures KeyTrap(c, d, p) <==>
      c.pk != [] && c.pk != d.pk && (d.pk != [] || p.constraint) && StripParts(GoneCols(c, d, p), c.pk) == []
  {
    var gone := GoneCols(c, d, p);
    GoneColsAre(c, d, p);
    StripsToNothing(gone, c.pk);
    hide GoneCols, SchemaOk, StripParts;
    if p.column {
      assert forall i :: 0 <= i < |c.pk| ==>
        (c.pk[i].column in gone <==> c.pk[i].column in c.cols.vals && c.pk[i].column !in d.cols.vals);
    } else if c.pk != [] {
      assert c.pk[0].column !in gone;
    }
  }

  lemma KeyStmts(k: string, t: Table, cur: seq<Part>, des: seq<Part>, allowed: bool)
    requires PartsIn(des, t.attrs) && (cur == [] ==> t.pk == []) && (cur == des ==> t.pk == des)
    ensures RunLocal(t, KeyDrop(k, cur, des, allowed) + KeyAdd(k, cur, des)) ==
      if cur != [] && cur != des && (des != [] || allowed) && t.pk == [] then None
      else Some(t.(pk := if des != [] || allowed then des else t.pk))
  {
    hide PartsIn;
    var a, b := KeyDrop(k, cur, des, allowed), KeyAdd(k, cur, des);
    RunLocalAppend(t, a, b);
    if b != [] { assert b == [AddPrimaryKey(k, des)] + []; RunCons(t.(pk := []), AddPrimaryKey(k, des), []); }
    if a != [] { assert a == [DropPrimaryKey(k)] + []; RunCons(t, DropPrimaryKey(k), []); }
    assert t.(pk := t.pk) == t;
  }

  /* ----- all of one table's statements ----- */

  function FinalAttrs(c: Schema, d: Schema, p: Policy): map<string, string> {
    if p.column then d.cols.vals else c.cols.vals + d.cols.vals
  }

  // The table after all of its statements.
  function FinalTable(t: Table, c: Schema, d: Schema, p: Policy): Table {
    var added := AddedCols(t.cols, c.cols.vals, d.cols, 0);
    Table(
      if p.column then WithoutAll(added, Gone<string, string>(c.cols.keys, d.cols.vals)) else added,
      FinalAttrs(c, d, p), FinalKey(c, d, p),
      FinalIndexes(c.indexes.vals, d.indexes.vals, p.index, GoneCols(c, d, p)), t.fks)
  }

  // The columns: adds, then drops.
  lemma ColumnsRun(k: string, t: Table, c: Schema, d: Schema, p: Policy)
    requires Shows(t, c) && ColsOk(t) && SchemaOk(c) && SchemaOk(d)
    ensures var gone, final := Gone<string, string>(c.cols.keys, d.cols.vals), FinalTable(t, c, d, p);
      var u := Table(final.cols, final.attrs, StripParts(GoneCols(c, d, p), c.pk),
        StripIndexes(GoneCols(c, d, p), c.indexes.vals), t.fks);
      RunLocal(t, ColumnAdds(k, c.cols.vals, d.cols, 0) + if p.column then ColumnDrops(k, gone) else []) == Some(u) &&
        ColsOk(u)
  {
    var gone := Gone<string, string>(c.cols.keys, d.cols.vals);
    var adds := ColumnAdds(k, c.cols.vals, d.cols, 0);
    var u := t.(cols := AddedCols(t.cols, c.cols.vals, d.cols, 0), attrs := c.cols.vals + d.cols.vals);
    NoFirstCols(c.cols.vals, d.cols);
    AddsRun(k, t, c.cols.vals, d.cols, 0);
    RunLocalAppend(t, adds, if p.column then ColumnDrops(k, gone) else []);
    if p.column {
      GoneIs(c.cols.keys, d.cols.vals);
      GoneColsAre(c, d, p);
      assert d.cols.keys[0] in Elems(d.cols.keys);
      DropsRun(k, u, gone, d.cols.keys[0]);
      AttrsAddUp(c.cols.vals, d.cols.vals, Elems(gone));
    } else {
      StripNone(c.pk);
      StripIndexesNone(c.indexes.vals);
      assert adds + [] == adds;
    }
  }

  lemma NoFirstCols(cur: map<string, string>, des: OMap<string>)
    ensures cur + FirstCols(des, 0) == cur
  {
  }

  lemma AttrsAddUp(cur: map<string, string>, des: map<string, string>, gone: set<string>)
    requires forall x :: x in gone <==> x in cur && x !in des
    ensures (cur + des) - gone == des
  {
  }

  lemma FinalParts(t: Table, c: Schema, d: Schema, p: Policy)
    requires SchemaOk(c) && SchemaOk(d)
    ensures PartsIn(d.pk, FinalAttrs(c, d, p))
    ensures forall n :: n in d.indexes.vals ==>
      d.indexes.vals[n].parts != [] && PartsIn(d.indexes.vals[n].parts, FinalAttrs(c, d, p))
    ensures HasParts(c.indexes.vals)
    ensures forall n, i :: n in d.indexes.vals && 0 <= i < |d.indexes.vals[n].parts| ==>
      d.indexes.vals[n].parts[i].column !in GoneCols(c, d, p)
  {
    GoneColsAre(c, d, p);
    hide GoneCols;
  }

  lemma IndexesRun(k: string, t: Table, c: Schema, d: Schema, p: Policy)
    requires SchemaOk(c) && SchemaOk(d)
    requires t.indexes == StripIndexes(GoneCols(c, d, p), c.indexes.vals) && t.attrs == FinalAttrs(c, d, p)
    ensures var gone := GoneCols(c, d, p);
      RunLocal(t, IndexDrops(k, c.indexes, d.indexes, p.index, gone, 0) +
        IndexCreates(k, c.indexes.vals, d.indexes, 0)) ==
        Some(t.(indexes := FinalIndexes(c.indexes.vals, d.indexes.vals, p.index, gone)))
  {
    var gone := GoneCols(c, d, p);
    FinalParts(t, c, d, p);
    GoneColsAre(c, d, p);
    NothingYet(c.indexes, d.indexes, p.index, gone);
    IndexesAddUp(c.indexes, d.indexes, p.index, gone);
    hide GoneCols, StripIndexes, DropsUpTo, CreatedUpTo, FinalIndexes, HasParts, FinalAttrs;
    IndexDropsRun(k, t, c.indexes, d.indexes, p.index, gone, 0);
    var base := StripIndexes(gone, c.indexes.vals) -
      DropsUpTo(c.indexes, d.indexes.vals, p.index, gone, |c.indexes.keys|);
    NoCreates(base, c.indexes.vals, d.indexes);
    IndexCreatesRun(k, t.(indexes := base), base, c.indexes.vals, d.indexes, 0);
    RunLocalAppend(t, IndexDrops(k, c.indexes, d.indexes, p.index, gone, 0),
      IndexCreates(k, c.indexes.vals, d.indexes, 0));
  }

  lemma NothingYet(cur: OMap<Index>, des: OMap<Index>, allowed: bool, gone: set<string>)
    ensures StripIndexes(gone, cur.vals) - DropsUpTo(cur, des.vals, allowed, gone, 0) == StripIndexes(gone, cur.vals)
  {
  }

  lemma NoCreates(base: map<string, Index>, cur: map<string, Index>, des: OMap<Index>)
    ensures base + CreatedUpTo(cur, des, 0) == base
  {
  }

  // The three groups of statements, and the table between them.
  ghost predicate ThreeGroups(t: Table, ss: seq<Stmt>, s1: seq<Stmt>, s2: seq<Stmt>, s3: seq<Stmt>, u: Table,
    v: Option<Table>, w: Table) {
    ss == s1 + (s2 + s3) && RunLocal(t, s1) == Some(u) && RunLocal(u, s2) == v &&
    (v.Some? ==> RunLocal(v.value, s3) == Some(w))
  }

  lemma ThreeGroupsRun(t: Table, ss: seq<Stmt>, s1: seq<Stmt>, s2: seq<Stmt>, s3: seq<Stmt>, u: Table,
    v: Option<Table>, w: Table)
    requires ThreeGroups(t, ss, s1, s2, s3, u, v, w)
    ensures RunLocal(t, ss) == if v.None? then None else Some(w)
  {
    hide RunLocal;
    RunLocalAppend(t, s1, s2 + s3);
    RunLocalAppend(u, s2, s3);
  }

  lemma LocalStmtsAre(k: string, c: Schema, d: Schema, p: Policy)
    ensures var gone := Gone<string, string>(c.cols.keys, d.cols.vals);
      LocalStmts(k, c, d, p) ==
        (ColumnAdds(k, c.cols.vals, d.cols, 0) + (if p.column then ColumnDrops(k, gone) else []))
        + ((KeyDrop(k, c.pk, d.pk, p.constraint) + KeyAdd(k, c.pk, d.pk))
           + (IndexDrops(k, c.indexes, d.indexes, p.index, GoneCols(c, d, p), 0) +
             IndexCreates(k, c.indexes.vals, d.indexes, 0)))
  {
    hide Gone, ColumnAdds, KeyDrop, KeyAdd, IndexDrops, IndexCreates, ColumnDrops, Elems;
  }

  // The statements of one table run, unless its key is trapped, and leave FinalTable.
  lemma LocalRuns(k: string, t: Table, c: Schema, d: Schema, p: Policy)
    requires Shows(t, c) && ColsOk(t) && SchemaOk(c) && SchemaOk(d)
    ensures RunLocal(t, LocalStmts(k, c, d, p)) == if KeyTrap(c, d, p) then None else Some(FinalTable(t, c, d, p))
    ensures ColsOk(FinalTable(t, c, d, p))
  {
    hide *;
    LocalStmtsAre(k, c, d, p);
    ColumnsRun(k, t, c, d, p);
    FinalParts(t, c, d, p);
    var gone, final := Gone<string, string>(c.cols.keys, d.cols.vals), FinalTable(t, c, d, p);
    var u := Table(final.cols, final.attrs, StripParts(GoneCols(c, d, p), c.pk),
      StripIndexes(GoneCols(c, d, p), c.indexes.vals), t.fks);
    var v := u.(pk := FinalKey(c, d, p));
    FinalFields(t, c, d, p);
    SameCols(u, final);
    KeyRuns(k, u, c, d, p);
    IndexesRun(k, v, c, d, p);
    var s1 := ColumnAdds(k, c.cols.vals, d.cols, 0) + if p.column then ColumnDrops(k, gone) else [];
    var s2 := KeyDrop(k, c.pk, d.pk, p.constraint) + KeyAdd(k, c.pk, d.pk);
    var s3 := IndexDrops(k, c.indexes, d.indexes, p.index, GoneCols(c, d, p), 0) +
      IndexCreates(k, c.indexes.vals, d.indexes, 0);
    var mid := if KeyTrap(c, d, p) then None else Some(v);
    GroupsAre(t, LocalStmts(k, c, d, p), s1, s2, s3, u, mid, final);
    ThreeGroupsRun(t, LocalStmts(k, c, d, p), s1, s2, s3, u, mid, final);
  }

  lemma GroupsAre(t: Table, ss: seq<Stmt>, s1: seq<Stmt>, s2: seq<Stmt>, s3: seq<Stmt>, u: Table,
    v: Option<Table>, w: Table)
    requires ss == s1 + (s2 + s3) && RunLocal(t, s1) == Some(u) && RunLocal(u, s2) == v &&
      (v.Some? ==> RunLocal(v.value, s3) == Some(w))
    ensures ThreeGroups(t, ss, s1, s2, s3, u, v, w)
  {
  }

  lemma FinalFields(t: Table, c: Schema, d: Schema, p: Policy)
    ensures var f := FinalTable(t, c, d, p);
      f.attrs == FinalAttrs(c, d, p) && f.pk == FinalKey(c, d, p) && f.fks == t.fks &&
      f.indexes == FinalIndexes(c.indexes.vals, d.indexes.vals, p.index, GoneCols(c, d, p))
  {
  }

  lemma SameCols(t: Table, u: Table)
    requires ColsOk(t) && t.cols == u.cols && t.attrs == u.attrs
    ensures ColsOk(u)
  {
  }
}
