/** Running the statements of one bucket on the whole database. */
module SchemaStages {
  import opened Common
  import opened SortedNames
  import opened SchemaModel
  import opened SchemaSpec
  import opened SchemaLocal
  import opened SchemaLegal
  import opened SchemaRename
  import opened SchemaRenamed

  lemma SuffixStep(s: seq<string>, i: nat)
    requires Distinct(s) && i < |s|
    ensures Elems(s[i..]) == {s[i]} + Elems(s[i + 1..]) && s[i] !in Elems(s[i + 1..])
  {
    assert s[i..] == [s[i]] + s[i + 1..];
  }

  lemma NoSuffix(s: seq<string>)
    ensures Elems(s[|s|..]) == {} && Elems(s[..0]) == {} && s[0..] == s && s[..|s|] == s
  {
  }

  lemma RunTwo(db: DB, a: seq<Stmt>, b: seq<Stmt>, d: DB)
    requires Run(db, a) == Some(d)
    ensures Run(db, a + b) == Run(d, b)
  {
    hide Run;
    RunAppend(db, a, b);
  }

  lemma Overwrite(db: DB, k: string, t: Table, u: Table)
    ensures db[k := t][k := u] == db[k := u]
  {
  }

  lemma SameTable(db: DB, k: string, t: Table)
    requires k in db && t == db[k]
    ensures db[k := t] == db
  {
  }

  /* ----- statements on one table ----- */

  // Statements on table k only, dropping none but the named columns.
  ghost predicate LocalOn(ss: seq<Stmt>, k: string, drops: set<string>) {
    forall i :: 0 <= i < |ss| ==> IsLocal(ss[i]) && ss[i].table == k && (ss[i].DropColumn? ==> ss[i].name in drops)
  }

  lemma InUseIsForeignKeys(db: DB, k: string, t: Table, c: string)
    requires k in db && t.fks == db[k].fks
    ensures ColumnInUse(db[k := t], k, c) <==> ColumnInUse(db, k, c)
  {
    var e := db[k := t];
    assert e.Keys == db.Keys;
    assert forall t :: t in db ==> e[t].fks == db[t].fks;
  }

  lemma LocalExecIs(db: DB, s: Stmt)
    requires IsLocal(s) && s.table in db && (s.DropColumn? ==> !ColumnInUse(db, s.table, s.name))
    ensures Exec(db, s) == match ExecLocal(db[s.table], s) case None => None case Some(t) => Some(db[s.table := t])
  {
    hide ExecLocal, ColumnInUse;
  }

  // They run on the database as they run on the table.
  lemma {:induction false} Lift(db: DB, k: string, ss: seq<Stmt>, drops: set<string>)
    requires k in db && LocalOn(ss, k, drops) && forall c :: c in drops ==> !ColumnInUse(db, k, c)
    ensures Run(db, ss) == match RunLocal(db[k], ss) case None => None case Some(t) => Some(db[k := t])
    ensures RunLocal(db[k], ss).Some? ==> RunLocal(db[k], ss).value.fks == db[k].fks
    decreases |ss|
  {
    hide Exec, ExecLocal, ColumnInUse;
    if ss == [] {
      assert db[k := db[k]] == db;
    } else {
      LocalExecIs(db, ss[0]);
      var r := ExecLocal(db[k], ss[0]);
      if r.Some? {
        LocalIsGentle(db[k], ss[0]);
        var e := db[k := r.value];
        forall c | c in drops ensures !ColumnInUse(e, k, c) { InUseIsForeignKeys(db, k, r.value, c); }
        assert forall i :: 0 <= i < |ss[1..]| ==> ss[1..][i] == ss[i + 1];
        Lift(e, k, ss[1..], drops);
        var u := RunLocal(r.value, ss[1..]);
        if u.Some? { Overwrite(db, k, r.value, u.value); }
      }
    }
  }

  lemma {:induction false} AddsAreLocal(k: string, cur: map<string, string>, des: OMap<string>, i: nat,
    drops: set<string>)
    requires i <= |des.keys|
    ensures LocalOn(ColumnAdds(k, cur, des, i), k, drops)
    decreases |des.keys| - i
  {
    if i < |des.keys| { AddsAreLocal(k, cur, des, i + 1, drops); }
  }

  lemma {:induction false} IndexDropsAreLocal(
    k: string, cur: OMap<Index>, des: OMap<Index>, allowed: bool, dropped: set<string>, i: nat, drops: set<string>)
    requires i <= |cur.keys|
    ensures LocalOn(IndexDrops(k, cur, des, allowed, dropped, i), k, drops)
    decreases |cur.keys| - i
  {
    if i < |cur.keys| { IndexDropsAreLocal(k, cur, des, allowed, dropped, i + 1, drops); }
  }

  lemma {:induction false} IndexCreatesAreLocal(
    k: string, cur: map<string, Index>, des: OMap<Index>, i: nat, drops: set<string>)
    requires i <= |des.keys|
    ensures LocalOn(IndexCreates(k, cur, des, i), k, drops)
    decreases |des.keys| - i
  {
    if i < |des.keys| { IndexCreatesAreLocal(k, cur, des, i + 1, drops); }
  }

  lemma ColumnDropsAreLocal(k: string, gone: seq<string>)
    ensures LocalOn(ColumnDrops(k, gone), k, Elems(gone))
  {
  }

  lemma LocalStmtsAreLocal(k: string, c: Schema, d: Schema, p: Policy)
    ensures LocalOn(LocalStmts(k, c, d, p), k, GoneCols(c, d, p))
  {
    var drops, gone := GoneCols(c, d, p), Gone<string, string>(c.cols.keys, d.cols.vals);
    AddsAreLocal(k, c.cols.vals, d.cols, 0, drops);
    ColumnDropsAreLocal(k, gone);
    IndexDropsAreLocal(k, c.indexes, d.indexes, p.index, if p.column then Elems(gone) else {}, 0, drops);
    IndexCreatesAreLocal(k, c.indexes.vals, d.indexes, 0, drops);
    hide ColumnAdds, IndexDrops, IndexCreates, ColumnDrops, Gone, Elems;
  }

  /* ----- the foreign keys of one table ----- */

  // A statement drops the foreign key: it is not desired as it stands, and either comes back changed or may go.
  predicate Goes(cur: map<string, ForeignKey>, des: map<string, ForeignKey>, allowed: bool, n: string) {
    !SameForeignKey(cur, des, n) && (n in des || allowed)
  }

  function DroppedKeys(cur: OMap<ForeignKey>, des: map<string, ForeignKey>, allowed: bool, i: nat): set<string>
    requires i <= |cur.keys|
  {
    set n | n in Elems(cur.keys[i..]) && Goes(cur.vals, des, allowed, n)
  }

  lemma DroppedKeysStep(cur: OMap<ForeignKey>, des: map<string, ForeignKey>, allowed: bool, i: nat)
    requires Distinct(cur.keys) && i < |cur.keys|
    ensures var n, rest := cur.keys[i], DroppedKeys(cur, des, allowed, i + 1);
      n !in rest && DroppedKeys(cur, des, allowed, i) == if Goes(cur.vals, des, allowed, n) then {n} + rest else rest
  {
    SuffixStep(cur.keys, i);
    hide Goes, Distinct, Elems;
  }

  lemma DropForeignKeyRuns(db: DB, k: string, n: string)
    requires k in db && n in db[k].fks
    ensures Exec(db, DropForeignKey(k, n)) == Some(db[k := db[k].(fks := db[k].fks - {n})])
  {
  }

  lemma ForeignKeyDropsUnfold(k: string, cur: OMap<ForeignKey>, des: map<string, ForeignKey>, allowed: bool, i: nat)
    requires i <= |cur.keys|
    ensures ForeignKeyDrops(k, cur, des, allowed, i) ==
      if i == |cur.keys| then []
      else if Goes(cur.vals, des, allowed, cur.keys[i]) then
        [DropForeignKey(k, cur.keys[i])] + ForeignKeyDrops(k, cur, des, allowed, i + 1)
      else ForeignKeyDrops(k, cur, des, allowed, i + 1)
  {
  }

  lemma {:induction false} ForeignKeyDropsRun(
    db: DB, k: string, cur: OMap<ForeignKey>, des: map<string, ForeignKey>, allowed: bool, i: nat)
    requires k in db && Distinct(cur.keys) && i <= |cur.keys| && DroppedKeys(cur, des, allowed, i) <= db[k].fks.Keys
    ensures Run(db, ForeignKeyDrops(k, cur, des, allowed, i)) ==
      Some(db[k := db[k].(fks := db[k].fks - DroppedKeys(cur, des, allowed, i))])
    decreases |cur.keys| - i
  {
    hide *;
    ForeignKeyDropsUnfold(k, cur, des, allowed, i);
    if i == |cur.keys| {
      NoneDropped(cur, des, allowed);
      RunNothing(db);
      assert db[k].fks - {} == db[k].fks;
      SameTable(db, k, db[k].(fks := db[k].fks - {}));
    } else {
      DroppedKeysStep(cur, des, allowed, i);
      var n, rest := cur.keys[i], DroppedKeys(cur, des, allowed, i + 1);
      if Goes(cur.vals, des, allowed, n) {
        DropForeignKeyRuns(db, k, n);
        var e := db[k := db[k].(fks := db[k].fks - {n})];
        ForeignKeyDropsRun(e, k, cur, des, allowed, i + 1);
        RunStep(db, DropForeignKey(k, n), ForeignKeyDrops(k, cur, des, allowed, i + 1));
        assert (db[k].fks - {n}) - rest == db[k].fks - ({n} + rest);
        Overwrite(db, k, e[k], e[k].(fks := e[k].fks - rest));
      } else {
        ForeignKeyDropsRun(db, k, cur, des, allowed, i + 1);
      }
    }
  }

  lemma RunNothing(db: DB)
    ensures Run(db, []) == Some(db)
  {
  }

  lemma NoneDropped(cur: OMap<ForeignKey>, des: map<string, ForeignKey>, allowed: bool)
    ensures DroppedKeys(cur, des, allowed, |cur.keys|) == {}
  {
  }

  lemma AllDropsAre(k: string, cur: OMap<ForeignKey>, i: nat)
    requires i <= |cur.keys|
    ensures ForeignKeyDrops(k, cur, map[], true, i) == AllForeignKeyDrops(k, cur.keys[i..])
    decreases |cur.keys| - i
  {
    if i < |cur.keys| {
      AllDropsAre(k, cur, i + 1);
      assert cur.keys[i..] == [cur.keys[i]] + cur.keys[i + 1..];
    }
  }

  // A database to which the missing foreign keys of a well-formed desired one can be added. `taken` holds
  // the names of the foreign keys that desired does not have.
  ghost predicate Receives(db: DB, des: map<string, Schema>, taken: set<string>) {
    (forall k :: k in des ==> k in db && des[k].cols.vals.Keys <= db[k].attrs.Keys) &&
    forall t, n :: t in db && n in db[t].fks ==> n in taken || (t in des && n in des[t].fks.vals)
  }

  lemma KeyFits(db: DB, des: map<string, Schema>, taken: set<string>, k: string, n: string)
    requires Receives(db, des, taken) && DBOk(AsDB(des)) && k in des && n in des[k].fks.vals
    ensures k in db && ForeignKeyOk(db, db[k], des[k].fks.vals[n])
  {
    Parts(AsDB(des));
    var d, fk := AsDB(des), des[k].fks.vals[n];
    assert d[k].fks[n] == fk && d[k].attrs == des[k].cols.vals;
    assert ForeignKeyOk(d, d[k], fk);
    assert d[fk.refTable].attrs == des[fk.refTable].cols.vals;
    hide AsTable, DBOk, TablesOk, TableOk, AsDB;
    StillOk(d, k, fk, db, k, fk);
  }

  lemma NameIsFree(db: DB, des: map<string, Schema>, taken: set<string>, k: string, n: string)
    requires Receives(db, des, taken) && DBOk(AsDB(des)) && k in des && n in des[k].fks.vals
    requires k in db && n !in db[k].fks && n !in taken
    ensures forall t :: t in db ==> n !in db[t].fks
  {
    Parts(AsDB(des));
    hide TablesOk, ForeignKeysOk, DBOk;
    OwnKeys(des, k, n);
    forall t | t in db ensures n !in db[t].fks {
      if n in db[t].fks { OwnKeys(des, t, n); }
    }
  }

  lemma StillReceives(db: DB, des: map<string, Schema>, taken: set<string>, k: string, n: string, fk: ForeignKey)
    requires Receives(db, des, taken) && k in des && k in db && n in des[k].fks.vals
    ensures Receives(db[k := db[k].(fks := db[k].fks[n := fk])], des, taken)
  {
  }

  lemma AddForeignKeyRuns(db: DB, des: map<string, Schema>, taken: set<string>, k: string, n: string)
    requires Receives(db, des, taken) && DBOk(AsDB(des)) && k in des && n in des[k].fks.vals
    requires k in db && n !in db[k].fks && n !in taken
    ensures var e := db[k := db[k].(fks := db[k].fks[n := des[k].fks.vals[n]])];
      Exec(db, AddForeignKey(k, n, des[k].fks.vals[n])) == Some(e) && Receives(e, des, taken)
  {
    hide *;
    KeyFits(db, des, taken, k, n);
    NameIsFree(db, des, taken, k, n);
    AddForeignKeyIs(db, k, n, des[k].fks.vals[n]);
    StillReceives(db, des, taken, k, n, des[k].fks.vals[n]);
  }

  lemma OwnKeys(des: map<string, Schema>, t: string, n: string)
    requires t in des && n in des[t].fks.vals
    ensures t in AsDB(des) && n in AsDB(des)[t].fks
  {
  }

  lemma AddForeignKeyIs(db: DB, k: string, n: string, fk: ForeignKey)
    requires k in db && ForeignKeyOk(db, db[k], fk) && forall t :: t in db ==> n !in db[t].fks
    ensures Exec(db, AddForeignKey(k, n, fk)) == Some(db[k := db[k].(fks := db[k].fks[n := fk])])
  {
    hide ForeignKeyOk;
  }

  function AddedKeys(cur: map<string, ForeignKey>, des: OMap<ForeignKey>, i: nat): map<string, ForeignKey>
    requires i <= |des.keys|
  {
    map n | n in Elems(des.keys[i..]) && n in des.vals && !SameForeignKey(cur, des.vals, n) :: des.vals[n]
  }

  lemma AddedKeysAre(cur: map<string, ForeignKey>, des: OMap<ForeignKey>, i: nat, x: string)
    requires i <= |des.keys|
    ensures x in AddedKeys(cur, des, i) <==>
      x in Elems(des.keys[i..]) && x in des.vals && !SameForeignKey(cur, des.vals, x)
    ensures x in AddedKeys(cur, des, i) ==> AddedKeys(cur, des, i)[x] == des.vals[x]
  {
    hide SameForeignKey;
  }

  lemma AddedKeysStep(cur: map<string, ForeignKey>, des: OMap<ForeignKey>, i: nat)
    requires des.Ok() && i < |des.keys|
    ensures var n, rest := des.keys[i], AddedKeys(cur, des, i + 1);
      n in des.vals && n !in rest &&
      AddedKeys(cur, des, i) == if SameForeignKey(cur, des.vals, n) then rest else rest[n := des.vals[n]]
  {
    SuffixStep(des.keys, i);
    assert des.keys[i] in Elems(des.keys);
    hide SameForeignKey, AddedKeys, Distinct, Elems;
    var n, rest := des.keys[i], AddedKeys(cur, des, i + 1);
    forall x ensures x in rest <==>
      x in Elems(des.keys[i + 1..]) && x in des.vals && !SameForeignKey(cur, des.vals, x) {
      AddedKeysAre(cur, des, i + 1, x);
    }
    var r := if SameForeignKey(cur, des.vals, n) then rest else rest[n := des.vals[n]];
    forall x ensures (x in AddedKeys(cur, des, i) <==> x in r) && (x in r ==> AddedKeys(cur, des, i)[x] == r[x]) {
      AddedKeysAre(cur, des, i, x);
      AddedKeysAre(cur, des, i + 1, x);
    }
    MapsAgree(AddedKeys(cur, des, i), r);
  }

  lemma NoneAdded(cur: map<string, ForeignKey>, des: OMap<ForeignKey>)
    ensures AddedKeys(cur, des, |des.keys|) == map[]
  {
  }

  lemma ForeignKeyAddsUnfold(k: string, cur: map<string, ForeignKey>, des: OMap<ForeignKey>, i: nat)
    requires des.Ok() && i <= |des.keys|
    ensures i < |des.keys| ==> des.keys[i] in des.vals
    ensures ForeignKeyAdds(k, cur, des, i) ==
      if i == |des.keys| then []
      else if SameForeignKey(cur, des.vals, des.keys[i]) then ForeignKeyAdds(k, cur, des, i + 1)
      else [AddForeignKey(k, des.keys[i], des.vals[des.keys[i]])] + ForeignKeyAdds(k, cur, des, i + 1)
  {
    if i < |des.keys| { assert des.keys[i] in Elems(des.keys); }
    hide SameForeignKey;
  }

  // Every ADD CONSTRAINT finds its tables and columns, and a free name unless it is taken.
  lemma {:induction false} ForeignKeyAddsRun(
    db: DB, des: map<string, Schema>, taken: set<string>, k: string, cur: map<string, ForeignKey>, i: nat)
    requires Receives(db, des, taken) && DBOk(AsDB(des)) && k in des && k in db
    requires des[k].fks.Ok() && i <= |des[k].fks.keys|
    requires AddedKeys(cur, des[k].fks, i).Keys !! db[k].fks.Keys
    requires AddedKeys(cur, des[k].fks, i).Keys !! taken
    ensures var e := db[k := db[k].(fks := db[k].fks + AddedKeys(cur, des[k].fks, i))];
      Run(db, ForeignKeyAdds(k, cur, des[k].fks, i)) == Some(e) && Receives(e, des, taken)
    decreases |des[k].fks.keys| - i
  {
    hide *;
    var fks := des[k].fks;
    ForeignKeyAddsUnfold(k, cur, fks, i);
    if i == |fks.keys| {
      NoneAdded(cur, fks);
      RunNothing(db);
      assert db[k].fks + map[] == db[k].fks;
      SameTable(db, k, db[k].(fks := db[k].fks + map[]));
    } else {
      AddedKeysStep(cur, fks, i);
      var n, rest := fks.keys[i], AddedKeys(cur, fks, i + 1);
      if SameForeignKey(cur, fks.vals, n) {
        ForeignKeyAddsRun(db, des, taken, k, cur, i + 1);
      } else {
        assert n in AddedKeys(cur, fks, i);
        AddForeignKeyRuns(db, des, taken, k, n);
        var e := db[k := db[k].(fks := db[k].fks[n := fks.vals[n]])];
        ForeignKeyAddsRun(e, des, taken, k, cur, i + 1);
        RunStep(db, AddForeignKey(k, n, fks.vals[n]), ForeignKeyAdds(k, cur, fks, i + 1));
        PutMerge(db[k].fks, n, fks.vals[n], rest);
        Overwrite(db, k, e[k], e[k].(fks := e[k].fks + rest));
      }
    }
  }

  /* ----- statements MySQL refuses ----- */

  lemma LocalKeepsKeys(db: DB, s: Stmt)
    requires IsLocal(s) && Exec(db, s).Some?
    ensures s.table in db && Exec(db, s).value.Keys == db.Keys
    ensures forall t :: t in db ==> Exec(db, s).value[t].fks == db[t].fks
  {
    var r := ExecLocal(db[s.table], s);
    LocalIsGentle(db[s.table], s);
    hide ExecLocal, ColumnInUse;
  }

  lemma SameKeysSameUse(db: DB, e: DB, k: string, c: string)
    requires e.Keys == db.Keys && forall t :: t in db ==> e[t].fks == db[t].fks
    ensures ColumnInUse(e, k, c) <==> ColumnInUse(db, k, c)
  {
  }

  lemma DropInUseIsRefused(db: DB, k: string, c: string)
    requires ColumnInUse(db, k, c)
    ensures Exec(db, DropColumn(k, c)) == None
  {
    hide ColumnInUse;
  }

  // A script on one table that drops a column in use does not run to its end.
  lemma {:induction false} BlockedByColumn(db: DB, k: string, ss: seq<Stmt>, drops: set<string>, i: nat)
    requires LocalOn(ss, k, drops) && i < |ss| && ss[i].DropColumn? && ColumnInUse(db, k, ss[i].name)
    ensures Run(db, ss) == None
    decreases i
  {
    hide Exec, ColumnInUse;
    if i == 0 {
      DropInUseIsRefused(db, k, ss[0].name);
    } else if Exec(db, ss[0]).Some? {
      var e := Exec(db, ss[0]).value;
      LocalKeepsKeys(db, ss[0]);
      SameKeysSameUse(db, e, k, ss[i].name);
      assert forall j :: 0 <= j < |ss[1..]| ==> ss[1..][j] == ss[j + 1];
      BlockedByColumn(e, k, ss[1..], drops, i - 1);
    }
  }

  // A script of ADD CONSTRAINTs that uses a taken name does not run to its end.
  lemma {:induction false} BlockedByName(db: DB, ss: seq<Stmt>, i: nat, t: string)
    requires (forall j :: 0 <= j < |ss| ==> ss[j].AddForeignKey?) && i < |ss| && t in db && ss[i].name in db[t].fks
    ensures Run(db, ss) == None
    decreases i
  {
    hide Exec;
    var s := ss[0];
    if Exec(db, s).Some? {
      AddForeignKeyDoes(db, s.table, s.name, s.fk);
      assert i != 0;
      assert forall j :: 0 <= j < |ss[1..]| ==> ss[1..][j] == ss[j + 1];
      BlockedByName(Exec(db, s).value, ss[1..], i - 1, t);
    }
  }

  lemma PutMerge<V>(a: map<string, V>, n: string, v: V, b: map<string, V>)
    requires n !in b
    ensures a[n := v] + b == a + b[n := v]
  {
  }
}
