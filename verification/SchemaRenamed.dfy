/** After its RENAME statements the database shows exactly the schema the planner goes on with. */
module SchemaRenamed {
  import opened Common
  import opened SortedNames
  import opened SchemaModel
  import opened SchemaSpec
  import opened SchemaLocal
  import opened SchemaLegal
  import opened SchemaRename

  /* ----- a schema as a database ----- */

  function AsTable(s: Schema): Table {
    Table(s.cols.keys, s.cols.vals, s.pk, s.indexes.vals, s.fks.vals)
  }

  function AsDB(m: map<string, Schema>): DB {
    map k | k in m :: AsTable(m[k])
  }

  ghost predicate SchemasOk(m: map<string, Schema>) {
    forall k :: k in m ==> SchemaOk(m[k])
  }

  // What MySQL guarantees of the schemas it holds, and what a desired file must be to be loaded.
  ghost predicate WellFormed(m: map<string, Schema>) {
    SchemasOk(m) && DBOk(AsDB(m))
  }

  /* ----- table renames ----- */

  lemma RenameTableIs(db: DB, o: string, n: string)
    requires o in db && n !in db
    ensures Exec(db, RenameTable(o, n)) == Some(
      map t | t in db.Keys - {o} + {n} :: Retarget(o, n, db[if t == n then o else t]))
  {
    hide Retarget;
  }

  // One step of the planner's loop.
  function Moved(m: OMap<Schema>, o: string, n: string): OMap<Schema>
    requires o in m.vals
  {
    RetargetAll(o, n, m.Delete(o).Set(n, m.vals[o]))
  }

  lemma RetargetIs(o: string, n: string, s: Schema)
    ensures AsTable(RetargetSchema(o, n, s)) == Retarget(o, n, AsTable(s))
  {
  }

  lemma MovedAt(m: OMap<Schema>, o: string, n: string, t: string)
    requires o in m.vals && n !in m.vals && t in m.vals.Keys - {o} + {n}
    ensures t in Moved(m, o, n).vals && AsTable(Moved(m, o, n).vals[t]) ==
      Retarget(o, n, AsTable(m.vals[if t == n then o else t]))
  {
    RetargetIs(o, n, m.vals[if t == n then o else t]);
    hide RetargetSchema, Retarget, AsTable;
  }

  lemma MovedKeys(m: OMap<Schema>, o: string, n: string)
    requires o in m.vals && n !in m.vals
    ensures Moved(m, o, n).vals.Keys == m.vals.Keys - {o} + {n}
  {
    hide RetargetSchema;
  }

  lemma MovedRuns(m: OMap<Schema>, o: string, n: string)
    requires o in m.vals && n !in m.vals
    ensures Exec(AsDB(m.vals), RenameTable(o, n)) == Some(AsDB(Moved(m, o, n).vals))
  {
    var db, e := AsDB(m.vals), AsDB(Moved(m, o, n).vals);
    RenameTableIs(db, o, n);
    MovedKeys(m, o, n);
    hide Exec, Moved, Retarget, AsTable;
    var r := map t | t in db.Keys - {o} + {n} :: Retarget(o, n, db[if t == n then o else t]);
    assert Exec(db, RenameTable(o, n)) == Some(r);
    forall t ensures (t in e <==> t in r) && (t in r ==> e[t] == r[t]) {
      if t in r { MovedAt(m, o, n, t); }
    }
    MapsAgree(e, r);
  }

  lemma RetargetSchemaOk(o: string, n: string, s: Schema)
    requires SchemaOk(s)
    ensures SchemaOk(RetargetSchema(o, n, s))
  {
  }

  lemma MovedOk(m: OMap<Schema>, o: string, n: string)
    requires m.Ok() && SchemasOk(m.vals) && o in m.vals && n !in m.vals
    ensures Moved(m, o, n).Ok() && SchemasOk(Moved(m, o, n).vals)
  {
    MoveKeyOk(m, o, n, m.vals[o]);
    hide SchemaOk, RetargetSchema, Distinct, Elems, Without;
    forall s | SchemaOk(s) ensures SchemaOk(RetargetSchema(o, n, s)) { RetargetSchemaOk(o, n, s); }
  }

  lemma {:induction false} TableRenamesRun(m: OMap<Schema>, ps: seq<Pair>)
    requires m.Ok() && SchemasOk(m.vals) && Pairing(m.vals.Keys, ps)
    ensures RenameTables(m, ps).Ok() && SchemasOk(RenameTables(m, ps).vals)
    ensures Run(AsDB(m.vals), TableRenames(ps)) == Some(AsDB(RenameTables(m, ps).vals))
    decreases |ps|
  {
    hide Exec, SchemasOk, AsDB, Moved, Distinct, Elems, OMap<Schema>.Ok;
    if ps != [] {
      var q, rest := ps[0], ps[1..];
      MovedRuns(m, q.o, q.n);
      MovedOk(m, q.o, q.n);
      MovedKeys(m, q.o, q.n);
      PairingRest(m.vals.Keys, ps);
      TableRenamesRun(Moved(m, q.o, q.n), rest);
      RenameTablesStep(m, ps);
      RunStep(AsDB(m.vals), RenameTable(q.o, q.n), TableRenames(rest));
      TableRenamesCons(ps);
    }
  }

  lemma RenameTablesStep(m: OMap<Schema>, ps: seq<Pair>)
    requires ps != [] && ps[0].o in m.vals
    ensures RenameTables(m, ps) == RenameTables(Moved(m, ps[0].o, ps[0].n), ps[1..])
  {
  }

  lemma TableRenamesCons(ps: seq<Pair>)
    requires ps != []
    ensures TableRenames(ps) == [RenameTable(ps[0].o, ps[0].n)] + TableRenames(ps[1..])
  {
  }

  // A script that runs leaves a well-formed database.
  lemma RunKeepsDBOk(db: DB, ss: seq<Stmt>)
    requires DBOk(db) && Run(db, ss).Some?
    ensures DBOk(Run(db, ss).value)
  {
    hide DBOk, Run;
    EveryPrefixIsLegal(db, ss, |ss|);
    assert ss[..|ss|] == ss;
  }

  /* ----- column renames: the database's names are the planner's ----- */

  // The accepted column renames of one table.
  ghost predicate ColumnsPaired(c: Schema, d: Desired, ps: seq<Pair>) {
    RenamePairs(c.cols.vals.Keys, d.schema.cols.keys, d.colFrom) == Result.Ok(ps)
  }

  lemma ColumnIs(c: Schema, d: Desired, ps: seq<Pair>, x: string)
    requires ColumnsPaired(c, d, ps) && Distinct(d.schema.cols.keys) && (x in c.cols.vals || x == "")
    ensures RenAll(ps, x) == Sub(ColumnMap(d), x)
  {
    hide RenAll, Sub, RenamePairs, RenameMap, Distinct;
    var names, keys, from := c.cols.vals.Keys, d.schema.cols.keys, d.colFrom;
    assert RenamePairs(names, keys, from).Ok? && RenamePairs(names, keys, from).value == ps;
    if x == "" { NoNameStays(names, keys, from); } else { RenAllIsSub(names, keys, from, x); }
  }

  lemma NamesAre(c: Schema, d: Desired, ps: seq<Pair>, s: seq<string>)
    requires ColumnsPaired(c, d, ps) && Distinct(d.schema.cols.keys) && NamesIn(s, c.cols.vals)
    ensures RenAllNames(ps, s) == SubNames(ColumnMap(d), s)
  {
    hide RenAll, Sub, ColumnsPaired, Distinct, ColumnMap;
    forall i | 0 <= i < |s| ensures RenAll(ps, s[i]) == Sub(ColumnMap(d), s[i]) { ColumnIs(c, d, ps, s[i]); }
  }

  lemma PartsAre(c: Schema, d: Desired, ps: seq<Pair>, s: seq<Part>)
    requires ColumnsPaired(c, d, ps) && Distinct(d.schema.cols.keys) && PartsIn(s, c.cols.vals)
    ensures RenAllParts(ps, s) == SubParts(ColumnMap(d), s)
  {
    hide RenAll, Sub, ColumnsPaired, Distinct, ColumnMap;
    forall i | 0 <= i < |s| ensures RenAll(ps, s[i].column) == Sub(ColumnMap(d), s[i].column) {
      ColumnIs(c, d, ps, s[i].column);
    }
  }

  lemma IndexesAre(c: Schema, d: Desired, ps: seq<Pair>)
    requires ColumnsPaired(c, d, ps) && Distinct(d.schema.cols.keys) && SchemaOk(c)
    ensures RenAllIndexes(ps, c.indexes.vals) == SubIndexes(ColumnMap(d), c.indexes).vals
  {
    hide RenAllParts, SubParts, ColumnsPaired, Distinct, ColumnMap, PartsIn;
    forall n | n in c.indexes.vals
      ensures RenAllParts(ps, c.indexes.vals[n].parts) == SubParts(ColumnMap(d), c.indexes.vals[n].parts)
    {
      PartsAre(c, d, ps, c.indexes.vals[n].parts);
    }
  }

  // The columns after the renames: every name moved as the map says, none lost, none empty.
  lemma RenamedColumns(c: Schema, d: Desired, ps: seq<Pair>)
    requires ColumnsPaired(c, d, ps) && SchemaOk(c) && SchemaOk(d.schema)
    ensures Pairing(c.cols.vals.Keys, ps) &&
      (forall i :: 0 <= i < |ps| ==> ps[i].n != "" && ps[i].n in d.schema.cols.vals)
    ensures var r := RenameKeys(c.cols, ps);
      r.Ok() && r.keys != [] && "" !in r.vals && r.vals == RenAllKeys(ps, c.cols.vals) &&
      forall x :: x in c.cols.vals ==> Sub(ColumnMap(d), x) in r.vals && r.vals[Sub(ColumnMap(d), x)] == c.cols.vals[x]
  {
    hide PartsIn, RenameLoop, SharesSource, RenAllKeys, RenAll, Sub, ColumnMap;
    var r := RenameKeys(c.cols, ps);
    AcceptedArePairing(c.cols.vals.Keys, d.schema.cols.keys, d.colFrom);
    forall i | 0 <= i < |ps| ensures ps[i].n != "" && ps[i].n in d.schema.cols.vals {
      assert ps[i] in ps && ps[i].n in Elems(d.schema.cols.keys);
    }
    RenameKeysVals(c.cols, ps);
    RenameKeysOk(c.cols, ps);
    RenAllKeysAt(ps, c.cols.vals);
    hide RenameKeys, RenamePairs;
    forall x | x in c.cols.vals ensures RenAll(ps, x) == Sub(ColumnMap(d), x) && RenAll(ps, x) != "" {
      ColumnIs(c, d, ps, x);
      SequentialIsSimultaneous(c.cols.vals.Keys, ps, x);
    }
    assert c.cols.keys[0] in Elems(c.cols.keys);
    assert RenAll(ps, c.cols.keys[0]) in Elems(r.keys);
  }

  lemma PartsFollow(c: Schema, d: Desired, cols: map<string, string>, s: seq<Part>)
    requires PartsIn(s, c.cols.vals) && Sub(ColumnMap(d), "") == ""
    requires forall x :: x in c.cols.vals ==> Sub(ColumnMap(d), x) in cols
    ensures PartsIn(SubParts(ColumnMap(d), s), cols)
  {
    hide ColumnMap, Sub;
  }

  /* ----- index renames ----- */

  lemma RenameIndexDoes(k: string, t: Table, q: Pair)
    requires q.o in t.indexes && q.n !in t.indexes
    ensures ExecLocal(t, RenameIndex(k, q.o, q.n)) == Some(t.(indexes := RenKey(q.o, q.n, t.indexes)))
  {
  }

  lemma {:induction false} IndexRenamesRun(k: string, t: Table, ps: seq<Pair>)
    requires Pairing(t.indexes.Keys, ps)
    ensures RunLocal(t, IndexRenames(k, ps)) == Some(t.(indexes := RenAllKeys(ps, t.indexes)))
    decreases |ps|
  {
    hide ExecLocal, RenKey;
    if ps != [] {
      var q, rest := ps[0], ps[1..];
      RenameIndexDoes(k, t, q);
      PairingRest(t.indexes.Keys, ps);
      RenKeyKeys(q.o, q.n, t.indexes);
      IndexRenamesRun(k, t.(indexes := RenKey(q.o, q.n, t.indexes)), rest);
      RunCons(t, RenameIndex(k, q.o, q.n), IndexRenames(k, rest));
      assert IndexRenames(k, ps) == [RenameIndex(k, q.o, q.n)] + IndexRenames(k, rest);
    }
  }

  lemma RenamedIndexes(c: Schema, d: Desired, ps: seq<Pair>)
    requires SchemaOk(c) && SchemaOk(d.schema)
    requires RenamePairs(c.indexes.vals.Keys, d.schema.indexes.keys, d.idxFrom) == Result.Ok(ps)
    ensures var m := SubIndexes(ColumnMap(d), c.indexes);
      Pairing(m.vals.Keys, ps) && RenameKeys(m, ps).Ok() && RenameKeys(m, ps).vals == RenAllKeys(ps, m.vals)
  {
    hide PartsIn, RenameLoop, SharesSource, RenAllKeys, SubParts, ColumnMap, Distinct, Elems;
    var m := SubIndexes(ColumnMap(d), c.indexes);
    assert m.vals.Keys == c.indexes.vals.Keys;
    AcceptedArePairing(c.indexes.vals.Keys, d.schema.indexes.keys, d.idxFrom);
    RenameKeysVals(m, ps);
    RenameKeysOk(m, ps);
  }

  lemma RenamedPartsOk(m: map<string, Index>, ps: seq<Pair>, cols: map<string, string>)
    requires Pairing(m.Keys, ps) && forall n :: n in m ==> m[n].parts != [] && PartsIn(m[n].parts, cols)
    ensures var r := RenAllKeys(ps, m); forall n :: n in r ==> r[n].parts != [] && PartsIn(r[n].parts, cols)
  {
    RenAllKeysAt(ps, m);
    hide PartsIn, RenAllKeys, RenAll;
  }

  lemma RenamedIs(cur: map<string, Schema>, des: OMap<Desired>, k: string)
    requires k in cur && k in des.vals && RenameWithin(cur, des, k).Ok?
    ensures var c, d, r := cur[k], des.vals[k], RenameWithin(cur, des, k).value;
      ColumnsPaired(c, d, r.cols) &&
      RenamePairs(c.indexes.vals.Keys, d.schema.indexes.keys, d.idxFrom) == Result.Ok(r.indexes) &&
      r.schema == Schema(RenameKeys(c.cols, r.cols), SubParts(ColumnMap(d), c.pk),
        RenameKeys(SubIndexes(ColumnMap(d), c.indexes), r.indexes), SubForeignKeys(cur, des, k, c.fks))
  {
    hide RenamePairs, Guard, RenameKeys, SubParts, SubIndexes, ColumnMap, SubForeignKeys;
  }

  lemma SchemaOkIs(s: Schema)
    ensures SchemaOk(s) <==>
      s.cols.Ok() && s.cols.keys != [] && "" !in s.cols.vals && PartsIn(s.pk, s.cols.vals) && s.indexes.Ok() &&
      s.fks.Ok() &&
      forall n :: n in s.indexes.vals ==> s.indexes.vals[n].parts != [] && PartsIn(s.indexes.vals[n].parts, s.cols.vals)
  {
    hide PartsIn, OMap<string>.Ok, OMap<Index>.Ok, OMap<ForeignKey>.Ok;
  }

  // The renamed indexes have parts, on renamed columns.
  lemma RenamedIndexesOk(c: Schema, d: Desired, cols: map<string, string>, ps: seq<Pair>)
    requires SchemaOk(c) && SchemaOk(d.schema) && Sub(ColumnMap(d), "") == ""
    requires RenamePairs(c.indexes.vals.Keys, d.schema.indexes.keys, d.idxFrom) == Result.Ok(ps)
    requires forall x :: x in c.cols.vals ==> Sub(ColumnMap(d), x) in cols
    ensures var r := RenameKeys(SubIndexes(ColumnMap(d), c.indexes), ps);
      r.Ok() && forall n :: n in r.vals ==> r.vals[n].parts != [] && PartsIn(r.vals[n].parts, cols)
  {
    SchemaOkIs(c);
    RenamedIndexes(c, d, ps);
    hide Sub, ColumnMap, RenamePairs, RenAllKeys, SchemaOk, RenameKeys, Pairing, PartsIn, SubParts;
    var m := SubIndexes(ColumnMap(d), c.indexes);
    forall n | n in m.vals ensures m.vals[n].parts != [] && PartsIn(m.vals[n].parts, cols) {
      PartsFollow(c, d, cols, c.indexes.vals[n].parts);
    }
    RenamedPartsOk(m.vals, ps, cols);
  }

  lemma RenamedKeysOk(cur: map<string, Schema>, des: OMap<Desired>, k: string, fks: OMap<ForeignKey>)
    requires fks.Ok()
    ensures SubForeignKeys(cur, des, k, fks).Ok()
  {
    hide SubForeignKey, Distinct, Elems;
    assert SubForeignKeys(cur, des, k, fks).vals.Keys == fks.vals.Keys;
  }

  // The schema the planner goes on with is well-formed.
  lemma RenamedOk(cur: map<string, Schema>, des: OMap<Desired>, k: string)
    requires k in cur && k in des.vals && SchemaOk(cur[k]) && SchemaOk(des.vals[k].schema)
    requires RenameWithin(cur, des, k).Ok?
    ensures SchemaOk(RenameWithin(cur, des, k).value.schema)
  {
    var c, d, r := cur[k], des.vals[k], RenameWithin(cur, des, k).value;
    assert Distinct(d.schema.cols.keys) && RenamePairs(c.cols.vals.Keys, d.schema.cols.keys, d.colFrom).Ok?;
    hide *;
    RenamedIs(cur, des, k);
    RenamedColumns(c, d, r.cols);
    NoNameStays(c.cols.vals.Keys, d.schema.cols.keys, d.colFrom);
    ColumnMapIs(d);
    SchemaOkIs(c);
    SchemaOkIs(r.schema);
    PartsFollow(c, d, r.schema.cols.vals, c.pk);
    RenamedIndexesOk(c, d, r.schema.cols.vals, r.indexes);
    RenamedKeysOk(cur, des, k, c.fks);
  }

  lemma ColumnMapIs(d: Desired)
    ensures ColumnMap(d) == RenameMap(d.schema.cols.keys, d.colFrom)
  {
  }
}
