/** The database between the steps of a table plan, as a function of what has been done. */
module SchemaState {
  import opened Common
  import opened SortedNames
  import opened SchemaModel
  import opened SchemaSpec
  import opened SchemaLocal
  import opened SchemaLegal
  import opened SchemaRename
  import opened SchemaRenamed
  import opened SchemaStages

  function Schemas(des: OMap<Desired>): map<string, Schema> {
    map k | k in des.vals :: des.vals[k].schema
  }

  // Current schema (table renames applied) and desired schema are well-formed, and no directive is refused.
  ghost predicate Ready(c: OMap<Schema>, des: OMap<Desired>) {
    c.Ok() && WellFormed(c.vals) && des.Ok() && WellFormed(Schemas(des)) &&
    forall k :: k in c.vals && k in des.vals ==> RenameWithin(c.vals, des, k).Ok?
  }

  function Both(c: OMap<Schema>, des: OMap<Desired>): set<string> {
    c.vals.Keys * des.vals.Keys
  }

  function RenamedTable(c: OMap<Schema>, des: OMap<Desired>, k: string): Renamed
    requires k in c.vals && k in des.vals && RenameWithin(c.vals, des, k).Ok?
  {
    RenameWithin(c.vals, des, k).value
  }

  /* ----- foreign keys ----- */

  // Desired has the foreign key as it stands, columns renamed.
  predicate Stays(c: OMap<Schema>, des: OMap<Desired>, k: string, n: string)
    requires k in c.vals
  {
    k in des.vals && n in c.vals[k].fks.vals &&
    SameForeignKey(SubForeignKeys(c.vals, des, k, c.vals[k].fks).vals, des.vals[k].schema.fks.vals, n)
  }

  // Desired does not have the foreign key, and its drop is not permitted.
  predicate Leftover(c: OMap<Schema>, des: OMap<Desired>, p: Policy, k: string, n: string)
    requires k in c.vals
  {
    n in c.vals[k].fks.vals && if k in des.vals then n !in des.vals[k].schema.fks.vals && !p.foreignKey else !p.table
  }

  // The foreign keys of table k that no statement drops.
  predicate Keeps(c: OMap<Schema>, des: OMap<Desired>, p: Policy, k: string, n: string)
    requires k in c.vals
  {
    Stays(c, des, k, n) || Leftover(c, des, p, k, n)
  }

  lemma KeepsIs(c: OMap<Schema>, des: OMap<Desired>, p: Policy, k: string, n: string)
    requires k in c.vals
    ensures Keeps(c, des, p, k, n) <==> Stays(c, des, k, n) || Leftover(c, des, p, k, n)
    ensures Keeps(c, des, p, k, n) ==> n in c.vals[k].fks.vals
  {
    hide SameForeignKey;
  }

  // A kept foreign key while the columns of the tables in `done` carry their new names.
  function Half(des: OMap<Desired>, done: set<string>, k: string, fk: ForeignKey): ForeignKey {
    ForeignKey(
      if k in done && k in des.vals then SubNames(ColumnMap(des.vals[k]), fk.cols) else fk.cols, fk.refTable,
      if fk.refTable in done && fk.refTable in des.vals then SubNames(ColumnMap(des.vals[fk.refTable]), fk.refCols)
        else fk.refCols,
      fk.attrs)
  }

  function HalfKeys(c: OMap<Schema>, des: OMap<Desired>, p: Policy, done: set<string>,
    k: string): map<string, ForeignKey>
    requires k in c.vals
  {
    map n | n in c.vals[k].fks.vals && Keeps(c, des, p, k, n) :: Half(des, done, k, c.vals[k].fks.vals[n])
  }

  lemma HalfKeysAre(c: OMap<Schema>, des: OMap<Desired>, p: Policy, done: set<string>, k: string, n: string)
    requires k in c.vals
    ensures n in HalfKeys(c, des, p, done, k) <==> Keeps(c, des, p, k, n)
    ensures n in HalfKeys(c, des, p, done, k) ==>
              n in c.vals[k].fks.vals && HalfKeys(c, des, p, done, k)[n] == Half(des, done, k, c.vals[k].fks.vals[n])
  {
    KeepsIs(c, des, p, k, n);
    hide Keeps, Half;
  }

  // What MySQL guarantees of one foreign key of the current schema.
  lemma CurrentKey(c: OMap<Schema>, k: string, n: string)
    requires WellFormed(c.vals) && k in c.vals && n in c.vals[k].fks.vals
    ensures var fk := c.vals[k].fks.vals[n];
      NamesIn(fk.cols, c.vals[k].cols.vals) && fk.refTable in c.vals &&
      NamesIn(fk.refCols, c.vals[fk.refTable].cols.vals)
  {
    Parts(AsDB(c.vals));
    var d, fk := AsDB(c.vals), c.vals[k].fks.vals[n];
    assert d[k].fks[n] == fk;
    assert ForeignKeyOk(d, d[k], fk);
    assert d[fk.refTable].attrs == c.vals[fk.refTable].cols.vals;
  }

  lemma DesiredKey(des: OMap<Desired>, k: string, n: string)
    requires WellFormed(Schemas(des)) && k in des.vals && n in des.vals[k].schema.fks.vals
    ensures var fk := des.vals[k].schema.fks.vals[n];
      NamesIn(fk.cols, des.vals[k].schema.cols.vals) && fk.refTable in des.vals &&
      NamesIn(fk.refCols, des.vals[fk.refTable].schema.cols.vals)
  {
    Parts(AsDB(Schemas(des)));
    var d, fk := AsDB(Schemas(des)), des.vals[k].schema.fks.vals[n];
    assert d[k].fks[n] == fk;
    assert ForeignKeyOk(d, d[k], fk);
    assert d[fk.refTable].attrs == des.vals[fk.refTable].schema.cols.vals;
  }

  // A foreign key that stays is the desired one, columns renamed.
  lemma StaysIsDesired(c: OMap<Schema>, des: OMap<Desired>, k: string, n: string)
    requires WellFormed(c.vals) && WellFormed(Schemas(des)) && k in c.vals && Stays(c, des, k, n)
    ensures var fk, goal := c.vals[k].fks.vals[n], des.vals[k].schema.fks.vals;
      n in goal && fk.refTable in Both(c, des) && goal[n].refTable == fk.refTable && goal[n].attrs == fk.attrs &&
      goal[n].cols == SubNames(ColumnMap(des.vals[k]), fk.cols) &&
      goal[n].refCols == SubNames(ColumnMap(des.vals[fk.refTable]), fk.refCols)
  {
    CurrentKey(c, k, n);
    hide WellFormed, NamesIn, ColumnMap, SubNames;
    assert SubForeignKey(c.vals, des, k, c.vals[k].fks.vals[n]) == des.vals[k].schema.fks.vals[n];
    DesiredKey(des, k, n);
  }

  // Once every common table is done, a foreign key reads as the planner sees it.
  lemma HalfDone(c: OMap<Schema>, des: OMap<Desired>, k: string, n: string)
    requires WellFormed(c.vals) && k in c.vals && n in c.vals[k].fks.vals
    ensures Half(des, Both(c, des), k, c.vals[k].fks.vals[n]) == SubForeignKey(c.vals, des, k, c.vals[k].fks.vals[n])
  {
    CurrentKey(c, k, n);
    hide WellFormed, ColumnMap, SubNames, NamesIn;
  }

  lemma ReadySchemas(c: OMap<Schema>, des: OMap<Desired>, k: string)
    requires Ready(c, des)
    ensures k in c.vals ==> SchemaOk(c.vals[k])
    ensures k in des.vals ==> SchemaOk(des.vals[k].schema) && Distinct(des.vals[k].schema.cols.keys)
    ensures WellFormed(c.vals) && WellFormed(Schemas(des))
  {
    hide DBOk;
    if k in des.vals { assert SchemaOk(Schemas(des)[k]); }
  }

  // Renaming the columns of table k carries a kept foreign key one step on.
  lemma HalfStep(c: OMap<Schema>, des: OMap<Desired>, done: set<string>, k: string, ps: seq<Pair>, t: string, n: string)
    requires Ready(c, des) && k in Both(c, des) && k !in done && ColumnsPaired(c.vals[k], des.vals[k], ps)
    requires t in c.vals && n in c.vals[t].fks.vals
    ensures RenAllForeignKey(k, ps, t, Half(des, done, t, c.vals[t].fks.vals[n])) ==
      Half(des, done + {k}, t, c.vals[t].fks.vals[n])
  {
    var fk := c.vals[t].fks.vals[n];
    ReadySchemas(c, des, k);
    CurrentKey(c, t, n);
    assert k in c.vals && k in des.vals;
    hide *;
    if t == k { NamesAre(c.vals[k], des.vals[k], ps, fk.cols); }
    if fk.refTable == k { NamesAre(c.vals[k], des.vals[k], ps, fk.refCols); }
    HalfOneStep(des, done, k, ps, t, fk);
  }

  lemma HalfOneStep(des: OMap<Desired>, done: set<string>, k: string, ps: seq<Pair>, t: string, fk: ForeignKey)
    requires k in des.vals && k !in done
    requires t == k ==> RenAllNames(ps, fk.cols) == SubNames(ColumnMap(des.vals[k]), fk.cols)
    requires fk.refTable == k ==> RenAllNames(ps, fk.refCols) == SubNames(ColumnMap(des.vals[k]), fk.refCols)
    ensures RenAllForeignKey(k, ps, t, Half(des, done, t, fk)) == Half(des, done + {k}, t, fk)
  {
    hide RenAllNames, SubNames, ColumnMap;
  }

  lemma HalfKeysStep(c: OMap<Schema>, des: OMap<Desired>, p: Policy, done: set<string>, k: string,
    ps: seq<Pair>, t: string)
    requires Ready(c, des) && k in Both(c, des) && k !in done &&
      ColumnsPaired(c.vals[k], des.vals[k], ps) && t in c.vals
    ensures RenAllForeignKeys(k, ps, t, HalfKeys(c, des, p, done, t)) == HalfKeys(c, des, p, done + {k}, t)
  {
    hide Ready, Keeps, Half, RenAllForeignKey, ColumnsPaired;
    forall n | n in c.vals[t].fks.vals
      ensures RenAllForeignKey(k, ps, t, Half(des, done, t, c.vals[t].fks.vals[n])) ==
        Half(des, done + {k}, t, c.vals[t].fks.vals[n])
    {
      HalfStep(c, des, done, k, ps, t, n);
    }
  }

  /* ----- tables ----- */

  // Table k right after its renames.
  function Shown(c: OMap<Schema>, des: OMap<Desired>, p: Policy, done: set<string>, k: string): Table
    requires k in c.vals && k in des.vals && RenameWithin(c.vals, des, k).Ok?
  {
    var r := RenamedTable(c, des, k);
    Table(RenAllNames(r.cols, c.vals[k].cols.keys), r.schema.cols.vals, r.schema.pk, r.schema.indexes.vals,
      HalfKeys(c, des, p, done, k))
  }

  // A table both schemas have, before or after its own statements.
  function Body(c: OMap<Schema>, des: OMap<Desired>, p: Policy, done: set<string>, k: string): Table
    requires k in c.vals
  {
    if k in done && k in des.vals && RenameWithin(c.vals, des, k).Ok? then
      FinalTable(Shown(c, des, p, done, k), RenamedTable(c, des, k).schema, des.vals[k].schema, p)
    else AsTable(c.vals[k]).(fks := HalfKeys(c, des, p, done, k))
  }

  function Fresh(s: Schema): Table {
    AsTable(s).(fks := map[])
  }

  // Foreign keys dropped, new tables created, the tables in `done` brought to their final form.
  function MidDB(c: OMap<Schema>, des: OMap<Desired>, p: Policy, done: set<string>): DB {
    map k | k in c.vals.Keys + des.vals.Keys :: if k in c.vals then Body(c, des, p, done, k)
      else Fresh(des.vals[k].schema)
  }

  lemma MidAt(c: OMap<Schema>, des: OMap<Desired>, p: Policy, done: set<string>, t: string)
    ensures t in MidDB(c, des, p, done) <==> t in c.vals || t in des.vals
    ensures t in c.vals ==>
      MidDB(c, des, p, done)[t] == Body(c, des, p, done, t) &&
      Body(c, des, p, done, t).fks == HalfKeys(c, des, p, done, t)
    ensures t !in c.vals && t in des.vals ==> MidDB(c, des, p, done)[t] == Fresh(des.vals[t].schema)
  {
    hide HalfKeys, FinalAttrs, FinalKey, FinalIndexes, AddedCols, WithoutAll, AsTable, RenameWithin;
  }

  // A table that is not k differs between `done` and `done + {k}` in its foreign keys only.
  lemma BodyElsewhere(c: OMap<Schema>, des: OMap<Desired>, p: Policy, done: set<string>, k: string, t: string)
    requires t in c.vals && t != k
    ensures Body(c, des, p, done + {k}, t) == Body(c, des, p, done, t).(fks := HalfKeys(c, des, p, done + {k}, t))
  {
    hide HalfKeys, FinalAttrs, FinalKey, FinalIndexes, AddedCols, WithoutAll, RenameWithin;
  }

  /* ----- the renames of table k ----- */

  // The indexes are still under their old names.
  function Unindexed(c: OMap<Schema>, des: OMap<Desired>, p: Policy, done: set<string>, k: string): Table
    requires k in c.vals && k in des.vals && RenameWithin(c.vals, des, k).Ok?
  {
    Shown(c, des, p, done, k).(indexes := SubIndexes(ColumnMap(des.vals[k]), c.vals[k].indexes).vals)
  }

  lemma OwnRenames(c: OMap<Schema>, des: OMap<Desired>, p: Policy, done: set<string>, k: string)
    requires Ready(c, des) && k in Both(c, des) && k !in done
    ensures var r := RenamedTable(c, des, k);
      RenAllColumns(k, r.cols, k, Body(c, des, p, done, k)) == Unindexed(c, des, p, done + {k}, k)
  {
    var s, d, r := c.vals[k], des.vals[k], RenamedTable(c, des, k);
    assert SchemaOk(Schemas(des)[k]) && SchemaOk(s);
    RenamedIs(c.vals, des, k);
    RenamedColumns(s, d, r.cols);
    PartsAre(s, d, r.cols, s.pk);
    IndexesAre(s, d, r.cols);
    HalfKeysStep(c, des, p, done, k, r.cols, k);
    hide HalfKeys, RenameWithin, ColumnMap, RenAllForeignKeys, RenAllNames, RenAllKeys, RenAllParts, RenAllIndexes,
      SubIndexes, SubParts, RenameKeys, SchemaOk, WellFormed, SubForeignKeys;
  }

  lemma OtherRenames(c: OMap<Schema>, des: OMap<Desired>, p: Policy, done: set<string>, k: string, t: string)
    requires Ready(c, des) && k in Both(c, des) && k !in done && t != k && (t in c.vals || t in des.vals)
    ensures RenAllColumns(k, RenamedTable(c, des, k).cols, t, MidDB(c, des, p, done)[t]) ==
      MidDB(c, des, p, done + {k})[t]
  {
    var ps := RenamedTable(c, des, k).cols;
    MidAt(c, des, p, done, t);
    MidAt(c, des, p, done + {k}, t);
    RenamedIs(c.vals, des, k);
    if t in c.vals {
      HalfKeysStep(c, des, p, done, k, ps, t);
      BodyElsewhere(c, des, p, done, k, t);
      hide HalfKeys, RenameWithin, Body, RenAllForeignKeys, MidDB, Ready, Fresh;
    } else {
      NoKeysRenamed(k, ps, t);
      hide HalfKeys, RenameWithin, Body, RenAllForeignKeys, MidDB, Ready, AsTable;
    }
  }

  lemma NoKeysRenamed(k: string, ps: seq<Pair>, t: string)
    ensures RenAllForeignKeys(k, ps, t, map[]) == map[]
  {
  }

  lemma ColumnStage(c: OMap<Schema>, des: OMap<Desired>, p: Policy, done: set<string>, k: string)
    requires Ready(c, des) && k in Both(c, des) && k !in done
    ensures Run(MidDB(c, des, p, done), ColumnRenames(k, RenamedTable(c, des, k).cols)) ==
      Some(MidDB(c, des, p, done + {k})[k := Unindexed(c, des, p, done + {k}, k)])
  {
    var db, ps := MidDB(c, des, p, done), RenamedTable(c, des, k).cols;
    var e := MidDB(c, des, p, done + {k})[k := Unindexed(c, des, p, done + {k}, k)];
    PairedAtHome(c, des, p, done, k);
    hide *;
    assert k in c.vals && k in des.vals by { BothIs(c, des, k); }
    ColumnRenamesRun(db, k, ps);
    forall t ensures (t in AllRenamed(db, k, ps) <==> t in e) && (t in e ==> AllRenamed(db, k, ps)[t] == e[t]) {
      ColumnStageAt(c, des, p, done, k, t);
    }
    MapsAgree(AllRenamed(db, k, ps), e);
  }

  lemma BothIs(c: OMap<Schema>, des: OMap<Desired>, k: string)
    ensures k in Both(c, des) <==> k in c.vals && k in des.vals
  {
  }

  lemma PairedAtHome(c: OMap<Schema>, des: OMap<Desired>, p: Policy, done: set<string>, k: string)
    requires Ready(c, des) && k in Both(c, des) && k !in done
    ensures var db, ps := MidDB(c, des, p, done), RenamedTable(c, des, k).cols;
      k in db && Pairing(db[k].attrs.Keys, ps) && forall i :: 0 <= i < |ps| ==> ps[i].n != ""
  {
    ReadySchemas(c, des, k);
    RenamedIs(c.vals, des, k);
    RenamedColumns(c.vals[k], des.vals[k], RenamedTable(c, des, k).cols);
    MidAt(c, des, p, done, k);
    hide Ready, MidDB, RenameWithin, ColumnsPaired, SchemaOk, HalfKeys, Pairing;
  }

  lemma ColumnStageAt(c: OMap<Schema>, des: OMap<Desired>, p: Policy, done: set<string>, k: string, t: string)
    requires Ready(c, des) && k in Both(c, des) && k !in done
    ensures var r, e := AllRenamed(MidDB(c, des, p, done), k, RenamedTable(c, des, k).cols),
        MidDB(c, des, p, done + {k})[k := Unindexed(c, des, p, done + {k}, k)];
      (t in r <==> t in e) && (t in e ==> r[t] == e[t])
  {
    MidAt(c, des, p, done, t);
    MidAt(c, des, p, done + {k}, t);
    hide Ready, MidDB, RenameWithin, RenAllColumns, Unindexed, Body, HalfKeys;
    if t == k { OwnRenames(c, des, p, done, k); }
    else if t in c.vals || t in des.vals { OtherRenames(c, des, p, done, k, t); }
  }
}
