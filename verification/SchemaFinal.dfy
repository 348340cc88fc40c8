/** What a table plan delivers. */
module SchemaFinal {
  import opened Common
  import opened SortedNames
  import opened SchemaModel
  import opened SchemaSpec
  import opened SchemaLocal
  import opened SchemaLegal
  import opened SchemaRename
  import opened SchemaRenamed
  import opened SchemaStages
  import opened SchemaState
  import opened SchemaSteps
  import opened SchemaBuckets
  import opened SchemaAdds
  import opened SchemaPlan
  import opened SchemaOrder

  /* ----- the end state ----- */

  // Everything desired says, column order aside.
  ghost predicate IsDesired(t: Table, s: Schema) {
    t.attrs == s.cols.vals && t.pk == s.pk && t.indexes == s.indexes.vals && t.fks == s.fks.vals &&
    Distinct(t.cols) && Elems(t.cols) == s.cols.vals.Keys
  }

  predicate AllAllowed(p: Policy) {
    p.table && p.column && p.index && p.constraint && p.foreignKey
  }

  // The columns of table k as the database orders them once they carry their new names.
  function Survivors(cur: OMap<Schema>, des: OMap<Desired>, k: string): seq<string>
    requires RenamePairs(cur.vals.Keys, des.keys, TableFrom(des)).Ok?
    requires k in AfterRenames(cur, des).vals && k in des.vals && RenameWithin(AfterRenames(cur, des).vals, des, k).Ok?
  {
    RenAllNames(RenamedTable(AfterRenames(cur, des), des, k).cols, AfterRenames(cur, des).vals[k].cols.keys)
  }

  lemma FinalAt(c: OMap<Schema>, des: OMap<Desired>, p: Policy, k: string)
    requires k in des.vals && (k in c.vals ==> RenameWithin(c.vals, des, k).Ok?)
    ensures k in AddDB(c, des, p, des.vals.Keys)
    ensures AddDB(c, des, p, des.vals.Keys)[k] ==
      if k in c.vals then
        FinalTable(Shown(c, des, p, Both(c, des), k), RenamedTable(c, des, k).schema, des.vals[k].schema, p)
          .(fks := HalfKeys(c, des, p, Both(c, des), k) + des.vals[k].schema.fks.vals)
      else AsTable(des.vals[k].schema)
  {
    BothIs(c, des, k);
    AddDBIs(c, des, p, des.vals.Keys, k);
    hide *;
    if k in c.vals {
      FinalIsBody(c, des, p, Both(c, des), k);
      KeysNowIs(c, des, p, des.vals.Keys, k);
    } else {
      AsTableIs(des.vals[k].schema);
    }
  }

  lemma OnlyDesiredKeys(c: OMap<Schema>, des: OMap<Desired>, p: Policy, k: string)
    requires Ready(c, des) && k in Both(c, des) && p.foreignKey
    ensures HalfKeys(c, des, p, Both(c, des), k) + des.vals[k].schema.fks.vals == des.vals[k].schema.fks.vals
  {
    BothIs(c, des, k);
    ReadySchemas(c, des, k);
    hide *;
    var kept, goal := HalfKeys(c, des, p, Both(c, des), k), des.vals[k].schema.fks.vals;
    forall n ensures n in kept ==> n in goal {
      KeptAt(c, des, p, k, n);
      NothingLeftAt(c, des, p, k, n);
    }
    MapsAgree(kept + goal, goal);
  }

  lemma NothingLeftAt(c: OMap<Schema>, des: OMap<Desired>, p: Policy, k: string, n: string)
    requires k in c.vals && k in des.vals && p.foreignKey
    ensures !Leftover(c, des, p, k, n)
  {
  }

  // Each permission is used in full, whatever the others are: nothing of a kind that may go stays beyond desired.
  ghost predicate UsesDrops(t: Table, s: Schema, p: Policy) {
    (p.column ==> t.attrs == s.cols.vals) && (p.constraint ==> t.pk == s.pk) &&
    (p.index ==> t.indexes == s.indexes.vals) && (p.foreignKey ==> t.fks == s.fks.vals)
  }

  lemma FinalUsesDrops(c: OMap<Schema>, des: OMap<Desired>, p: Policy, k: string)
    requires Ready(c, des) && k in des.vals
    ensures k in AddDB(c, des, p, des.vals.Keys) &&
      UsesDrops(AddDB(c, des, p, des.vals.Keys)[k], des.vals[k].schema, p)
  {
    ReadyAt(c, des, k);
    FinalAt(c, des, p, k);
    BothIs(c, des, k);
    if k in c.vals && p.foreignKey { OnlyDesiredKeys(c, des, p, k); }
    hide Ready, AddDB, RenameWithin, Shown, AddedCols, WithoutAll, HalfKeys, Both;
  }

  // `big` has every entry of `small`.
  ghost predicate Contains<V(!new)>(big: map<string, V>, small: map<string, V>) {
    forall n :: n in small ==> n in big && big[n] == small[n]
  }

  // Whatever may not go, everything desired is there.
  ghost predicate Covers(t: Table, s: Schema) {
    Contains(t.attrs, s.cols.vals) && (s.pk != [] ==> t.pk == s.pk) && Contains(t.indexes, s.indexes.vals) &&
      Contains(t.fks, s.fks.vals)
  }

  lemma MergeContains<V(!new)>(a: map<string, V>, b: map<string, V>)
    ensures Contains(a + b, b) && Contains(b, b)
  {
  }

  lemma CoversIs(t: Table, s: Schema)
    ensures Covers(t, s) <==>
      Contains(t.attrs, s.cols.vals) && (s.pk != [] ==> t.pk == s.pk) && Contains(t.indexes, s.indexes.vals) &&
        Contains(t.fks, s.fks.vals)
  {
    hide Contains;
  }

  lemma FinalTableCovers(t: Table, c: Schema, d: Schema, p: Policy, kept: map<string, ForeignKey>)
    ensures Covers(FinalTable(t, c, d, p).(fks := kept + d.fks.vals), d)
  {
    MergeContains(c.cols.vals, d.cols.vals);
    MergeContains(StripIndexes(GoneCols(c, d, p), c.indexes.vals), d.indexes.vals);
    MergeContains(kept, d.fks.vals);
    CoversIs(FinalTable(t, c, d, p).(fks := kept + d.fks.vals), d);
    hide Contains, Covers, StripIndexes, StripParts, GoneCols, AddedCols, WithoutAll;
  }

  lemma FinalCovers(c: OMap<Schema>, des: OMap<Desired>, p: Policy, k: string)
    requires Ready(c, des) && k in des.vals
    ensures k in AddDB(c, des, p, des.vals.Keys) && Covers(AddDB(c, des, p, des.vals.Keys)[k], des.vals[k].schema)
  {
    hide *;
    ReadyAt(c, des, k);
    FinalAt(c, des, p, k);
    var d := des.vals[k].schema;
    if k in c.vals {
      FinalTableCovers(Shown(c, des, p, Both(c, des), k), RenamedTable(c, des, k).schema, d, p,
        HalfKeys(c, des, p, Both(c, des), k));
    } else {
      AsTableIs(d);
      CoversIs(AsTable(d), d);
      MergeContains(map[], d.cols.vals);
      MergeContains(map[], d.indexes.vals);
      MergeContains(map[], d.fks.vals);
    }
  }

  lemma AllUsed(t: Table, s: Schema, p: Policy)
    requires UsesDrops(t, s, p) && AllAllowed(p)
    ensures t.attrs == s.cols.vals && t.pk == s.pk && t.indexes == s.indexes.vals && t.fks == s.fks.vals
  {
  }

  lemma {:induction false} OkTable(t: Table, s: Schema)
    requires TableOk(t) && t.attrs == s.cols.vals && t.pk == s.pk && t.indexes == s.indexes.vals && t.fks == s.fks.vals
    ensures IsDesired(t, s)
  {
  }

  /* ----- nothing is lost that was not allowed to go ----- */

  lemma FinalKeepsColumns(c: OMap<Schema>, des: OMap<Desired>, p: Policy, k: string, x: string)
    requires Ready(c, des) && k in Both(c, des) && !p.column && x in c.vals[k].cols.vals
    ensures k in AddDB(c, des, p, des.vals.Keys) &&
      Sub(ColumnMap(des.vals[k]), x) in AddDB(c, des, p, des.vals.Keys)[k].attrs
  {
    BothIs(c, des, k);
    ReadyAt(c, des, k);
    ReadySchemas(c, des, k);
    FinalAt(c, des, p, k);
    RenamedIs(c.vals, des, k);
    RenamedColumns(c.vals[k], des.vals[k], RenamedTable(c, des, k).cols);
    hide Ready, AddDB, RenameWithin, Shown, AddedCols, WithoutAll, ColumnMap, Sub, FinalKey, FinalIndexes, RenameKeys,
      SchemaOk, ColumnsPaired;
  }

  // An index keeps its definition, columns renamed, unless desired redefines it.
  lemma FinalKeepsIndexes(c: OMap<Schema>, des: OMap<Desired>, p: Policy, k: string, n: string)
    requires Ready(c, des) && k in Both(c, des) && !p.column && !p.index && n in c.vals[k].indexes.vals
    ensures k in AddDB(c, des, p, des.vals.Keys) && RenameWithin(c.vals, des, k).Ok?
    ensures var final, y := AddDB(c, des, p, des.vals.Keys)[k].indexes, RenAll(RenamedTable(c, des, k).indexes, n);
      y in final && final[y] ==
        if y in des.vals[k].schema.indexes.vals then des.vals[k].schema.indexes.vals[y]
        else Index(SubParts(ColumnMap(des.vals[k]), c.vals[k].indexes.vals[n].parts), c.vals[k].indexes.vals[n].attrs)
  {
    BothIs(c, des, k);
    ReadyAt(c, des, k);
    ReadySchemas(c, des, k);
    FinalAt(c, des, p, k);
    var r := RenamedTable(c, des, k);
    var m := SubIndexes(ColumnMap(des.vals[k]), c.vals[k].indexes).vals;
    KeptIndexes(c, des, p, k);
    RenamedIndexesAt(c, des, k, n);
    hide Ready, AddDB, RenameWithin, Shown, AddedCols, WithoutAll, ColumnMap, SubParts, FinalKey, RenameKeys,
      RenAllKeys, SchemaOk, StripIndexes, RenAll, HalfKeys;
  }

  lemma KeptIndexes(c: OMap<Schema>, des: OMap<Desired>, p: Policy, k: string)
    requires Ready(c, des) && k in Both(c, des) && !p.column && !p.index && RenameWithin(c.vals, des, k).Ok?
    ensures var r, d := RenamedTable(c, des, k).schema, des.vals[k].schema;
      FinalIndexes(r.indexes.vals, d.indexes.vals, p.index, GoneCols(r, d, p)) == r.indexes.vals + d.indexes.vals
  {
    BothIs(c, des, k);
    ReadySchemas(c, des, k);
    IsOk(c, des, k);
    StripIndexesNone(RenamedTable(c, des, k).schema.indexes.vals);
    hide Ready, RenameWithin, StripIndexes, PartsIn, Distinct, Elems;
  }

  lemma RenamedIndexesAt(c: OMap<Schema>, des: OMap<Desired>, k: string, n: string)
    requires Ready(c, des) && k in Both(c, des) && n in c.vals[k].indexes.vals && RenameWithin(c.vals, des, k).Ok?
    ensures var r, x := RenamedTable(c, des, k), c.vals[k].indexes.vals[n];
      RenAll(r.indexes, n) in r.schema.indexes.vals &&
      r.schema.indexes.vals[RenAll(r.indexes, n)] == Index(SubParts(ColumnMap(des.vals[k]), x.parts), x.attrs)
  {
    BothIs(c, des, k);
    ReadySchemas(c, des, k);
    RenamedIs(c.vals, des, k);
    var r := RenamedTable(c, des, k);
    RenamedIndexes(c.vals[k], des.vals[k], r.indexes);
    var m := SubIndexes(ColumnMap(des.vals[k]), c.vals[k].indexes).vals;
    assert n in m;
    RenAllKeysAt(r.indexes, m);
    hide Ready, RenameWithin, ColumnMap, SubParts, RenameKeys, RenAllKeys, SchemaOk, ColumnsPaired, RenAll, Pairing;
  }

  // A foreign key desired lacks is still there, its columns renamed.
  lemma FinalKeepsForeignKeys(c: OMap<Schema>, des: OMap<Desired>, p: Policy, k: string, n: string)
    requires Ready(c, des) && k in c.vals && Leftover(c, des, p, k, n)
    ensures n in c.vals[k].fks.vals && k in AddDB(c, des, p, des.vals.Keys)
    ensures var final := AddDB(c, des, p, des.vals.Keys)[k].fks;
      n in final && final[n] == SubForeignKey(c.vals, des, k, c.vals[k].fks.vals[n])
  {
    ReadySchemas(c, des, k);
    assert k in des.vals || !p.table;
    assert k in des.vals ==> n !in des.vals[k].schema.fks.vals;
    hide *;
    LeftoverIsCurrent(c, des, p, k, n);
    KeepsIs(c, des, p, k, n);
    AddDBIs(c, des, p, des.vals.Keys, k);
    KeysNowIs(c, des, p, des.vals.Keys, k);
    HalfKeysAre(c, des, p, Both(c, des), k, n);
    HalfDone(c, des, k, n);
  }

  // A table desired lacks is still there as it was, but for the columns its foreign keys name in other tables.
  lemma FinalKeepsTables(c: OMap<Schema>, des: OMap<Desired>, p: Policy, k: string)
    requires Ready(c, des) && k in c.vals && k !in des.vals && !p.table
    ensures k in AddDB(c, des, p, des.vals.Keys)
    ensures var t := AddDB(c, des, p, des.vals.Keys)[k];
      t == AsTable(c.vals[k]).(fks := t.fks) && t.fks.Keys == c.vals[k].fks.vals.Keys
  {
    AddDBIs(c, des, p, des.vals.Keys, k);
    KeysNowIs(c, des, p, des.vals.Keys, k);
    hide AddDB, KeysNow, AsTable, Half, Both, Ready, RenameWithin;
    var h := HalfKeys(c, des, p, Both(c, des), k);
    forall n ensures n in h <==> n in c.vals[k].fks.vals {
      HalfKeysAre(c, des, p, Both(c, des), k, n);
      assert n in c.vals[k].fks.vals ==> Leftover(c, des, p, k, n);
      KeepsIs(c, des, p, k, n);
    }
  }

  /* ----- the whole plan ----- */

  // The script's own account: it runs, through legal databases, to the desired schema.
  ghost predicate Delivers(cur: OMap<Schema>, des: OMap<Desired>, p: Policy, script: seq<Stmt>)
    requires RenamePairs(cur.vals.Keys, des.keys, TableFrom(des)).Ok?
  {
    Run(AsDB(cur.vals), script) == Some(FinalDB(cur, des, p)) &&
    (forall i :: 0 <= i <= |script| ==> Legal(AsDB(cur.vals), script[..i])) &&
    FinalDB(cur, des, p).Keys == des.vals.Keys + (if p.table then {} else AfterRenames(cur, des).vals.Keys) &&
    (forall k :: k in des.vals ==> k in FinalDB(cur, des, p) && Covers(FinalDB(cur, des, p)[k], des.vals[k].schema)) &&
    (forall k :: k in des.vals ==>
      k in FinalDB(cur, des, p) && UsesDrops(FinalDB(cur, des, p)[k], des.vals[k].schema, p)) &&
    (AllAllowed(p) ==> forall k :: k in des.vals ==>
      k in FinalDB(cur, des, p) && IsDesired(FinalDB(cur, des, p)[k], des.vals[k].schema))
  }

  ghost predicate Legal(db: DB, prefix: seq<Stmt>) {
    Run(db, prefix).Some? && DBOk(Run(db, prefix).value)
  }

  // Under any policy the plan is stopped, or delivers.
  lemma PlanDelivers(cur: OMap<Schema>, des: OMap<Desired>, p: Policy)
    requires Given(cur, des, p)
    ensures RenamePairs(cur.vals.Keys, des.keys, TableFrom(des)).Ok?
    ensures var script := Script(DiffTables(cur, des, p).value);
      if Stopped(cur, des, p) then Run(AsDB(cur.vals), script) == None else Delivers(cur, des, p, script)
    ensures p.table && p.foreignKey ==> (Stopped(cur, des, p) <==> AnyTrap(cur, des, p))
  {
    hide *;
    GivenIs(cur, des, p);
    PlanRuns(cur, des, p);
    TableRenameStage(cur, des, p);
    if p.table && p.foreignKey { OnlyTraps(cur, des, p); }
    var script, db := Script(DiffTables(cur, des, p).value), AsDB(cur.vals);
    if !Stopped(cur, des, p) {
      forall i | 0 <= i <= |script| ensures Legal(db, script[..i]) {
        EveryPrefixIsLegal(db, script, i);
        LegalIs(db, script[..i]);
      }
      RunKeepsDBOk(db, script);
      FinalIs(cur, des, p);
      var c := AfterRenames(cur, des);
      FinalKeys(c, des, p);
      forall k | k in des.vals ensures k in FinalDB(cur, des, p) &&
        Covers(FinalDB(cur, des, p)[k], des.vals[k].schema) {
        FinalCovers(c, des, p, k);
      }
      forall k | k in des.vals
        ensures k in FinalDB(cur, des, p) && UsesDrops(FinalDB(cur, des, p)[k], des.vals[k].schema, p) {
        FinalUsesDrops(c, des, p, k);
      }
      forall k | AllAllowed(p) && k in des.vals
        ensures k in FinalDB(cur, des, p) && IsDesired(FinalDB(cur, des, p)[k], des.vals[k].schema) {
        AllUsed(FinalDB(cur, des, p)[k], des.vals[k].schema, p);
        TableOkHas(FinalDB(cur, des, p), k);
        OkTable(FinalDB(cur, des, p)[k], des.vals[k].schema);
      }
      DeliversIs(cur, des, p, script);
    }
  }

  lemma LegalIs(db: DB, prefix: seq<Stmt>)
    ensures Legal(db, prefix) <==> Run(db, prefix).Some? && DBOk(Run(db, prefix).value)
  {
    hide Run, DBOk;
  }

  lemma FinalKeys(c: OMap<Schema>, des: OMap<Desired>, p: Policy)
    ensures AddDB(c, des, p, des.vals.Keys).Keys == des.vals.Keys + (if p.table then {} else c.vals.Keys)
  {
    hide Body, AsTable, KeysNow;
  }

  lemma DeliversIs(cur: OMap<Schema>, des: OMap<Desired>, p: Policy, script: seq<Stmt>)
    requires RenamePairs(cur.vals.Keys, des.keys, TableFrom(des)).Ok?
    requires Run(AsDB(cur.vals), script) == Some(FinalDB(cur, des, p))
    requires forall i :: 0 <= i <= |script| ==> Legal(AsDB(cur.vals), script[..i])
    requires FinalDB(cur, des, p).Keys == des.vals.Keys + (if p.table then {} else AfterRenames(cur, des).vals.Keys)
    requires forall k :: k in des.vals ==>
      k in FinalDB(cur, des, p) && Covers(FinalDB(cur, des, p)[k], des.vals[k].schema)
    requires forall k :: k in des.vals ==>
      k in FinalDB(cur, des, p) && UsesDrops(FinalDB(cur, des, p)[k], des.vals[k].schema, p)
    requires AllAllowed(p) ==> forall k :: k in des.vals ==>
      k in FinalDB(cur, des, p) && IsDesired(FinalDB(cur, des, p)[k], des.vals[k].schema)
    ensures Delivers(cur, des, p, script)
  {
    hide Run, FinalDB, IsDesired, AllAllowed, Legal, RenamePairs, AsDB, Covers, UsesDrops, AfterRenames;
  }

  // The column order is desired's too, in a new table always, in a common one exactly when the
  // columns that survive already had it.
  lemma PlanOrdersColumns(cur: OMap<Schema>, des: OMap<Desired>, p: Policy, k: string)
    requires Given(cur, des, p) && p.column && k in des.vals
    ensures RenamePairs(cur.vals.Keys, des.keys, TableFrom(des)).Ok?
    ensures var c := AfterRenames(cur, des);
      k in FinalDB(cur, des, p) && (k in c.vals ==> RenameWithin(c.vals, des, k).Ok?) &&
      (FinalDB(cur, des, p)[k].cols == des.vals[k].schema.cols.keys <==>
        (k in c.vals ==> SameOrder(Survivors(cur, des, k), RenamedTable(c, des, k).schema.cols.vals,
          des.vals[k].schema.cols)))
  {
    hide *;
    TableRenameStage(cur, des, p);
    var c := AfterRenames(cur, des);
    ReadyAt(c, des, k);
    FinalAt(c, des, p, k);
    FinalIs(cur, des, p);
    if k in c.vals {
      ReadySchemas(c, des, k);
      IsOk(c, des, k);
      SurvivorsOk(cur, des, p, k);
      ColumnOrder(Survivors(cur, des, k), RenamedTable(c, des, k).schema, des.vals[k].schema);
      FinalColumns(c, des, p, k);
      SurvivorsAre(cur, des, k);
    } else {
      AsTableIs(des.vals[k].schema);
    }
  }

  lemma SurvivorsAre(cur: OMap<Schema>, des: OMap<Desired>, k: string)
    requires RenamePairs(cur.vals.Keys, des.keys, TableFrom(des)).Ok?
    requires k in AfterRenames(cur, des).vals && k in des.vals && RenameWithin(AfterRenames(cur, des).vals, des, k).Ok?
    ensures Survivors(cur, des, k) == RenAllNames(
      RenamedTable(AfterRenames(cur, des), des, k).cols, AfterRenames(cur, des).vals[k].cols.keys)
  {
    hide RenameWithin, AfterRenames, RenAllNames;
  }

  lemma FinalColumns(c: OMap<Schema>, des: OMap<Desired>, p: Policy, k: string)
    requires k in c.vals && k in des.vals && RenameWithin(c.vals, des, k).Ok? && p.column
    ensures var r, d := RenamedTable(c, des, k).schema, des.vals[k].schema;
      FinalTable(Shown(c, des, p, Both(c, des), k), r, d, p).cols ==
        WithoutAll(AddedCols(RenAllNames(RenamedTable(c, des, k).cols, c.vals[k].cols.keys), r.cols.vals, d.cols, 0),
          Gone<string, string>(r.cols.keys, d.cols.vals))
  {
    hide RenameWithin, AddedCols, WithoutAll, Gone, HalfKeys, FinalKey, FinalIndexes, FinalAttrs, RenAllNames;
  }

  lemma SurvivorsOk(cur: OMap<Schema>, des: OMap<Desired>, p: Policy, k: string)
    requires RenamePairs(cur.vals.Keys, des.keys, TableFrom(des)).Ok? && Ready(AfterRenames(cur, des), des)
    requires k in AfterRenames(cur, des).vals && k in des.vals && RenameWithin(AfterRenames(cur, des).vals, des, k).Ok?
    ensures var s := Survivors(cur, des, k);
      Distinct(s) && Elems(s) == RenamedTable(AfterRenames(cur, des), des, k).schema.cols.vals.Keys
  {
    hide *;
    var c := AfterRenames(cur, des);
    ReadySchemas(c, des, k);
    RenamedVals(c, des, k);
    RenamedIs(c.vals, des, k);
    RenamedColumns(c.vals[k], des.vals[k], RenamedTable(c, des, k).cols);
    SurvivorsAre(cur, des, k);
    OkColumns(c.vals[k]);
    RenAllNamesOk(RenamedTable(c, des, k).cols, c.vals[k].cols);
  }

  lemma OkColumns(s: Schema)
    requires SchemaOk(s)
    ensures s.cols.Ok()
  {
  }

  lemma RenamedVals(c: OMap<Schema>, des: OMap<Desired>, k: string)
    requires k in c.vals && k in des.vals && RenameWithin(c.vals, des, k).Ok?
    ensures RenamedTable(c, des, k).schema.cols.vals == RenAllKeys(RenamedTable(c, des, k).cols, c.vals[k].cols.vals)
    ensures RenameWithin(c.vals, des, k).value == RenamedTable(c, des, k)
  {
    RenamedIs(c.vals, des, k);
    hide RenameWithin, RenameKeys, RenAllKeys, ColumnsPaired, SubIndexes, SubParts, SubForeignKeys, ColumnMap,
      RenamePairs;
    RenameKeysVals(c.vals[k].cols, RenamedTable(c, des, k).cols);
  }

  lemma RenAllNamesOk(ps: seq<Pair>, m: OMap<string>)
    requires m.Ok() && Pairing(m.vals.Keys, ps)
    ensures Distinct(RenAllNames(ps, m.keys)) && Elems(RenAllNames(ps, m.keys)) == RenAllKeys(ps, m.vals).Keys
  {
    RenAllKeysAt(ps, m.vals);
    hide RenAllKeys, RenAll, Pairing;
    var r := RenAllNames(ps, m.keys);
    forall i, j | 0 <= i < j < |r| ensures r[i] != r[j] {
      assert m.keys[i] in Elems(m.keys) && m.keys[j] in Elems(m.keys);
      if r[i] == r[j] { RenAllInjective(m.vals.Keys, ps, m.keys[i], m.keys[j]); }
    }
    forall y ensures y in r <==> y in RenAllKeys(ps, m.vals) {
      if y in r {
        var i :| 0 <= i < |r| && r[i] == y;
        assert m.keys[i] in Elems(m.keys);
      }
      if y in RenAllKeys(ps, m.vals) {
        var x :| x in m.vals && RenAll(ps, x) == y;
        assert x in Elems(m.keys);
        var i :| 0 <= i < |m.keys| && m.keys[i] == x;
        assert r[i] == y;
      }
    }
  }
}
