/** The buckets of a table plan, each run as a whole. */
module SchemaBuckets {
  import opened Common
  import opened SortedNames
  import opened SchemaModel
  import opened SchemaSpec
  import opened SchemaLocal
  import opened SchemaLegal
  import opened SchemaRename
  import opened SchemaRenamed
  import opened SchemaStages
  import opened SchemaState
  import opened SchemaSteps

  function First(s: seq<string>, i: nat): (r: set<string>)
    requires i <= |s|
  {
    Elems(s[..i])
  }

  lemma FirstStep(s: seq<string>, i: nat)
    requires Distinct(s) && i < |s|
    ensures First(s, i + 1) == First(s, i) + {s[i]} && s[i] !in First(s, i)
  {
    PrefixStep(s, i);
  }

  lemma OneMore(a: set<string>, b: set<string>, k: string)
    ensures (a + {k}) - b == if k in b then a - b else (a - b) + {k}
    ensures (a + {k}) * b == if k in b then a * b + {k} else a * b
    ensures b + (a + {k}) == (b + a) + {k}
    ensures k in b ==> b + (a + {k}) == b + a
  {
  }

  lemma FirstEnds<V>(m: OMap<V>)
    requires m.Ok()
    ensures First(m.keys, 0) == {} && First(m.keys, |m.keys|) == m.vals.Keys
  {
    NoSuffix(m.keys);
  }

  lemma KeyAt<V>(m: OMap<V>, i: nat)
    requires m.Ok() && i < |m.keys|
    ensures m.keys[i] in m.vals
  {
    assert m.keys[i] in Elems(m.keys);
  }

  lemma ReadyMaps(c: OMap<Schema>, des: OMap<Desired>)
    requires Ready(c, des)
    ensures c.Ok() && des.Ok() && Distinct(c.keys) && Distinct(des.keys)
  {
    hide RenameWithin;
  }

  lemma PutAll(a: DB, b: DB, k: string, t: Table)
    requires forall x :: x in b <==> x in a || x == k
    requires forall x :: x in b ==> b[x] == if x == k then t else a[x]
    ensures a[k := t] == b
  {
  }

  /* ----- foreign key drops ----- */

  // The tables in `done` have lost the foreign keys they do not keep.
  function DropDB(c: OMap<Schema>, des: OMap<Desired>, p: Policy, done: set<string>): DB {
    map k | k in c.vals :: if k in done then AsTable(c.vals[k]).(fks := HalfKeys(c, des, p, {}, k))
      else AsTable(c.vals[k])
  }

  lemma HalfAtFirst(des: OMap<Desired>, k: string, fk: ForeignKey)
    ensures Half(des, {}, k, fk) == fk
  {
    hide ColumnMap;
  }

  lemma StartingKeys(c: OMap<Schema>, des: OMap<Desired>, p: Policy, k: string)
    requires k in c.vals && c.vals[k].fks.Ok()
    ensures var fks := c.vals[k].fks;
      k in des.vals ==>
        var gone := DroppedKeys(SubForeignKeys(c.vals, des, k, fks), des.vals[k].schema.fks.vals, p.foreignKey, 0);
        gone <= fks.vals.Keys && fks.vals - gone == HalfKeys(c, des, p, {}, k)
    ensures k !in des.vals ==> HalfKeys(c, des, p, {}, k) == if p.table then map[] else c.vals[k].fks.vals
  {
    var fks := c.vals[k].fks;
    NoSuffix(fks.keys);
    var gone :=
      if k in des.vals
      then DroppedKeys(SubForeignKeys(c.vals, des, k, fks), des.vals[k].schema.fks.vals, p.foreignKey, 0)
      else if p.table then fks.vals.Keys else {};
    forall n ensures n in gone <==> n in fks.vals && !Keeps(c, des, p, k, n) {}
    hide Keeps, Half, DroppedKeys;
    forall n ensures (n in HalfKeys(c, des, p, {}, k) <==> n in fks.vals - gone) &&
        (n in fks.vals - gone ==> HalfKeys(c, des, p, {}, k)[n] == (fks.vals - gone)[n])
    {
      HalfKeysAre(c, des, p, {}, k, n);
      if n in fks.vals { HalfAtFirst(des, k, fks.vals[n]); }
    }
    MapsAgree(HalfKeys(c, des, p, {}, k), fks.vals - gone);
    assert k !in des.vals && p.table ==> fks.vals - gone == map[];
    assert k !in des.vals && !p.table ==> fks.vals - gone == fks.vals;
  }

  lemma DropDBStep(c: OMap<Schema>, des: OMap<Desired>, p: Policy, done: set<string>, k: string)
    requires k in c.vals && k !in done
    ensures k in DropDB(c, des, p, done) && DropDB(c, des, p, done)[k] == AsTable(c.vals[k])
    ensures DropDB(c, des, p, done + {k}) ==
      DropDB(c, des, p, done)[k := AsTable(c.vals[k]).(fks := HalfKeys(c, des, p, {}, k))]
  {
    hide AsTable, HalfKeys;
  }

  lemma DropDBSkip(c: OMap<Schema>, des: OMap<Desired>, p: Policy, done: set<string>, k: string)
    requires k !in c.vals
    ensures DropDB(c, des, p, done + {k}) == DropDB(c, des, p, done)
  {
    hide AsTable, HalfKeys;
  }

  lemma TableDropsRun(c: OMap<Schema>, des: OMap<Desired>, p: Policy, done: set<string>, k: string)
    requires Ready(c, des) && k in Both(c, des) && k !in done
    ensures Run(DropDB(c, des, p, done),
      ForeignKeyDrops(k, RenamedTable(c, des, k).schema.fks, des.vals[k].schema.fks.vals, p.foreignKey, 0)) ==
      Some(DropDB(c, des, p, done + {k}))
  {
    BothIs(c, des, k);
    ReadyMaps(c, des);
    ReadySchemas(c, des, k);
    RenamedIs(c.vals, des, k);
    hide *;
    SchemaKeysOk(c.vals[k]);
    var db, fks, goal := DropDB(c, des, p, done), SubForeignKeys(c.vals, des, k, c.vals[k].fks),
      des.vals[k].schema.fks.vals;
    StartingKeys(c, des, p, k);
    DropDBStep(c, des, p, done, k);
    SubKeys(c, des, k);
    assert db[k].fks == c.vals[k].fks.vals by { AsTableIs(c.vals[k]); }
    RenamedFields(c, des, k);
    ForeignKeyDropsRun(db, k, fks, goal, p.foreignKey, 0);
  }

  lemma SchemaKeysOk(s: Schema)
    requires SchemaOk(s)
    ensures s.fks.Ok() && Distinct(s.fks.keys)
  {
  }

  lemma AsTableIs(s: Schema)
    ensures AsTable(s).fks == s.fks.vals && AsTable(s).cols == s.cols.keys && AsTable(s).attrs == s.cols.vals &&
      AsTable(s).pk == s.pk && AsTable(s).indexes == s.indexes.vals
  {
  }

  lemma SubKeys(c: OMap<Schema>, des: OMap<Desired>, k: string)
    requires k in c.vals
    ensures SubForeignKeys(c.vals, des, k, c.vals[k].fks).keys == c.vals[k].fks.keys
  {
  }

  lemma RenamedFields(c: OMap<Schema>, des: OMap<Desired>, k: string)
    requires k in c.vals && k in des.vals && RenameWithin(c.vals, des, k).Ok?
    ensures RenamedTable(c, des, k).schema.fks == SubForeignKeys(c.vals, des, k, c.vals[k].fks)
  {
    hide RenamePairs, Guard, RenameKeys, SubParts, SubIndexes, ColumnMap, SubForeignKeys;
  }

  // What one modified table adds to the plan.
  lemma ChangedStep(c: OMap<Schema>, des: OMap<Desired>, p: Policy, i: nat)
    requires Ready(c, des) && i < |des.keys|
    ensures ChangedTables(c.vals, des, p, i).Ok? && ChangedTables(c.vals, des, p, i + 1).Ok?
    ensures var k, q, r := des.keys[i], ChangedTables(c.vals, des, p, i).value,
      ChangedTables(c.vals, des, p, i + 1).value;
      if k !in Both(c, des) then q == r
      else
        q.fkDrops ==
          ForeignKeyDrops(k, RenamedTable(c, des, k).schema.fks, des.vals[k].schema.fks.vals, p.foreignKey, 0) +
            r.fkDrops &&
        q.stmts == TableStmts(k, RenamedTable(c, des, k), des.vals[k].schema, p) + r.stmts &&
        q.fkAdds == ForeignKeyAdds(k, RenamedTable(c, des, k).schema.fks.vals, des.vals[k].schema.fks, 0) + r.fkAdds
  {
    ChangedIsOk(c, des, p, i);
    ChangedIsOk(c, des, p, i + 1);
    ReadyAt(c, des, des.keys[i]);
    hide Ready, RenameWithin, ColumnRenames, IndexRenames, LocalStmts, ForeignKeyDrops, ForeignKeyAdds;
  }

  lemma {:induction false} ChangedIsOk(c: OMap<Schema>, des: OMap<Desired>, p: Policy, i: nat)
    requires Ready(c, des) && i <= |des.keys|
    ensures ChangedTables(c.vals, des, p, i).Ok?
    decreases |des.keys| - i
  {
    if i < |des.keys| {
      ReadyAt(c, des, des.keys[i]);
      ChangedIsOk(c, des, p, i + 1);
      hide Ready, RenameWithin, TablePlan;
    }
  }

  lemma {:induction false} ChangedDropsRun(c: OMap<Schema>, des: OMap<Desired>, p: Policy, i: nat)
    requires Ready(c, des) && i <= |des.keys|
    ensures ChangedTables(c.vals, des, p, i).Ok?
    ensures Run(DropDB(c, des, p, First(des.keys, i)), ChangedTables(c.vals, des, p, i).value.fkDrops) ==
      Some(DropDB(c, des, p, First(des.keys, |des.keys|)))
    decreases |des.keys| - i
  {
    ChangedIsOk(c, des, p, i);
    ReadyMaps(c, des);
    if i == |des.keys| {
      hide DropDB, Ready;
    } else {
      hide *;
      var k, done := des.keys[i], First(des.keys, i);
      ChangedStep(c, des, p, i);
      FirstStep(des.keys, i);
      KeyAt(des, i);
      BothIs(c, des, k);
      ChangedDropsRun(c, des, p, i + 1);
      if k in c.vals {
        ReadyAt(c, des, k);
        TableDropsRun(c, des, p, done, k);
        RunTwo(DropDB(c, des, p, done),
          ForeignKeyDrops(k, RenamedTable(c, des, k).schema.fks, des.vals[k].schema.fks.vals, p.foreignKey, 0),
          ChangedTables(c.vals, des, p, i + 1).value.fkDrops, DropDB(c, des, p, done + {k}));
      } else {
        DropDBSkip(c, des, p, done, k);
      }
    }
  }

  lemma GoneStep(c: OMap<Schema>, des: OMap<Desired>, allowed: bool, i: nat)
    requires c.Ok() && i < |c.keys|
    ensures var k, q, r := c.keys[i], GoneTables(c, des.vals, allowed, i), GoneTables(c, des.vals, allowed, i + 1);
      k in c.vals &&
      if k in des.vals || !allowed then q == r
      else
        q.fkDrops == ForeignKeyDrops(k, c.vals[k].fks, map[], true, 0) + r.fkDrops &&
        q.drops == [DropTable(k)] + r.drops
  {
    KeyAt(c, i);
    var k := c.keys[i];
    AllDropsAre(k, c.vals[k].fks, 0);
    NoSuffix(c.vals[k].fks.keys);
    hide ForeignKeyDrops, AllForeignKeyDrops, OMap<Schema>.Ok;
  }

  lemma NothingSame(fks: OMap<ForeignKey>)
    requires fks.Ok()
    ensures DroppedKeys(fks, map[], true, 0) == fks.vals.Keys && fks.vals - fks.vals.Keys == map[]
  {
    NoSuffix(fks.keys);
  }

  lemma GoneDropsRunAt(c: OMap<Schema>, des: OMap<Desired>, p: Policy, done: set<string>, k: string)
    requires Ready(c, des) && k in c.vals && k !in des.vals && k !in done && p.table
    ensures Run(DropDB(c, des, p, done), ForeignKeyDrops(k, c.vals[k].fks, map[], true, 0)) ==
      Some(DropDB(c, des, p, done + {k}))
  {
    ReadySchemas(c, des, k);
    hide *;
    SchemaKeysOk(c.vals[k]);
    var db := DropDB(c, des, p, done);
    StartingKeys(c, des, p, k);
    DropDBStep(c, des, p, done, k);
    AsTableIs(c.vals[k]);
    NothingSame(c.vals[k].fks);
    ForeignKeyDropsRun(db, k, c.vals[k].fks, map[], true, 0);
  }

  lemma AllKept(db: DB, s: Schema, k: string)
    requires k in db && db[k] == AsTable(s)
    ensures db[k := AsTable(s).(fks := s.fks.vals)] == db
  {
  }

  lemma {:induction false} GoneDropsRun(c: OMap<Schema>, des: OMap<Desired>, p: Policy, i: nat)
    requires Ready(c, des) && i <= |c.keys|
    ensures Run(DropDB(c, des, p, des.vals.Keys + First(c.keys, i)), GoneTables(c, des.vals, p.table, i).fkDrops) ==
      Some(DropDB(c, des, p, des.vals.Keys + First(c.keys, |c.keys|)))
    decreases |c.keys| - i
  {
    ReadyMaps(c, des);
    if i == |c.keys| {
      hide DropDB, Ready;
    } else {
      hide *;
      var k, done := c.keys[i], des.vals.Keys + First(c.keys, i);
      GoneStep(c, des, p.table, i);
      FirstStep(c.keys, i);
      OneMore(First(c.keys, i), des.vals.Keys, k);
      GoneDropsRun(c, des, p, i + 1);
      if k !in des.vals && !p.table {
        ReadySchemas(c, des, k);
        SchemaKeysOk(c.vals[k]);
        StartingKeys(c, des, p, k);
        DropDBStep(c, des, p, done, k);
        AllKept(DropDB(c, des, p, done), c.vals[k], k);
      } else if k !in des.vals {
        GoneDropsRunAt(c, des, p, done, k);
        RunTwo(DropDB(c, des, p, done), ForeignKeyDrops(k, c.vals[k].fks, map[], true, 0),
          GoneTables(c, des.vals, p.table, i + 1).fkDrops, DropDB(c, des, p, done + {k}));
      }
    }
  }

  /* ----- new tables ----- */

  // The new tables in `made` exist.
  function NewDB(c: OMap<Schema>, des: OMap<Desired>, p: Policy, made: set<string>): DB {
    map k | k in c.vals.Keys + made * des.vals.Keys ::
      if k in c.vals then AsTable(c.vals[k]).(fks := HalfKeys(c, des, p, {}, k)) else Fresh(des.vals[k].schema)
  }

  lemma NewDBStarts(c: OMap<Schema>, des: OMap<Desired>, p: Policy)
    requires c.Ok()
    ensures NewDB(c, des, p, {}) == DropDB(c, des, p, des.vals.Keys + First(c.keys, |c.keys|))
  {
    FirstEnds(c);
    hide HalfKeys, AsTable, First, OMap<Schema>.Ok;
  }

  lemma NewDBEnds(c: OMap<Schema>, des: OMap<Desired>, p: Policy)
    ensures NewDB(c, des, p, des.vals.Keys) == MidDB(c, des, p, {})
  {
    hide HalfKeys, AsTable, FinalTable, Shown, RenameWithin;
  }

  lemma NewDBStep(c: OMap<Schema>, des: OMap<Desired>, p: Policy, made: set<string>, k: string)
    requires k in des.vals && k !in made
    ensures k in c.vals ==> NewDB(c, des, p, made + {k}) == NewDB(c, des, p, made)
    ensures k !in c.vals ==>
      k !in NewDB(c, des, p, made) &&
      NewDB(c, des, p, made + {k}) == NewDB(c, des, p, made)[k := Fresh(des.vals[k].schema)]
  {
    hide HalfKeys, AsTable, Fresh;
  }

  function Bare(s: Schema): Table {
    Table(s.cols.keys, s.cols.vals, s.pk, map[], map[])
  }

  lemma CreateRuns(db: DB, k: string, s: Schema)
    requires k !in db && SchemaOk(s)
    ensures Exec(db, CreateTable(k, s.cols.keys, s.cols.vals, s.pk)) == Some(db[k := Bare(s)])
  {
  }

  lemma NothingCreated(s: Schema)
    requires SchemaOk(s)
    ensures map[] == map[] + CreatedUpTo(map[], s.indexes, 0)
    ensures map[] + CreatedUpTo(map[], s.indexes, |s.indexes.keys|) == s.indexes.vals
  {
    AllCreated(map[], s.indexes);
    assert forall n :: !SameIndex(map[], s.indexes.vals, n);
    var m := CreatedUpTo(map[], s.indexes, |s.indexes.keys|);
    MapsAgree(m, s.indexes.vals);
  }

  lemma BareIndexed(k: string, s: Schema)
    requires SchemaOk(s)
    ensures RunLocal(Bare(s), IndexCreates(k, map[], s.indexes, 0)) == Some(Fresh(s))
  {
    NothingCreated(s);
    hide CreatedUpTo, PartsIn, RunLocal, IndexCreates, Distinct, Elems;
    IndexCreatesRun(k, Bare(s), map[], map[], s.indexes, 0);
  }

  lemma NewTableRuns(db: DB, k: string, s: Schema)
    requires k !in db && SchemaOk(s)
    ensures Run(db, NewTable(k, s)) == Some(db[k := Fresh(s)])
  {
    CreateRuns(db, k, s);
    hide *;
    var b, ss := Bare(s), IndexCreates(k, map[], s.indexes, 0);
    NewTableIs(k, s);
    RunStep(db, CreateTable(k, s.cols.keys, s.cols.vals, s.pk), ss);
    IndexCreatesAreLocal(k, map[], s.indexes, 0, {});
    BareIndexed(k, s);
    Lift(db[k := b], k, ss, {});
    Overwrite(db, k, b, Fresh(s));
  }

  lemma NewTableIs(k: string, s: Schema)
    ensures NewTable(k, s) == [CreateTable(k, s.cols.keys, s.cols.vals, s.pk)] + IndexCreates(k, map[], s.indexes, 0)
  {
    hide IndexCreates;
  }

  lemma NewStep(c: OMap<Schema>, des: OMap<Desired>, i: nat)
    requires des.Ok() && i < |des.keys|
    ensures var k, q, r := des.keys[i], NewTables(c.vals, des, i), NewTables(c.vals, des, i + 1);
      k in des.vals &&
      if k in c.vals then q == r
      else q.stmts == NewTable(k, des.vals[k].schema) + r.stmts &&
           q.fkAdds == ForeignKeyAdds(k, map[], des.vals[k].schema.fks, 0) + r.fkAdds
  {
    KeyAt(des, i);
    hide NewTable, ForeignKeyAdds, OMap<Desired>.Ok;
  }

  lemma {:induction false} NewTablesRun(c: OMap<Schema>, des: OMap<Desired>, p: Policy, i: nat)
    requires Ready(c, des) && i <= |des.keys|
    ensures Run(NewDB(c, des, p, First(des.keys, i)), NewTables(c.vals, des, i).stmts) ==
      Some(NewDB(c, des, p, First(des.keys, |des.keys|)))
    decreases |des.keys| - i
  {
    ReadyMaps(c, des);
    if i == |des.keys| {
      hide NewDB, Ready;
    } else {
      hide *;
      var k, made := des.keys[i], First(des.keys, i);
      NewStep(c, des, i);
      FirstStep(des.keys, i);
      NewDBStep(c, des, p, made, k);
      NewTablesRun(c, des, p, i + 1);
      if k !in c.vals {
        ReadySchemas(c, des, k);
        NewTableRuns(NewDB(c, des, p, made), k, des.vals[k].schema);
        RunTwo(NewDB(c, des, p, made), NewTable(k, des.vals[k].schema), NewTables(c.vals, des, i + 1).stmts,
          NewDB(c, des, p, made + {k}));
      }
    }
  }

  /* ----- modified tables ----- */

  ghost predicate SomeStuck(c: OMap<Schema>, des: OMap<Desired>, p: Policy, i: nat)
    requires i <= |des.keys|
  {
    exists j :: i <= j < |des.keys| && Stuck(c, des, p, des.keys[j])
  }

  lemma SomeStuckStep(c: OMap<Schema>, des: OMap<Desired>, p: Policy, i: nat)
    requires i < |des.keys|
    ensures SomeStuck(c, des, p, i) <==> Stuck(c, des, p, des.keys[i]) || SomeStuck(c, des, p, i + 1)
  {
    hide Stuck;
  }

  lemma {:induction false} ChangedStmtsRun(c: OMap<Schema>, des: OMap<Desired>, p: Policy, i: nat)
    requires Ready(c, des) && i <= |des.keys| && DBOk(MidDB(c, des, p, First(des.keys, i) * Both(c, des)))
    ensures ChangedTables(c.vals, des, p, i).Ok?
    ensures Run(MidDB(c, des, p, First(des.keys, i) * Both(c, des)), ChangedTables(c.vals, des, p, i).value.stmts) ==
      if SomeStuck(c, des, p, i) then None else Some(MidDB(c, des, p, First(des.keys, |des.keys|) * Both(c, des)))
    decreases |des.keys| - i
  {
    ChangedIsOk(c, des, p, i);
    ReadyMaps(c, des);
    if i == |des.keys| {
      hide MidDB, Ready, DBOk, Stuck;
    } else {
      hide *;
      var k, done := des.keys[i], First(des.keys, i) * Both(c, des);
      var db := MidDB(c, des, p, done);
      ChangedStep(c, des, p, i);
      FirstStep(des.keys, i);
      KeyAt(des, i);
      BothIs(c, des, k);
      SomeStuckStep(c, des, p, i);
      StuckIsBoth(c, des, p, k);
      OneMore(First(des.keys, i), Both(c, des), k);
      if k in c.vals {
        ReadyAt(c, des, k);
        var ss, rest := TableStmts(k, RenamedTable(c, des, k), des.vals[k].schema, p),
          ChangedTables(c.vals, des, p, i + 1).value.stmts;
        TableStage(c, des, p, done, k);
        RunAppend(db, ss, rest);
        if !Stuck(c, des, p, k) {
          RunKeepsDBOk(db, ss);
          ChangedStmtsRun(c, des, p, i + 1);
        }
      } else {
        ChangedStmtsRun(c, des, p, i + 1);
      }
    }
  }

  /* ----- dropped tables ----- */

  lemma DropTableRuns(db: DB, k: string)
    requires k in db
    ensures Exec(db, DropTable(k)) ==
      if exists t, n :: t in db && t != k && n in db[t].fks && db[t].fks[n].refTable == k then None else Some(db - {k})
  {
  }

  // A left-over foreign key of another table points at table g.
  ghost predicate PointedAt(c: OMap<Schema>, des: OMap<Desired>, p: Policy, g: string) {
    exists t, n :: t in c.vals && t != g && n in c.vals[t].fks.vals && Leftover(c, des, p, t, n) &&
      c.vals[t].fks.vals[n].refTable == g
  }

  // Table g is dropped while a left-over foreign key points at it.
  ghost predicate TableBlocked(c: OMap<Schema>, des: OMap<Desired>, p: Policy, g: string) {
    p.table && g in c.vals && g !in des.vals && PointedAt(c, des, p, g)
  }

  lemma PointedAtIs(c: OMap<Schema>, des: OMap<Desired>, p: Policy, g: string)
    ensures PointedAt(c, des, p, g) <==>
      exists t, n :: t in c.vals && t != g && n in c.vals[t].fks.vals && Leftover(c, des, p, t, n) &&
        c.vals[t].fks.vals[n].refTable == g
  {
    hide Leftover;
  }

  lemma TableBlockedIs(c: OMap<Schema>, des: OMap<Desired>, p: Policy, g: string)
    ensures TableBlocked(c, des, p, g) <==> p.table && g in c.vals && g !in des.vals && PointedAt(c, des, p, g)
  {
    hide PointedAt;
  }

  // With table drops permitted, what points at a table that goes is left over, and belongs to a table that stays.
  lemma AimedAt(c: OMap<Schema>, des: OMap<Desired>, p: Policy, gone: set<string>, g: string, t: string, n: string)
    requires Ready(c, des) && p.table && g !in des.vals && gone !! des.vals.Keys
    ensures var db := MidDB(c, des, p, Both(c, des)) - gone;
      t in db && n in db[t].fks && db[t].fks[n].refTable == g <==>
        t in c.vals && n in c.vals[t].fks.vals && Leftover(c, des, p, t, n) && c.vals[t].fks.vals[n].refTable == g
  {
    var all := Both(c, des);
    MidAt(c, des, p, all, t);
    ReadySchemas(c, des, t);
    LeftoverStays(c, des, p, t, n);
    hide MidDB, Ready, Body, WellFormed, SchemaOk, ColumnMap, Distinct, Leftover, Stays, HalfKeys, Keeps;
    if t in c.vals {
      HalfKeysAre(c, des, p, all, t, n);
      KeepsIs(c, des, p, t, n);
      LeftoverIsCurrent(c, des, p, t, n);
      if Stays(c, des, t, n) { StaysIsDesired(c, des, t, n); }
    } else if t in des.vals {
      FreshHasNone(des.vals[t].schema);
    }
  }

  lemma LeftoverStays(c: OMap<Schema>, des: OMap<Desired>, p: Policy, t: string, n: string)
    ensures p.table && t in c.vals && Leftover(c, des, p, t, n) ==> t in des.vals
  {
  }

  lemma MinusTwice(db: DB, a: set<string>, k: string)
    ensures (db - a) - {k} == db - (a + {k})
  {
  }

  // The tables dropped so far.
  function GoneSoFar(c: OMap<Schema>, des: OMap<Desired>, p: Policy, i: nat): (r: set<string>)
    requires i <= |c.keys|
    ensures r !! des.vals.Keys
  {
    if p.table then First(c.keys, i) - des.vals.Keys else {}
  }

  lemma GoneSoFarStep(c: OMap<Schema>, des: OMap<Desired>, p: Policy, i: nat)
    requires Distinct(c.keys) && i < |c.keys|
    ensures GoneSoFar(c, des, p, i + 1) ==
      if p.table && c.keys[i] !in des.vals then GoneSoFar(c, des, p, i) + {c.keys[i]} else GoneSoFar(c, des, p, i)
    ensures c.keys[i] !in GoneSoFar(c, des, p, i)
  {
    FirstStep(c.keys, i);
    OneMore(First(c.keys, i), des.vals.Keys, c.keys[i]);
    hide First;
  }

  ghost predicate SomeTableBlocked(c: OMap<Schema>, des: OMap<Desired>, p: Policy, i: nat)
    requires i <= |c.keys|
  {
    exists j :: i <= j < |c.keys| && TableBlocked(c, des, p, c.keys[j])
  }

  lemma SomeTableBlockedStep(c: OMap<Schema>, des: OMap<Desired>, p: Policy, i: nat)
    requires i < |c.keys|
    ensures SomeTableBlocked(c, des, p, i) <==> TableBlocked(c, des, p, c.keys[i]) || SomeTableBlocked(c, des, p, i + 1)
  {
    hide TableBlocked;
  }

  lemma OneTableDrop(c: OMap<Schema>, des: OMap<Desired>, p: Policy, gone: set<string>, k: string)
    requires Ready(c, des) && p.table && k in c.vals && k !in des.vals && gone !! des.vals.Keys && k !in gone
    ensures var db := MidDB(c, des, p, Both(c, des)) - gone;
      Exec(db, DropTable(k)) == if TableBlocked(c, des, p, k) then None else Some(db - {k})
  {
    hide *;
    var db := MidDB(c, des, p, Both(c, des)) - gone;
    MidAt(c, des, p, Both(c, des), k);
    DropTableRuns(db, k);
    PointedAtIs(c, des, p, k);
    TableBlockedIs(c, des, p, k);
    forall t, n
      ensures t in db && n in db[t].fks && db[t].fks[n].refTable == k <==>
        t in c.vals && n in c.vals[t].fks.vals && Leftover(c, des, p, t, n) && c.vals[t].fks.vals[n].refTable == k
    {
      AimedAt(c, des, p, gone, k, t, n);
    }
  }

  lemma {:induction false} TableDropStmtsRun(c: OMap<Schema>, des: OMap<Desired>, p: Policy, i: nat)
    requires Ready(c, des) && i <= |c.keys|
    ensures Run(MidDB(c, des, p, Both(c, des)) - GoneSoFar(c, des, p, i), GoneTables(c, des.vals, p.table, i).drops) ==
      if SomeTableBlocked(c, des, p, i) then None
        else Some(MidDB(c, des, p, Both(c, des)) - GoneSoFar(c, des, p, |c.keys|))
    decreases |c.keys| - i
  {
    hide *;
    ReadyMaps(c, des);
    if i == |c.keys| {
      NoMoreDrops(c, des, p);
      RunNothing(MidDB(c, des, p, Both(c, des)) - GoneSoFar(c, des, p, i));
    } else {
      var k, all, gone := c.keys[i], MidDB(c, des, p, Both(c, des)), GoneSoFar(c, des, p, i);
      GoneStep(c, des, p.table, i);
      GoneSoFarStep(c, des, p, i);
      SomeTableBlockedStep(c, des, p, i);
      TableDropStmtsRun(c, des, p, i + 1);
      if k !in des.vals && p.table {
        OneTableDrop(c, des, p, gone, k);
        MinusTwice(all, gone, k);
        RunStep(all - gone, DropTable(k), GoneTables(c, des.vals, p.table, i + 1).drops);
      } else {
        TableBlockedIs(c, des, p, k);
      }
    }
  }

  lemma NoMoreDrops(c: OMap<Schema>, des: OMap<Desired>, p: Policy)
    ensures GoneTables(c, des.vals, p.table, |c.keys|).drops == [] && !SomeTableBlocked(c, des, p, |c.keys|)
  {
  }
}
