/** Each bucket of a table plan takes the database from one state to the next. */
module SchemaSteps {
  import opened Common
  import opened SortedNames
  import opened SchemaModel
  import opened SchemaSpec
  import opened SchemaLocal
  import opened SchemaLegal
  import opened SchemaRename
  import opened SchemaRenamed
  import opened SchemaStages
  import opened SchemaState

  /* ----- one modified table ----- */

  lemma IndexRenamesAreLocal(k: string, ps: seq<Pair>)
    ensures LocalOn(IndexRenames(k, ps), k, {})
  {
  }

  lemma UnindexedRuns(c: OMap<Schema>, des: OMap<Desired>, p: Policy, done: set<string>, k: string)
    requires Ready(c, des) && k in Both(c, des)
    ensures RunLocal(Unindexed(c, des, p, done, k), IndexRenames(k, RenamedTable(c, des, k).indexes)) ==
      Some(Shown(c, des, p, done, k))
  {
    var u, r := Unindexed(c, des, p, done, k), RenamedTable(c, des, k);
    ReadySchemas(c, des, k);
    RenamedIs(c.vals, des, k);
    RenamedIndexes(c.vals[k], des.vals[k], r.indexes);
    hide RunLocal, Ready, RenameWithin, ColumnsPaired, SchemaOk, HalfKeys, Pairing, RenameKeys, SubIndexes,
      SubForeignKeys, ColumnMap, IndexRenames;
    IndexRenamesRun(k, u, r.indexes);
  }

  lemma IndexStage(c: OMap<Schema>, des: OMap<Desired>, p: Policy, done: set<string>, k: string)
    requires Ready(c, des) && k in Both(c, des)
    ensures Run(MidDB(c, des, p, done)[k := Unindexed(c, des, p, done, k)],
      IndexRenames(k, RenamedTable(c, des, k).indexes)) ==
      Some(MidDB(c, des, p, done)[k := Shown(c, des, p, done, k)])
  {
    hide *;
    BothIs(c, des, k);
    ReadyAt(c, des, k);
    var db, u, ss := MidDB(c, des, p, done), Unindexed(c, des, p, done, k),
      IndexRenames(k, RenamedTable(c, des, k).indexes);
    IndexRenamesAreLocal(k, RenamedTable(c, des, k).indexes);
    UnindexedRuns(c, des, p, done, k);
    Lift(db[k := u], k, ss, {});
    Overwrite(db, k, u, Shown(c, des, p, done, k));
  }

  lemma ReadyAt(c: OMap<Schema>, des: OMap<Desired>, k: string)
    requires Ready(c, des)
    ensures k in c.vals && k in des.vals ==> RenameWithin(c.vals, des, k).Ok?
  {
    hide RenameWithin;
  }

  // A foreign key of table t names column x of table k, on either side.
  predicate Holds(fk: ForeignKey, t: string, k: string, x: string) {
    (t == k && x in fk.cols) || (fk.refTable == k && x in fk.refCols)
  }

  lemma InUseIsHeld(db: DB, k: string, x: string)
    ensures ColumnInUse(db, k, x) <==> exists t, n :: t in db && n in db[t].fks && Holds(db[t].fks[n], t, k, x)
  {
  }

  // A foreign key that is left over names column x of table k.
  ghost predicate HeldBack(c: OMap<Schema>, des: OMap<Desired>, p: Policy, k: string, x: string) {
    exists t, n :: t in c.vals && n in c.vals[t].fks.vals && Leftover(c, des, p, t, n) &&
      Holds(SubForeignKey(c.vals, des, t, c.vals[t].fks.vals[n]), t, k, x)
  }

  // Once the columns of k are renamed, a foreign key names them as the planner does.
  lemma HalfHolds(c: OMap<Schema>, des: OMap<Desired>, done: set<string>, k: string, t: string,
    fk: ForeignKey, x: string)
    requires k in Both(c, des) && k in done
    ensures Holds(Half(des, done, t, fk), t, k, x) <==> Holds(SubForeignKey(c.vals, des, t, fk), t, k, x)
  {
    hide SubNames, ColumnMap;
  }

  // A foreign key that stays names only columns that stay.
  lemma StaysAvoids(c: OMap<Schema>, des: OMap<Desired>, k: string, t: string, n: string, x: string)
    requires Ready(c, des) && k in Both(c, des) && t in c.vals && Stays(c, des, t, n) &&
      x !in des.vals[k].schema.cols.vals
    ensures n in c.vals[t].fks.vals && !Holds(SubForeignKey(c.vals, des, t, c.vals[t].fks.vals[n]), t, k, x)
  {
    ReadySchemas(c, des, k);
    StaysIsDesired(c, des, t, n);
    DesiredKey(des, t, n);
    assert SubForeignKey(c.vals, des, t, c.vals[t].fks.vals[n]) == des.vals[t].schema.fks.vals[n];
    hide Ready, WellFormed, SchemaOk, Stays, SubForeignKey, RenameWithin, Distinct, SubNames, ColumnMap;
  }

  // While table k is changed, a column desired lacks is in use exactly when a left-over foreign key names it.
  lemma InUseInMid(c: OMap<Schema>, des: OMap<Desired>, p: Policy, done: set<string>, k: string, x: string)
    requires Ready(c, des) && k in Both(c, des) && k in done && x !in des.vals[k].schema.cols.vals
    ensures ColumnInUse(MidDB(c, des, p, done), k, x) <==> HeldBack(c, des, p, k, x)
  {
    hide *;
    var db := MidDB(c, des, p, done);
    InUseIsHeld(db, k, x);
    HeldBackIs(c, des, p, k, x);
    forall t, n
      ensures t in db && n in db[t].fks && Holds(db[t].fks[n], t, k, x) <==>
        t in c.vals && n in c.vals[t].fks.vals && Leftover(c, des, p, t, n) &&
        Holds(SubForeignKey(c.vals, des, t, c.vals[t].fks.vals[n]), t, k, x)
    {
      HeldAt(c, des, p, done, k, x, t, n);
    }
  }

  lemma HeldBackIs(c: OMap<Schema>, des: OMap<Desired>, p: Policy, k: string, x: string)
    ensures HeldBack(c, des, p, k, x) <==>
      exists t, n :: t in c.vals && n in c.vals[t].fks.vals && Leftover(c, des, p, t, n) &&
        Holds(SubForeignKey(c.vals, des, t, c.vals[t].fks.vals[n]), t, k, x)
  {
    hide Leftover, Holds, SubForeignKey;
  }

  lemma HeldAt(c: OMap<Schema>, des: OMap<Desired>, p: Policy, done: set<string>, k: string, x: string,
    t: string, n: string)
    requires Ready(c, des) && k in Both(c, des) && k in done && x !in des.vals[k].schema.cols.vals
    ensures
      t in MidDB(c, des, p, done) && n in MidDB(c, des, p, done)[t].fks &&
      Holds(MidDB(c, des, p, done)[t].fks[n], t, k, x) <==>
      t in c.vals && n in c.vals[t].fks.vals && Leftover(c, des, p, t, n) &&
      Holds(SubForeignKey(c.vals, des, t, c.vals[t].fks.vals[n]), t, k, x)
  {
    MidAt(c, des, p, done, t);
    hide *;
    if t in c.vals {
      HalfKeysAre(c, des, p, done, t, n);
      KeepsIs(c, des, p, t, n);
      LeftoverIsCurrent(c, des, p, t, n);
      if n in c.vals[t].fks.vals { HalfHolds(c, des, done, k, t, c.vals[t].fks.vals[n], x); }
      if Stays(c, des, t, n) { StaysAvoids(c, des, k, t, n, x); }
    } else if t in des.vals {
      FreshHasNone(des.vals[t].schema);
    }
  }

  lemma LeftoverIsCurrent(c: OMap<Schema>, des: OMap<Desired>, p: Policy, k: string, n: string)
    requires k in c.vals
    ensures Leftover(c, des, p, k, n) ==> n in c.vals[k].fks.vals
  {
  }

  lemma FreshHasNone(s: Schema)
    ensures Fresh(s).fks == map[]
  {
  }

  // Table k's key changes after MySQL has already removed it with its columns.
  predicate Trapped(c: OMap<Schema>, des: OMap<Desired>, p: Policy, k: string) {
    k in c.vals && k in des.vals && RenameWithin(c.vals, des, k).Ok? &&
    KeyTrap(RenamedTable(c, des, k).schema, des.vals[k].schema, p)
  }

  lemma ShownIs(c: OMap<Schema>, des: OMap<Desired>, p: Policy, done: set<string>, k: string)
    requires k in c.vals && k in des.vals && RenameWithin(c.vals, des, k).Ok?
    ensures Shows(Shown(c, des, p, done, k), RenamedTable(c, des, k).schema) &&
      Shown(c, des, p, done, k).fks == HalfKeys(c, des, p, done, k)
  {
    hide RenameWithin, HalfKeys;
  }

  // Table k drops a column that a left-over foreign key names.
  ghost predicate ColumnBlocked(c: OMap<Schema>, des: OMap<Desired>, p: Policy, k: string) {
    k in c.vals && k in des.vals && RenameWithin(c.vals, des, k).Ok? &&
    exists x :: x in GoneCols(RenamedTable(c, des, k).schema, des.vals[k].schema, p) && HeldBack(c, des, p, k, x)
  }

  lemma ColumnBlockedIs(c: OMap<Schema>, des: OMap<Desired>, p: Policy, k: string)
    requires k in c.vals && k in des.vals && RenameWithin(c.vals, des, k).Ok?
    ensures ColumnBlocked(c, des, p, k) <==>
      exists x :: x in GoneCols(RenamedTable(c, des, k).schema, des.vals[k].schema, p) && HeldBack(c, des, p, k, x)
  {
    hide RenameWithin, GoneCols, HeldBack;
  }

  // The statements of table k do not run.
  ghost predicate Stuck(c: OMap<Schema>, des: OMap<Desired>, p: Policy, k: string) {
    Trapped(c, des, p, k) || ColumnBlocked(c, des, p, k)
  }

  lemma StuckIs(c: OMap<Schema>, des: OMap<Desired>, p: Policy, k: string)
    ensures Stuck(c, des, p, k) <==> Trapped(c, des, p, k) || ColumnBlocked(c, des, p, k)
  {
    hide Trapped, ColumnBlocked;
  }

  lemma StuckIsBoth(c: OMap<Schema>, des: OMap<Desired>, p: Policy, k: string)
    ensures Stuck(c, des, p, k) ==> k in Both(c, des)
  {
    BothIs(c, des, k);
    hide RenameWithin, KeyTrap, HeldBack, GoneCols, Both;
  }

  // Every column that goes has its DROP COLUMN.
  lemma GoneIsDropped(k: string, c: Schema, d: Schema, p: Policy, x: string)
    requires x in GoneCols(c, d, p)
    ensures exists i :: 0 <= i < |LocalStmts(k, c, d, p)| && LocalStmts(k, c, d, p)[i] == DropColumn(k, x)
  {
    LocalStmtsAre(k, c, d, p);
    var gone := Gone<string, string>(c.cols.keys, d.cols.vals);
    var j :| 0 <= j < |gone| && gone[j] == x;
    var adds, drops := ColumnAdds(k, c.cols.vals, d.cols, 0), ColumnDrops(k, gone);
    var rest := (KeyDrop(k, c.pk, d.pk, p.constraint) + KeyAdd(k, c.pk, d.pk)) +
      (IndexDrops(k, c.indexes, d.indexes, p.index, GoneCols(c, d, p), 0) +
        IndexCreates(k, c.indexes.vals, d.indexes, 0));
    assert p.column && drops[j] == DropColumn(k, x);
    hide *;
    StandsAt(adds, drops, rest, j);
  }

  lemma StandsAt(a: seq<Stmt>, b: seq<Stmt>, c: seq<Stmt>, j: nat)
    requires j < |b|
    ensures |a| + j < |(a + b) + c| && ((a + b) + c)[|a| + j] == b[j]
  {
  }

  lemma UseSurvives(db: DB, k: string, u: Table, x: string)
    requires k in db && u.fks == db[k].fks
    ensures ColumnInUse(db[k := u], k, x) <==> ColumnInUse(db, k, x)
  {
    hide ColumnInUse;
    InUseIsForeignKeys(db, k, u, x);
  }

  lemma LocalStage(c: OMap<Schema>, des: OMap<Desired>, p: Policy, done: set<string>, k: string)
    requires Ready(c, des) && k in Both(c, des) && k in done
    requires DBOk(MidDB(c, des, p, done)[k := Shown(c, des, p, done, k)])
    ensures Run(MidDB(c, des, p, done)[k := Shown(c, des, p, done, k)],
      LocalStmts(k, RenamedTable(c, des, k).schema, des.vals[k].schema, p)) ==
      if Stuck(c, des, p, k) then None else Some(MidDB(c, des, p, done))
  {
    hide *;
    BothIs(c, des, k);
    ReadyAt(c, des, k);
    ReadySchemas(c, des, k);
    var db, u, r, d := MidDB(c, des, p, done), Shown(c, des, p, done, k), RenamedTable(c, des, k).schema,
      des.vals[k].schema;
    var e, ss, gone := db[k := u], LocalStmts(k, r, d, p), GoneCols(r, d, p);
    IsOk(c, des, k);
    ShownIs(c, des, p, done, k);
    LocalStmtsAreLocal(k, r, d, p);
    GoneColsAre(r, d, p);
    MidAt(c, des, p, done, k);
    StuckIs(c, des, p, k);
    ColumnBlockedIs(c, des, p, k);
    forall x | x in gone ensures ColumnInUse(e, k, x) <==> HeldBack(c, des, p, k, x) {
      InUseInMid(c, des, p, done, k, x);
      UseSurvives(db, k, u, x);
    }
    if ColumnBlocked(c, des, p, k) {
      var x :| x in gone && HeldBack(c, des, p, k, x);
      GoneIsDropped(k, r, d, p, x);
      var i :| 0 <= i < |ss| && ss[i] == DropColumn(k, x);
      BlockedByColumn(e, k, ss, gone, i);
    } else {
      TableOkHas(e, k);
      LocalRuns(k, u, r, d, p);
      Lift(e, k, ss, gone);
      TrappedIs(c, des, p, k);
      FinalIsBody(c, des, p, done, k);
      Overwrite(db, k, u, db[k]);
      SameTable(db, k, db[k]);
    }
  }

  lemma IsOk(c: OMap<Schema>, des: OMap<Desired>, k: string)
    requires k in c.vals && k in des.vals && RenameWithin(c.vals, des, k).Ok? && SchemaOk(c.vals[k]) &&
      SchemaOk(des.vals[k].schema)
    ensures SchemaOk(RenamedTable(c, des, k).schema)
  {
    hide RenameWithin, SchemaOk;
    RenamedOk(c.vals, des, k);
  }

  lemma TableOkHas(db: DB, k: string)
    requires DBOk(db) && k in db
    ensures TableOk(db[k]) && ColsOk(db[k])
  {
  }

  lemma TrappedIs(c: OMap<Schema>, des: OMap<Desired>, p: Policy, k: string)
    requires k in c.vals && k in des.vals && RenameWithin(c.vals, des, k).Ok?
    ensures Trapped(c, des, p, k) <==> KeyTrap(RenamedTable(c, des, k).schema, des.vals[k].schema, p)
  {
    hide RenameWithin, KeyTrap;
  }

  lemma FinalIsBody(c: OMap<Schema>, des: OMap<Desired>, p: Policy, done: set<string>, k: string)
    requires k in done && k in c.vals && k in des.vals && RenameWithin(c.vals, des, k).Ok?
    ensures Body(c, des, p, done, k) == FinalTable(
      Shown(c, des, p, done, k), RenamedTable(c, des, k).schema, des.vals[k].schema, p)
  {
    hide RenameWithin, Shown, FinalTable;
  }

  function TableStmts(k: string, r: Renamed, d: Schema, p: Policy): seq<Stmt> {
    ColumnRenames(k, r.cols) + IndexRenames(k, r.indexes) + LocalStmts(k, r.schema, d, p)
  }

  lemma TableStage(c: OMap<Schema>, des: OMap<Desired>, p: Policy, done: set<string>, k: string)
    requires Ready(c, des) && k in Both(c, des) && k !in done && DBOk(MidDB(c, des, p, done))
    ensures Run(MidDB(c, des, p, done), TableStmts(k, RenamedTable(c, des, k), des.vals[k].schema, p)) ==
      if Stuck(c, des, p, k) then None else Some(MidDB(c, des, p, done + {k}))
  {
    hide *;
    BothIs(c, des, k);
    ReadyAt(c, des, k);
    var db, r := MidDB(c, des, p, done), RenamedTable(c, des, k);
    var next := MidDB(c, des, p, done + {k});
    var s1, s2, s3 := ColumnRenames(k, r.cols), IndexRenames(k, r.indexes),
      LocalStmts(k, r.schema, des.vals[k].schema, p);
    var d1, d2 := next[k := Unindexed(c, des, p, done + {k}, k)], next[k := Shown(c, des, p, done + {k}, k)];
    ColumnStage(c, des, p, done, k);
    IndexStage(c, des, p, done + {k}, k);
    RunTwo(db, s1, s2, d1);
    RunKeepsDBOk(db, s1 + s2);
    LocalStage(c, des, p, done + {k}, k);
    RunTwo(db, s1 + s2, s3, d2);
    TableStmtsAre(k, r, des.vals[k].schema, p);
  }

  lemma TableStmtsAre(k: string, r: Renamed, d: Schema, p: Policy)
    ensures TableStmts(k, r, d, p) == ColumnRenames(k, r.cols) + IndexRenames(k, r.indexes) +
      LocalStmts(k, r.schema, d, p)
  {
    hide ColumnRenames, IndexRenames, LocalStmts;
  }
}
