/** A table plan runs, stays legal at every step, and ends in the desired schema. */
module SchemaPlan {
  import opened Common
  import opened SortedNames
  import opened SchemaModel
  import opened SchemaSpec
  import opened SchemaLocal
  import opened SchemaLegal
  import opened SchemaRename
  import opened SchemaRenamed
  import opened SchemaStages
  import opened SchemaState
  import opened SchemaSteps
  import opened SchemaBuckets
  import opened SchemaAdds

  // The current schema once its tables are renamed.
  function AfterRenames(cur: OMap<Schema>, des: OMap<Desired>): OMap<Schema>
    requires RenamePairs(cur.vals.Keys, des.keys, TableFrom(des)).Ok?
  {
    RenameTables(cur, RenamePairs(cur.vals.Keys, des.keys, TableFrom(des)).value)
  }

  // Names that differ at all differ in more than case. MySQL folds column, index and constraint names, the model
  // does not.
  ghost predicate CaseSafe(names: set<string>) {
    forall x, y :: x in names && y in names && EqualFold(x, y) ==> x == y
  }

  // Among such names, looking one up exactly is looking it up as MySQL does.
  lemma ExactIsFolded(names: set<string>, have: set<string>, n: string)
    requires CaseSafe(names) && have <= names && n in names
    ensures n in have <==> exists x :: x in have && EqualFold(x, n)
  {
    if n in have { assert EqualFold(n, n); }
    if x :| x in have && EqualFold(x, n) { assert x in names; }
  }

  function ColumnsOf(m: map<string, Schema>, k: string): set<string> {
    if k in m then m[k].cols.vals.Keys else {}
  }

  function IndexesOf(m: map<string, Schema>, k: string): set<string> {
    if k in m then m[k].indexes.vals.Keys else {}
  }

  function KeyNames(m: map<string, Schema>): set<string> {
    set k, n | k in m && n in m[k].fks.vals :: n
  }

  // No table has, now or as desired, two columns or two indexes told apart by case, nor the database two foreign keys.
  ghost predicate NamesDiffer(cur: map<string, Schema>, des: map<string, Schema>) {
    (forall k :: k in des ==>
      CaseSafe(ColumnsOf(cur, k) + ColumnsOf(des, k)) && CaseSafe(IndexesOf(cur, k) + IndexesOf(des, k))) &&
    CaseSafe(KeyNames(cur) + KeyNames(des))
  }

  // The database the plan is made for, and what it is made to become.
  ghost predicate Given(cur: OMap<Schema>, des: OMap<Desired>, p: Policy) {
    cur.Ok() && WellFormed(cur.vals) && des.Ok() && WellFormed(Schemas(des)) && DiffTables(cur, des, p).Ok? &&
    (RenamePairs(cur.vals.Keys, des.keys, TableFrom(des)).Ok? ==>
      NamesDiffer(AfterRenames(cur, des).vals, Schemas(des)))
  }

  lemma PlanIs(cur: OMap<Schema>, des: OMap<Desired>, p: Policy)
    requires DiffTables(cur, des, p).Ok?
    ensures RenamePairs(cur.vals.Keys, des.keys, TableFrom(des)).Ok?
    ensures var c := AfterRenames(cur, des);
      ChangedTables(c.vals, des, p, 0).Ok? &&
      var n, m, g := NewTables(c.vals, des, 0), ChangedTables(c.vals, des, p, 0).value,
        GoneTables(c, des.vals, p.table, 0);
      DiffTables(cur, des, p).value ==
        Plan(TableRenames(RenamePairs(cur.vals.Keys, des.keys, TableFrom(des)).value),
          m.fkDrops + g.fkDrops, n.stmts + m.stmts, g.drops, n.fkAdds + m.fkAdds)
  {
    hide RenamePairs, RenameTables, NewTables, ChangedTables, GoneTables, TableFrom;
  }

  // No directive is refused in any table the plan changes.
  lemma {:induction false} NoneRefused(c: map<string, Schema>, des: OMap<Desired>, p: Policy, i: nat, k: string)
    requires i <= |des.keys| && ChangedTables(c, des, p, i).Ok? && k in des.keys[i..] && k in c && k in des.vals
    ensures RenameWithin(c, des, k).Ok?
    decreases |des.keys| - i
  {
    if des.keys[i] != k {
      assert k in des.keys[i + 1..];
      hide RenameWithin, TablePlan;
      NoneRefused(c, des, p, i + 1, k);
    }
  }

  // The table renames run, and leave the planner and the database with the same schema.
  lemma TableRenameStage(cur: OMap<Schema>, des: OMap<Desired>, p: Policy)
    requires Given(cur, des, p)
    ensures RenamePairs(cur.vals.Keys, des.keys, TableFrom(des)).Ok?
    ensures Run(AsDB(cur.vals), DiffTables(cur, des, p).value.renames) == Some(AsDB(AfterRenames(cur, des).vals))
    ensures Ready(AfterRenames(cur, des), des)
  {
    GivenIs(cur, des, p);
    hide *;
    PlanIs(cur, des, p);
    var ps, c := RenamePairs(cur.vals.Keys, des.keys, TableFrom(des)).value, AfterRenames(cur, des);
    AcceptedArePairing(cur.vals.Keys, des.keys, TableFrom(des));
    TableRenamesRun(cur, ps);
    RunKeepsDBOk(AsDB(cur.vals), TableRenames(ps));
    AfterRenamesIs(cur, des);
    forall k | k in c.vals && k in des.vals ensures RenameWithin(c.vals, des, k).Ok? {
      InKeys(des, k);
      NoneRefused(c.vals, des, p, 0, k);
    }
    ReadyIs(c, des);
  }

  lemma AfterRenamesIs(cur: OMap<Schema>, des: OMap<Desired>)
    requires RenamePairs(cur.vals.Keys, des.keys, TableFrom(des)).Ok?
    ensures AfterRenames(cur, des) == RenameTables(cur, RenamePairs(cur.vals.Keys, des.keys, TableFrom(des)).value)
  {
    hide RenamePairs, RenameTables, TableFrom;
  }

  lemma ReadyIs(c: OMap<Schema>, des: OMap<Desired>)
    requires c.Ok() && SchemasOk(c.vals) && DBOk(AsDB(c.vals)) && des.Ok() && WellFormed(Schemas(des))
    requires forall k :: k in c.vals && k in des.vals ==> RenameWithin(c.vals, des, k).Ok?
    ensures Ready(c, des)
  {
    hide RenameWithin, SchemasOk, DBOk, Schemas, OMap<Schema>.Ok, OMap<Desired>.Ok;
  }

  lemma InKeys<V>(m: OMap<V>, k: string)
    requires m.Ok() && k in m.vals
    ensures k in m.keys[0..]
  {
    assert k in Elems(m.keys);
  }

  lemma DropDBEnds(c: OMap<Schema>, des: OMap<Desired>, p: Policy)
    requires c.Ok() && des.Ok()
    ensures DropDB(c, des, p, {}) == AsDB(c.vals)
    ensures First(des.keys, 0) == {} && First(des.keys, |des.keys|) == des.vals.Keys && First(c.keys, 0) == {}
    ensures des.vals.Keys + First(c.keys, 0) == des.vals.Keys
  {
    FirstEnds(des);
    FirstEnds(c);
    hide AsTable, HalfKeys, OMap<Schema>.Ok, OMap<Desired>.Ok, First;
  }

  // Foreign key drops.
  lemma DropStage(c: OMap<Schema>, des: OMap<Desired>, p: Policy)
    requires Ready(c, des)
    ensures ChangedTables(c.vals, des, p, 0).Ok?
    ensures Run(AsDB(c.vals), ChangedTables(c.vals, des, p, 0).value.fkDrops +
      GoneTables(c, des.vals, p.table, 0).fkDrops) ==
      Some(NewDB(c, des, p, {}))
  {
    hide *;
    ReadyMaps(c, des);
    DropDBEnds(c, des, p);
    NewDBStarts(c, des, p);
    ChangedDropsRun(c, des, p, 0);
    GoneDropsRun(c, des, p, 0);
    RunTwo(AsDB(c.vals), ChangedTables(c.vals, des, p, 0).value.fkDrops, GoneTables(c, des.vals, p.table, 0).fkDrops,
      DropDB(c, des, p, First(des.keys, |des.keys|)));
  }

  lemma BothSets(c: OMap<Schema>, des: OMap<Desired>)
    ensures {} * Both(c, des) == {} && des.vals.Keys * Both(c, des) == Both(c, des)
  {
  }

  // Table creations, then table changes.
  lemma TableStages(c: OMap<Schema>, des: OMap<Desired>, p: Policy)
    requires Ready(c, des) && DBOk(NewDB(c, des, p, {}))
    ensures ChangedTables(c.vals, des, p, 0).Ok?
    ensures Run(NewDB(c, des, p, {}), NewTables(c.vals, des, 0).stmts + ChangedTables(c.vals, des, p, 0).value.stmts) ==
      if SomeStuck(c, des, p, 0) then None else Some(MidDB(c, des, p, Both(c, des)))
  {
    hide *;
    ReadyMaps(c, des);
    FirstEnds(des);
    BothSets(c, des);
    NewDBEnds(c, des, p);
    NewTablesRun(c, des, p, 0);
    RunKeepsDBOk(NewDB(c, des, p, {}), NewTables(c.vals, des, 0).stmts);
    ChangedStmtsRun(c, des, p, 0);
    RunTwo(NewDB(c, des, p, {}), NewTables(c.vals, des, 0).stmts, ChangedTables(c.vals, des, p, 0).value.stmts,
      MidDB(c, des, p, {}));
  }

  lemma NothingGone(db: DB)
    ensures db - {} == db
  {
  }

  // Table drops, then foreign key adds.
  lemma LastStages(c: OMap<Schema>, des: OMap<Desired>, p: Policy)
    requires Ready(c, des)
    ensures ChangedTables(c.vals, des, p, 0).Ok?
    ensures Run(MidDB(c, des, p, Both(c, des)), GoneTables(c, des.vals, p.table, 0).drops) ==
      if SomeTableBlocked(c, des, p, 0) then None else Some(AddDB(c, des, p, {}))
    ensures Run(AddDB(c, des, p, {}), NewTables(c.vals, des, 0).fkAdds +
      ChangedTables(c.vals, des, p, 0).value.fkAdds) ==
      if NameTaken(c, des, p) then None else Some(AddDB(c, des, p, des.vals.Keys))
  {
    hide *;
    ReadyMaps(c, des);
    ChangedIsOk(c, des, p, 0);
    FirstEnds(des);
    AllGone(c, des, p);
    NothingGone(MidDB(c, des, p, Both(c, des)));
    TableDropStmtsRun(c, des, p, 0);
    AddDBStarts(c, des, p);
    if NameTaken(c, des, p) {
      AddsBlocked(c, des, p);
    } else {
      NewAddsRun(c, des, p, 0);
      ChangedAddsRun(c, des, p, 0);
      AddSets(c, des);
      RunTwo(AddDB(c, des, p, {}), NewTables(c.vals, des, 0).fkAdds, ChangedTables(c.vals, des, p, 0).value.fkAdds,
        AddDB(c, des, p, des.vals.Keys - c.vals.Keys));
    }
  }

  lemma AddSets(c: OMap<Schema>, des: OMap<Desired>)
    ensures {} - c.vals.Keys == {} && (des.vals.Keys - c.vals.Keys) + {} == des.vals.Keys - c.vals.Keys
    ensures (des.vals.Keys - c.vals.Keys) + des.vals.Keys == des.vals.Keys
  {
  }

  // The database a plan leaves.
  function FinalDB(cur: OMap<Schema>, des: OMap<Desired>, p: Policy): DB
    requires RenamePairs(cur.vals.Keys, des.keys, TableFrom(des)).Ok?
  {
    AddDB(AfterRenames(cur, des), des, p, des.vals.Keys)
  }

  // What stops a script: a table that changes a primary key of which every column is dropped, or a foreign key
  // left in place for lack of permission that names a dropped column, a dropped table or a name to be added.
  ghost predicate Stopped(cur: OMap<Schema>, des: OMap<Desired>, p: Policy)
    requires RenamePairs(cur.vals.Keys, des.keys, TableFrom(des)).Ok?
  {
    var c := AfterRenames(cur, des);
    (exists k :: k in des.vals && Stuck(c, des, p, k)) || (exists g :: g in c.vals && TableBlocked(c, des, p, g)) ||
      NameTaken(c, des, p)
  }

  lemma KeysAre<V>(m: OMap<V>)
    requires m.Ok()
    ensures forall k :: k in m.vals ==> exists j :: 0 <= j < |m.keys| && m.keys[j] == k
    ensures forall j :: 0 <= j < |m.keys| ==> m.keys[j] in m.vals
  {
    forall k | k in m.vals ensures exists j :: 0 <= j < |m.keys| && m.keys[j] == k { assert k in Elems(m.keys); }
    forall j | 0 <= j < |m.keys| ensures m.keys[j] in m.vals { assert m.keys[j] in Elems(m.keys); }
  }

  lemma StuckSomewhere(c: OMap<Schema>, des: OMap<Desired>, p: Policy)
    requires c.Ok() && des.Ok()
    ensures SomeStuck(c, des, p, 0) <==> exists k :: k in des.vals && Stuck(c, des, p, k)
    ensures SomeTableBlocked(c, des, p, 0) <==> exists g :: g in c.vals && TableBlocked(c, des, p, g)
  {
    KeysAre(des);
    KeysAre(c);
    hide Stuck, TableBlocked, OMap<Schema>.Ok, OMap<Desired>.Ok;
  }

  lemma StoppedIs(cur: OMap<Schema>, des: OMap<Desired>, p: Policy)
    requires des.Ok() && RenamePairs(cur.vals.Keys, des.keys, TableFrom(des)).Ok? && AfterRenames(cur, des).Ok()
    ensures var c := AfterRenames(cur, des);
      Stopped(cur, des, p) <==> SomeStuck(c, des, p, 0) || SomeTableBlocked(c, des, p, 0) || NameTaken(c, des, p)
  {
    StuckSomewhere(AfterRenames(cur, des), des, p);
    hide Stuck, TableBlocked, NameTaken, SomeStuck, SomeTableBlocked, AfterRenames, RenamePairs, OMap<Schema>.Ok,
      OMap<Desired>.Ok;
  }

  lemma ScriptRuns(db: DB, plan: Plan, d1: DB, d2: DB, d3: Option<DB>, d4: Option<DB>, d5: Option<DB>)
    requires Run(db, plan.renames) == Some(d1) && Run(d1, plan.fkDrops) == Some(d2) && Run(d2, plan.stmts) == d3
    requires d3.Some? ==> Run(d3.value, plan.drops) == d4
    requires d4.Some? ==> Run(d4.value, plan.fkAdds) == d5
    ensures Run(db, Script(plan)) == if d3.None? || d4.None? then None else d5
  {
    hide Run;
    var a := plan.renames + plan.fkDrops;
    RunAppend(db, plan.renames, plan.fkDrops);
    RunAppend(db, a, plan.stmts);
    RunAppend(db, a + plan.stmts, plan.drops);
    RunAppend(db, a + plan.stmts + plan.drops, plan.fkAdds);
  }

  // The whole plan, under any policy: it runs exactly when nothing stops it, and then leaves FinalDB.
  lemma PlanRuns(cur: OMap<Schema>, des: OMap<Desired>, p: Policy)
    requires Given(cur, des, p)
    ensures RenamePairs(cur.vals.Keys, des.keys, TableFrom(des)).Ok?
    ensures Run(AsDB(cur.vals), Script(DiffTables(cur, des, p).value)) ==
      if Stopped(cur, des, p) then None else Some(FinalDB(cur, des, p))
  {
    hide *;
    GivenIs(cur, des, p);
    PlanIs(cur, des, p);
    TableRenameStage(cur, des, p);
    var c, plan := AfterRenames(cur, des), DiffTables(cur, des, p).value;
    DropStage(c, des, p);
    ReadyMaps(c, des);
    StoppedIs(cur, des, p);
    RunKeepsDBOk(AsDB(cur.vals), plan.renames);
    RunKeepsDBOk(AsDB(c.vals), plan.fkDrops);
    TableStages(c, des, p);
    LastStages(c, des, p);
    FinalIs(cur, des, p);
    ScriptRuns(AsDB(cur.vals), plan, AsDB(c.vals), NewDB(c, des, p, {}),
      if SomeStuck(c, des, p, 0) then None else Some(MidDB(c, des, p, Both(c, des))),
      if SomeTableBlocked(c, des, p, 0) then None else Some(AddDB(c, des, p, {})),
      if NameTaken(c, des, p) then None else Some(AddDB(c, des, p, des.vals.Keys)));
  }

  lemma GivenIs(cur: OMap<Schema>, des: OMap<Desired>, p: Policy)
    requires Given(cur, des, p)
    ensures cur.Ok() && SchemasOk(cur.vals) && DBOk(AsDB(cur.vals)) && des.Ok() && Distinct(des.keys) &&
      WellFormed(Schemas(des))
    ensures DiffTables(cur, des, p).Ok?
  {
    hide DiffTables, SchemasOk, DBOk, RenamePairs, NamesDiffer;
  }

  lemma FinalIs(cur: OMap<Schema>, des: OMap<Desired>, p: Policy)
    requires RenamePairs(cur.vals.Keys, des.keys, TableFrom(des)).Ok?
    ensures FinalDB(cur, des, p) == AddDB(AfterRenames(cur, des), des, p, des.vals.Keys)
  {
    hide AddDB, AfterRenames;
  }

  /* ----- with foreign key and table drops permitted ----- */

  // Some table changes a primary key of which every column is dropped.
  ghost predicate AnyTrap(cur: OMap<Schema>, des: OMap<Desired>, p: Policy)
    requires RenamePairs(cur.vals.Keys, des.keys, TableFrom(des)).Ok?
  {
    exists k :: k in des.vals && Trapped(AfterRenames(cur, des), des, p, k)
  }

  lemma NothingLeftOver(c: OMap<Schema>, des: OMap<Desired>, p: Policy)
    requires p.table && p.foreignKey
    ensures forall t, n :: t in c.vals ==> !Leftover(c, des, p, t, n)
  {
  }

  // Then a trapped key is all that can stop the script.
  lemma OnlyTraps(cur: OMap<Schema>, des: OMap<Desired>, p: Policy)
    requires RenamePairs(cur.vals.Keys, des.keys, TableFrom(des)).Ok? && p.table && p.foreignKey
    ensures Stopped(cur, des, p) <==> AnyTrap(cur, des, p)
  {
    var c := AfterRenames(cur, des);
    NothingLeftOver(c, des, p);
    hide Leftover, RenamePairs, AfterRenames;
    forall k, x ensures !HeldBack(c, des, p, k, x) {}
    forall k ensures !ColumnBlocked(c, des, p, k) { hide HeldBack, RenameWithin, GoneCols; }
    forall g ensures !TableBlocked(c, des, p, g) {}
    assert LeftoverNames(c, des, p) == {};
    assert !NameTaken(c, des, p);
    hide HeldBack, ColumnBlocked, TableBlocked, NameTaken, Trapped, LeftoverNames;
  }
}
