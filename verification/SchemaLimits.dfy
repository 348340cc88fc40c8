/** Inputs on which the table plan falls short: a trapped primary key, a kept foreign key, a directive nobody checks. */
module SchemaLimits {
  import opened Common
  import opened SortedNames
  import opened SchemaModel
  import opened SchemaSpec
  import opened SchemaLocal
  import opened SchemaLegal
  import opened SchemaRename
  import opened SchemaRenamed
  import opened SchemaStages
  import opened SchemaState
  import opened SchemaSteps
  import opened SchemaBuckets
  import opened SchemaAdds
  import opened SchemaPlan
  import opened SchemaFinal
  import opened SchemaReplan

  /* ----- the primary key moves off a column that goes ----- */

  function Key(c: string): seq<Part> {
    [Part(c, "")]
  }

  // CREATE TABLE t (a int, b int, PRIMARY KEY (a))
  function Before(): Schema {
    Schema(OMap(["a", "b"], map["a" := "int", "b" := "int"]), Key("a"), OMap([], map[]), OMap([], map[]))
  }

  // CREATE TABLE t (b int, PRIMARY KEY (b))
  function After(): Schema {
    Schema(OMap(["b"], map["b" := "int"]), Key("b"), OMap([], map[]), OMap([], map[]))
  }

  function TrapCurrent(): OMap<Schema> {
    OMap(["t"], map["t" := Before()])
  }

  function TrapDesired(): OMap<Desired> {
    OMap(["t"], map["t" := Desired(After(), "", map[], map[], map[])])
  }

  function EveryDrop(): Policy {
    Policy(true, true, true, true, true)
  }

  lemma BeforeOk()
    ensures SchemaOk(Before()) && SchemaOk(After())
  {
    assert Elems(["a", "b"]) == {"a", "b"};
    assert Elems(["b"]) == {"b"};
    assert Elems<string>([]) == {};
    assert Before().cols.vals.Keys == {"a", "b"};
    assert After().cols.vals.Keys == {"b"};
    assert "a" != "b";
  }

  lemma OneTableOk(m: map<string, Schema>)
    requires SchemasOk(m) && forall k :: k in m ==> m[k].fks.vals == map[]
    ensures WellFormed(m)
  {
  }

  lemma {:induction false} NoDirectives(names: set<string>, keys: seq<string>, from: map<string, string>, i: nat)
    requires i <= |keys| && forall k :: From(from, k) == ""
    ensures RenameLoop(names, keys, from, i) == Result.Ok([])
    ensures RenamePairs(names, keys, from) == Result.Ok([])
    ensures GuardLoop(names, keys, from, i) == Result.Ok(()) && Guard(names, keys, from) == Result.Ok(())
    decreases |keys| - i
  {
    if i < |keys| { NoDirectives(names, keys, from, i + 1); }
    if 0 < i { NoDirectivesFrom(names, keys, from, 0, i); }
  }

  lemma {:induction false} NoDirectivesFrom(names: set<string>, keys: seq<string>, from: map<string, string>,
    i: nat, j: nat)
    requires i <= j <= |keys| && forall k :: From(from, k) == ""
    ensures RenameLoop(names, keys, from, i) == RenameLoop(names, keys, from, j)
    ensures GuardLoop(names, keys, from, i) == GuardLoop(names, keys, from, j)
    decreases j - i
  {
    if i < j { NoDirectivesFrom(names, keys, from, i + 1, j); }
  }

  lemma NothingToRename()
    ensures RenamePairs({"t"}, ["t"], TableFrom(TrapDesired())) == Result.Ok([])
    ensures RenamePairs({"a", "b"}, ["b"], map[]) == Result.Ok([])
    ensures RenamePairs({}, [], map[]) == Result.Ok([]) && Guard({}, [], map[]) == Result.Ok(())
  {
    NoDirectives({"t"}, ["t"], TableFrom(TrapDesired()), 0);
    NoDirectives({"a", "b"}, ["b"], map[], 0);
    NoDirectives({}, [], map[], 0);
  }

  lemma NoRewrite(s: Schema, cur: map<string, Schema>, des: OMap<Desired>)
    requires s.indexes == OMap([], map[]) && s.fks == OMap([], map[])
    ensures SubParts(map[], s.pk) == s.pk && RenameKeys(s.cols, []) == s.cols
    ensures RenameKeys(SubIndexes(map[], s.indexes), []) == s.indexes && SubForeignKeys(cur, des, "t", s.fks) == s.fks
  {
    assert forall x :: Sub(map[], x) == x;
  }

  lemma NamesOfBefore()
    ensures Before().cols.vals.Keys == {"a", "b"} && Before().indexes.vals.Keys == {} && Before().fks.vals.Keys == {}
    ensures TrapCurrent().vals.Keys == {"t"}
  {
  }

  lemma TrapRename()
    ensures RenameWithin(TrapCurrent().vals, TrapDesired(), "t") == Result.Ok(Renamed(Before(), [], []))
  {
    NothingToRename();
    NamesOfBefore();
    NoRewrite(Before(), TrapCurrent().vals, TrapDesired());
    hide RenamePairs, Guard, SubParts, RenameKeys, SubIndexes, SubForeignKeys, Key;
  }

  lemma TrapPlan()
    ensures DiffTables(TrapCurrent(), TrapDesired(), EveryDrop()).Ok?
    ensures AfterRenames(TrapCurrent(), TrapDesired()) == TrapCurrent()
  {
    NothingToRename();
    NamesOfBefore();
    TrapRename();
    var cur, des, p := TrapCurrent(), TrapDesired(), EveryDrop();
    hide RenamePairs, RenameWithin, TablePlan, GoneTables, NewTables;
    assert RenameTables(cur, []) == cur;
    assert ChangedTables(cur.vals, des, p, 1).Ok?;
    assert ChangedTables(cur.vals, des, p, 0).Ok?;
    hide ChangedTables;
  }

  lemma OneTable<V>(v: V)
    ensures OMap(["t"], map["t" := v]).Ok()
  {
    assert Elems(["t"]) == {"t"};
  }

  lemma TrapSchemasOk()
    ensures WellFormed(TrapCurrent().vals) && WellFormed(Schemas(TrapDesired()))
  {
    BeforeOk();
    NoKeys();
    hide SchemaOk, WellFormed, Before, After;
    OneTableOk(TrapCurrent().vals);
    OneTableOk(Schemas(TrapDesired()));
  }

  lemma NoKeys()
    ensures Before().fks.vals == map[] && After().fks.vals == map[]
  {
  }

  lemma FewNames(names: set<string>)
    requires names <= {"a", "b"} || names <= {"f"}
    ensures CaseSafe(names)
  {
    assert Fold("a")[0] == 'a' && Fold("b")[0] == 'b';
    forall x, y | x in names && y in names && EqualFold(x, y) ensures x == y {
      assert names <= {"f"} ==> x == "f" && y == "f";
      assert names <= {"a", "b"} ==> (x == "a" || x == "b") && (y == "a" || y == "b");
    }
  }

  // Tables named t with columns a and b, no index, and at most the foreign key f.
  lemma FewNamesDiffer(cur: map<string, Schema>, des: map<string, Schema>)
    requires forall k :: k in cur ==>
      cur[k].cols.vals.Keys <= {"a", "b"} && cur[k].indexes.vals == map[] && cur[k].fks.vals.Keys <= {"f"}
    requires forall k :: k in des ==>
      des[k].cols.vals.Keys <= {"a", "b"} && des[k].indexes.vals == map[] && des[k].fks.vals.Keys <= {"f"}
    ensures NamesDiffer(cur, des)
  {
    hide CaseSafe;
    forall k | k in des ensures CaseSafe(ColumnsOf(cur, k) + ColumnsOf(des, k)) &&
      CaseSafe(IndexesOf(cur, k) + IndexesOf(des, k)) {
      FewNames(ColumnsOf(cur, k) + ColumnsOf(des, k));
      FewNames(IndexesOf(cur, k) + IndexesOf(des, k));
    }
    forall n | n in KeyNames(cur) + KeyNames(des) ensures n in {"f"} {
      if n in KeyNames(cur) { var k :| k in cur && n in cur[k].fks.vals; assert n in cur[k].fks.vals.Keys; }
      if n in KeyNames(des) { var k :| k in des && n in des[k].fks.vals; assert n in des[k].fks.vals.Keys; }
    }
    FewNames(KeyNames(cur) + KeyNames(des));
  }

  lemma TrapNames()
    ensures NamesDiffer(TrapCurrent().vals, Schemas(TrapDesired()))
  {
    FewNamesDiffer(TrapCurrent().vals, Schemas(TrapDesired()));
  }

  lemma TrapGiven()
    ensures Given(TrapCurrent(), TrapDesired(), EveryDrop())
  {
    TrapSchemasOk();
    TrapPlan();
    TrapNames();
    OneTable(Before());
    OneTable(Desired(After(), "", map[], map[], map[]));
    hide DiffTables, WellFormed, OMap<Schema>.Ok, OMap<Desired>.Ok, Before, After, Schemas, NamesDiffer, RenamePairs,
      AfterRenames;
  }

  lemma ItIsTrapped()
    ensures Trapped(TrapCurrent(), TrapDesired(), EveryDrop(), "t")
  {
    TrapRename();
    hide RenameWithin;
    assert "a" != "b";
  }

  // MySQL drops column a, and with it the key, before the plan's DROP PRIMARY KEY.
  lemma KeyMovesOffDroppedColumn()
    ensures var cur, des, p := TrapCurrent(), TrapDesired(), EveryDrop();
      Given(cur, des, p) && Run(AsDB(cur.vals), Script(DiffTables(cur, des, p).value)) == None
  {
    TrapGiven();
    TrapPlan();
    ItIsTrapped();
    var cur, des, p := TrapCurrent(), TrapDesired(), EveryDrop();
    assert "t" in des.vals;
    hide Given, Trapped, Run, DiffTables, AfterRenames, TrapCurrent, TrapDesired, Stopped, RenamePairs;
    PlanRuns(cur, des, p);
    OnlyTraps(cur, des, p);
  }

  /* ----- a foreign key that may not be dropped holds on to a column that may ----- */

  // CREATE TABLE t (a int, b int, CONSTRAINT f FOREIGN KEY (b) REFERENCES t (a))
  function Tied(): Schema {
    Schema(OMap(["a", "b"], map["a" := "int", "b" := "int"]), [], OMap([], map[]),
      OMap(["f"], map["f" := ForeignKey(["b"], "t", ["a"], "")]))
  }

  // CREATE TABLE t (a int)
  function Untied(): Schema {
    Schema(OMap(["a"], map["a" := "int"]), [], OMap([], map[]), OMap([], map[]))
  }

  function TiedCurrent(): OMap<Schema> {
    OMap(["t"], map["t" := Tied()])
  }

  function UntiedDesired(): OMap<Desired> {
    OMap(["t"], map["t" := Desired(Untied(), "", map[], map[], map[])])
  }

  function AllButForeignKeys(): Policy {
    Policy(true, true, true, true, false)
  }

  lemma TiedOk()
    ensures SchemaOk(Tied()) && SchemaOk(Untied())
  {
    assert Elems(["a", "b"]) == {"a", "b"} && Elems(["a"]) == {"a"} && Elems(["f"]) == {"f"} && Elems<string>([]) == {};
    assert Tied().cols.vals.Keys == {"a", "b"} && Untied().cols.vals.Keys == {"a"} && Tied().fks.vals.Keys == {"f"};
    assert "a" != "b";
  }

  lemma TiedIsWellFormed()
    ensures WellFormed(TiedCurrent().vals)
  {
    TiedOk();
    var db := AsDB(TiedCurrent().vals);
    var fk := ForeignKey(["b"], "t", ["a"], "");
    assert db["t"].fks == map["f" := fk] && db["t"].attrs == Tied().cols.vals;
    assert NamesIn(["b"], Tied().cols.vals) && NamesIn(["a"], Tied().cols.vals);
    assert ForeignKeyOk(db, db["t"], fk);
    hide SchemaOk, NamesIn;
  }

  lemma UntiedIsWellFormed()
    ensures WellFormed(Schemas(UntiedDesired()))
  {
    TiedOk();
    assert Untied().fks.vals == map[];
    hide SchemaOk, WellFormed, Untied;
    OneTableOk(Schemas(UntiedDesired()));
  }

  lemma NoRename()
    ensures RenamePairs({"t"}, ["t"], TableFrom(UntiedDesired())) == Result.Ok([])
    ensures RenamePairs({"a", "b"}, ["a"], map[]) == Result.Ok([])
    ensures RenamePairs({}, [], map[]) == Result.Ok([]) && Guard({"f"}, [], map[]) == Result.Ok(())
  {
    NoDirectives({"t"}, ["t"], TableFrom(UntiedDesired()), 0);
    NoDirectives({"a", "b"}, ["a"], map[], 0);
    NoDirectives({}, [], map[], 0);
    NoDirectives({"f"}, [], map[], 0);
  }

  lemma NamesOfTied()
    ensures Tied().cols.vals.Keys == {"a", "b"} && Tied().indexes.vals.Keys == {} && Tied().fks.vals.Keys == {"f"}
    ensures TiedCurrent().vals.Keys == {"t"} && ColumnMap(UntiedDesired().vals["t"]) == map[]
  {
  }

  lemma KeysUnchanged()
    ensures SubForeignKeys(TiedCurrent().vals, UntiedDesired(), "t", Tied().fks) == Tied().fks
  {
    NamesOfTied();
    hide ColumnMap;
    assert forall s :: SubNames(map[], s) == s;
    assert SubForeignKeys(TiedCurrent().vals, UntiedDesired(), "t", Tied().fks).vals == Tied().fks.vals;
  }

  lemma PartsUnchanged(s: Schema)
    requires s.indexes == OMap([], map[])
    ensures SubParts(map[], s.pk) == s.pk && RenameKeys(s.cols, []) == s.cols &&
      RenameKeys(SubIndexes(map[], s.indexes), []) == s.indexes
  {
    assert forall x :: Sub(map[], x) == x;
  }

  lemma TiedRename()
    ensures RenameWithin(TiedCurrent().vals, UntiedDesired(), "t") == Result.Ok(Renamed(Tied(), [], []))
  {
    NoRename();
    NamesOfTied();
    KeysUnchanged();
    PartsUnchanged(Tied());
    hide RenamePairs, Guard, SubParts, RenameKeys, SubIndexes, SubForeignKeys, ColumnMap;
  }

  lemma TiedPlan()
    ensures DiffTables(TiedCurrent(), UntiedDesired(), AllButForeignKeys()).Ok?
    ensures RenamePairs(TiedCurrent().vals.Keys, UntiedDesired().keys, TableFrom(UntiedDesired())).Ok?
    ensures AfterRenames(TiedCurrent(), UntiedDesired()) == TiedCurrent()
  {
    NoRename();
    NamesOfTied();
    TiedRename();
    var cur, des, p := TiedCurrent(), UntiedDesired(), AllButForeignKeys();
    hide RenamePairs, RenameWithin, TablePlan, GoneTables, NewTables, ColumnMap;
    assert RenameTables(cur, []) == cur;
    assert ChangedTables(cur.vals, des, p, 1).Ok?;
    assert ChangedTables(cur.vals, des, p, 0).Ok?;
    hide ChangedTables;
  }

  lemma TiedNames()
    ensures NamesDiffer(TiedCurrent().vals, Schemas(UntiedDesired()))
  {
    FewNamesDiffer(TiedCurrent().vals, Schemas(UntiedDesired()));
  }

  lemma TiedGiven()
    ensures Given(TiedCurrent(), UntiedDesired(), AllButForeignKeys())
  {
    TiedNames();
    TiedIsWellFormed();
    UntiedIsWellFormed();
    TiedPlan();
    OneTable(Tied());
    OneTable(Desired(Untied(), "", map[], map[], map[]));
    hide DiffTables, WellFormed, OMap<Schema>.Ok, OMap<Desired>.Ok, Tied, Untied, Schemas, RenamePairs, AfterRenames,
      NamesDiffer;
  }

  lemma ItIsHeldBack()
    ensures HeldBack(TiedCurrent(), UntiedDesired(), AllButForeignKeys(), "t", "b")
  {
    var c, des, p := TiedCurrent(), UntiedDesired(), AllButForeignKeys();
    KeysUnchanged();
    var fk := ForeignKey(["b"], "t", ["a"], "");
    assert SubForeignKeys(c.vals, des, "t", Tied().fks).vals["f"] == fk;
    assert Leftover(c, des, p, "t", "f");
    hide SubForeignKey, Leftover;
    assert Holds(SubForeignKey(c.vals, des, "t", c.vals["t"].fks.vals["f"]), "t", "t", "b");
  }

  lemma ItIsBlocked()
    ensures Stuck(TiedCurrent(), UntiedDesired(), AllButForeignKeys(), "t")
  {
    var c, des, p := TiedCurrent(), UntiedDesired(), AllButForeignKeys();
    TiedRename();
    ItIsHeldBack();
    TiedOk();
    GoneColsAre(Tied(), Untied(), p);
    assert "b" in Tied().cols.vals && "b" !in Untied().cols.vals;
    hide RenameWithin, HeldBack, Trapped, SchemaOk, Tied, Untied, GoneCols;
  }

  // Foreign keys may not be dropped, columns may: the plan drops a column the kept foreign key names, and MySQL
  // refuses.
  lemma KeptForeignKeyHoldsColumn()
    ensures var cur, des, p := TiedCurrent(), UntiedDesired(), AllButForeignKeys();
      Given(cur, des, p) && Run(AsDB(cur.vals), Script(DiffTables(cur, des, p).value)) == None
  {
    TiedGiven();
    TiedPlan();
    ItIsBlocked();
    var cur, des, p := TiedCurrent(), UntiedDesired(), AllButForeignKeys();
    assert "t" in des.vals;
    hide Given, Stuck, Run, DiffTables, AfterRenames, TiedCurrent, UntiedDesired, AllButForeignKeys, RenamePairs,
      TableBlocked, NameTaken;
    PlanRuns(cur, des, p);
  }

  /* ----- a new table whose directive names one of its own columns ----- */

  // CREATE TABLE t (a int, b int), with a renamed from b
  function Confused(): Desired {
    Desired(Schema(OMap(["a", "b"], map["a" := "int", "b" := "int"]), [], OMap([], map[]), OMap([], map[])), "",
      map["a" := "b"], map[], map[])
  }

  function ConfusedDesired(): OMap<Desired> {
    OMap(["t"], map["t" := Confused()])
  }

  function NoTables(): OMap<Schema> {
    OMap([], map[])
  }

  // The database after the first plan, as it is loaded for the second.
  function Loaded(): OMap<Schema> {
    OMap(["t"], map["t" := Confused().schema])
  }

  lemma ConfusedOk()
    ensures SchemaOk(Confused().schema) && Confused().schema.fks.vals == map[]
  {
    assert Elems(["a", "b"]) == {"a", "b"} && Elems<string>([]) == {};
    assert Confused().schema.cols.vals.Keys == {"a", "b"};
    assert "a" != "b";
  }

  lemma ConfusedPlan()
    ensures RenamePairs({}, ["t"], TableFrom(ConfusedDesired())) == Result.Ok([])
    ensures DiffTables(NoTables(), ConfusedDesired(), EveryDrop()).Ok? &&
      AfterRenames(NoTables(), ConfusedDesired()) == NoTables()
  {
    var cur, des, p := NoTables(), ConfusedDesired(), EveryDrop();
    NoDirectives({}, ["t"], TableFrom(des), 0);
    assert cur.vals.Keys == {};
    hide RenamePairs, RenameWithin, TablePlan, GoneTables, NewTables, Confused;
    assert RenameTables(cur, []) == cur;
    assert ChangedTables(cur.vals, des, p, 1).Ok?;
  }

  lemma ConfusedSchemasOk()
    ensures WellFormed(NoTables().vals) && WellFormed(Schemas(ConfusedDesired()))
  {
    ConfusedOk();
    hide SchemaOk, WellFormed, Confused;
    OneTableOk(NoTables().vals);
    OneTableOk(Schemas(ConfusedDesired()));
  }

  lemma ConfusedMapsOk()
    ensures NoTables().Ok() && ConfusedDesired().Ok()
  {
    OneTable(Confused());
    assert Elems<string>([]) == {};
    hide Confused;
  }

  lemma ConfusedNames()
    ensures NamesDiffer(NoTables().vals, Schemas(ConfusedDesired()))
  {
    FewNamesDiffer(NoTables().vals, Schemas(ConfusedDesired()));
  }

  lemma ConfusedGiven()
    ensures Given(NoTables(), ConfusedDesired(), EveryDrop())
  {
    ConfusedNames();
    ConfusedSchemasOk();
    ConfusedMapsOk();
    ConfusedPlan();
    hide DiffTables, WellFormed, Confused, ConfusedDesired, NoTables, Schemas, OMap<Schema>.Ok, OMap<Desired>.Ok,
      NamesDiffer, RenamePairs, AfterRenames;
  }

  lemma ConfusedIsNotSettled()
    ensures !SettledTable(Confused())
  {
    var d := Confused();
    assert d.schema.cols.keys[0] == "a" && d.schema.cols.keys[1] == "b";
    assert From(d.colFrom, "a") == "b" && "b" in d.schema.cols.keys;
    assert "a" != "b" && "b" != "";
    hide SharesSource;
    assert !Settled(d.schema.cols.keys, d.colFrom);
  }

  lemma NothingTrapped()
    ensures RenamePairs(NoTables().vals.Keys, ConfusedDesired().keys, TableFrom(ConfusedDesired())).Ok?
    ensures !Stopped(NoTables(), ConfusedDesired(), EveryDrop())
  {
    ConfusedPlan();
    assert NoTables().vals.Keys == {};
    assert !AnyTrap(NoTables(), ConfusedDesired(), EveryDrop()) by {
      hide RenameWithin, KeyTrap, RenamePairs, AfterRenames;
    }
    hide RenamePairs, AfterRenames, Stopped, AnyTrap;
    OnlyTraps(NoTables(), ConfusedDesired(), EveryDrop());
  }

  lemma ConfusedFinal()
    ensures AddDB(NoTables(), ConfusedDesired(), EveryDrop(), ConfusedDesired().vals.Keys) == AsDB(Loaded().vals)
  {
    AsTableIs(Confused().schema);
    hide Confused, Body, HalfKeys;
  }

  // The first plan runs.
  lemma ConfusedRuns()
    ensures Run(AsDB(NoTables().vals), Script(DiffTables(NoTables(), ConfusedDesired(), EveryDrop()).value)) ==
      Some(AsDB(Loaded().vals))
  {
    var cur, des, p := NoTables(), ConfusedDesired(), EveryDrop();
    ConfusedGiven();
    ConfusedPlan();
    NothingTrapped();
    FinalIs(cur, des, p);
    ConfusedFinal();
    hide *;
    PlanRuns(cur, des, p);
  }

  // The first plan creates the table; the second, with nothing changed, is refused.
  lemma UncheckedDirective()
    ensures var cur, des, p := NoTables(), ConfusedDesired(), EveryDrop();
      Given(cur, des, p) && Run(AsDB(cur.vals), Script(DiffTables(cur, des, p).value)) == Some(AsDB(Loaded().vals)) &&
      DiffTables(Loaded(), des, p).Err?
  {
    hide *;
    var cur, des, p := NoTables(), ConfusedDesired(), EveryDrop();
    ConfusedGiven();
    ConfusedPlan();
    ConfusedRuns();
    ConfusedIsNotSettled();
    LoadedIsOk();
    TheTable();
    SecondPlan(cur, des, p, Loaded(), p);
  }

  lemma LoadedIsOk()
    ensures Loaded().Ok() && SchemasOk(Loaded().vals) && AllAllowed(EveryDrop())
  {
    ConfusedOk();
    OneTable(Confused().schema);
    hide SchemaOk, Confused, OMap<Schema>.Ok;
  }

  lemma TheTable()
    ensures "t" in ConfusedDesired().vals && ConfusedDesired().vals["t"] == Confused() && "t" !in NoTables().vals
  {
    hide Confused;
  }
}
