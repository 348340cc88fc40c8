/** Planning again after the plan has run, and plans that are renames only. */
module SchemaReplan {
  import opened Common
  import opened SortedNames
  import opened SchemaModel
  import opened SchemaSpec
  import opened SchemaLocal
  import opened SchemaLegal
  import opened SchemaRename
  import opened SchemaRenamed
  import opened SchemaState
  import opened SchemaSteps
  import opened SchemaBuckets
  import opened SchemaPlan
  import opened SchemaFinal

  /* ----- a table that already is what it should be ----- */

  // The same table, whatever order its parts are listed in.
  ghost predicate SameContent(c: Schema, d: Schema) {
    c.cols.vals == d.cols.vals && c.pk == d.pk && c.indexes.vals == d.indexes.vals && c.fks.vals == d.fks.vals
  }

  lemma {:induction false} NoColumnAdds(k: string, des: OMap<string>, i: nat)
    requires i <= |des.keys|
    ensures ColumnAdds(k, des.vals, des, i) == []
    decreases |des.keys| - i
  {
    if i < |des.keys| { NoColumnAdds(k, des, i + 1); }
  }

  lemma {:induction false} NoneGone<V>(keys: seq<string>, des: map<string, V>)
    requires forall i :: 0 <= i < |keys| ==> keys[i] in des
    ensures Gone<string, V>(keys, des) == []
  {
    if keys != [] { NoneGone(keys[1..], des); }
  }

  lemma {:induction false} NoIndexChange(k: string, cur: OMap<Index>, des: OMap<Index>, allowed: bool,
    dropped: set<string>, i: nat)
    requires cur.vals == des.vals
    ensures i <= |cur.keys| ==> IndexDrops(k, cur, des, allowed, dropped, i) == []
    ensures i <= |des.keys| ==> IndexCreates(k, cur.vals, des, i) == []
    decreases |cur.keys| + |des.keys| - i
  {
    if i < |cur.keys| || i < |des.keys| { NoIndexChange(k, cur, des, allowed, dropped, i + 1); }
  }

  lemma {:induction false} NoKeyChange(k: string, cur: OMap<ForeignKey>, des: OMap<ForeignKey>, allowed: bool, i: nat)
    requires cur.Ok() && cur.vals == des.vals
    ensures i <= |cur.keys| ==> ForeignKeyDrops(k, cur, des.vals, allowed, i) == []
    ensures i <= |des.keys| ==> ForeignKeyAdds(k, cur.vals, des, i) == []
    decreases |cur.keys| + |des.keys| - i
  {
    if i < |cur.keys| { assert cur.keys[i] in Elems(cur.keys); }
    if i < |cur.keys| || i < |des.keys| { NoKeyChange(k, cur, des, allowed, i + 1); }
  }

  lemma NothingToDo(k: string, c: Schema, d: Schema, p: Policy)
    requires SameContent(c, d) && c.cols.Ok() && c.fks.Ok()
    ensures LocalStmts(k, c, d, p) == []
    ensures ForeignKeyDrops(k, c.fks, d.fks.vals, p.foreignKey, 0) == [] &&
      ForeignKeyAdds(k, c.fks.vals, d.fks, 0) == []
  {
    NoColumnAdds(k, d.cols, 0);
    forall i | 0 <= i < |c.cols.keys| ensures c.cols.keys[i] in d.cols.vals {
      assert c.cols.keys[i] in Elems(c.cols.keys);
    }
    NoneGone(c.cols.keys, d.cols.vals);
    NoIndexChange(k, c.indexes, d.indexes, p.index, {}, 0);
    NoKeyChange(k, c.fks, d.fks, p.foreignKey, 0);
    assert Elems<string>([]) == {};
    hide ColumnAdds, Gone, IndexDrops, IndexCreates, ForeignKeyDrops, ForeignKeyAdds, OMap<string>.Ok,
      OMap<ForeignKey>.Ok;
  }

  /* ----- directives that no longer apply ----- */

  // No source is named twice, and none is also declared.
  ghost predicate Settled(keys: seq<string>, from: map<string, string>) {
    !SharesSource(keys, from) &&
    forall j :: 0 <= j < |keys| ==>
      From(from, keys[j]) == "" || From(from, keys[j]) == keys[j] || From(from, keys[j]) !in keys
  }

  lemma AcceptedIsSettled(names: set<string>, keys: seq<string>, from: map<string, string>)
    requires Distinct(keys) && RenamePairs(names, keys, from).Ok?
    ensures Settled(keys, from)
  {
    LoopAccepts(names, keys, from, 0);
    hide Pairing, Distinct, SharesSource;
  }

  lemma {:induction false} GuardedIsSettledFrom(
    names: set<string>, keys: seq<string>, from: map<string, string>, i: nat)
    requires i <= |keys| && GuardLoop(names, keys, from, i).Ok?
    ensures forall j :: i <= j < |keys| ==>
      From(from, keys[j]) == "" || From(from, keys[j]) == keys[j] || From(from, keys[j]) !in keys
    decreases |keys| - i
  {
    if i < |keys| { GuardedIsSettledFrom(names, keys, from, i + 1); }
  }

  lemma GuardedIsSettled(names: set<string>, keys: seq<string>, from: map<string, string>)
    requires Guard(names, keys, from).Ok?
    ensures Settled(keys, from)
  {
    GuardedIsSettledFrom(names, keys, from, 0);
    hide SharesSource;
  }

  // The targets exist and the sources do not: every directive reads as already carried out.
  lemma {:induction false} LoopSkips(names: set<string>, keys: seq<string>, from: map<string, string>, i: nat)
    requires i <= |keys| && names == Elems(keys)
    ensures RenameLoop(names, keys, from, i).Ok? ==> RenameLoop(names, keys, from, i).value == []
    ensures Settled(keys, from) ==> RenameLoop(names, keys, from, i).Ok? && GuardLoop(names, keys, from, i).Ok?
    decreases |keys| - i
  {
    hide SharesSource;
    if i < |keys| {
      assert keys[i] in Elems(keys);
      LoopSkips(names, keys, from, i + 1);
      var o := From(from, keys[i]);
      assert o in keys <==> o in Elems(keys);
    }
  }

  lemma NothingLeft(names: set<string>, keys: seq<string>, from: map<string, string>)
    requires Distinct(keys) && names == Elems(keys)
    ensures RenamePairs(names, keys, from) == Result.Ok([]) <==> Settled(keys, from)
    ensures RenamePairs(names, keys, from).Ok? <==> Settled(keys, from)
    ensures Guard(names, keys, from).Ok? <==> Settled(keys, from)
  {
    LoopSkips(names, keys, from, 0);
    if RenamePairs(names, keys, from).Ok? { AcceptedIsSettled(names, keys, from); }
    if Guard(names, keys, from).Ok? { GuardedIsSettled(names, keys, from); }
    hide SharesSource, RenameLoop, GuardLoop;
  }

  // The substitution leaves declared names alone.
  lemma SettledSub(keys: seq<string>, from: map<string, string>, x: string)
    requires Settled(keys, from) && (x in keys || x == "")
    ensures Sub(RenameMap(keys, from), x) == x
  {
    RenameMapIs(keys, from, x);
    hide SharesSource, RenameMap;
    if x in RenameMap(keys, from) {
      var j :| 0 <= j < |keys| && From(from, keys[j]) == x;
    }
  }

  ghost predicate SettledTable(d: Desired) {
    Settled(d.schema.cols.keys, d.colFrom) && Settled(d.schema.indexes.keys, d.idxFrom) &&
    Settled(d.schema.fks.keys, d.fkFrom)
  }

  ghost predicate AllSettled(des: OMap<Desired>) {
    Settled(des.keys, TableFrom(des)) && forall k :: k in des.vals ==> SettledTable(des.vals[k])
  }

  // Current and desired hold the same tables.
  ghost predicate SameTables(cur: OMap<Schema>, des: OMap<Desired>) {
    cur.vals.Keys == des.vals.Keys && forall k :: k in des.vals ==> SameContent(cur.vals[k], des.vals[k].schema)
  }

  lemma NamesSettle(d: Desired, s: seq<string>)
    requires SettledTable(d) && d.schema.cols.Ok() && NamesIn(s, d.schema.cols.vals)
    ensures SubNames(ColumnMap(d), s) == s
  {
    hide Settled, Sub, RenameMap, Distinct;
    forall i | 0 <= i < |s| ensures Sub(ColumnMap(d), s[i]) == s[i] {
      assert s[i] in Elems(d.schema.cols.keys);
      SettledSub(d.schema.cols.keys, d.colFrom, s[i]);
    }
  }

  lemma PartsSettle(d: Desired, s: seq<Part>)
    requires SettledTable(d) && d.schema.cols.Ok() && PartsIn(s, d.schema.cols.vals)
    ensures SubParts(ColumnMap(d), s) == s
  {
    hide Settled, Sub, RenameMap, Distinct;
    forall i | 0 <= i < |s| ensures Sub(ColumnMap(d), s[i].column) == s[i].column {
      assert s[i].column == "" || s[i].column in Elems(d.schema.cols.keys);
      SettledSub(d.schema.cols.keys, d.colFrom, s[i].column);
    }
  }

  lemma IndexesSettle(d: Desired, x: OMap<Index>)
    requires SettledTable(d) && SchemaOk(d.schema) && x.vals == d.schema.indexes.vals
    ensures SubIndexes(ColumnMap(d), x) == x
  {
    hide SettledTable, ColumnMap, SubParts, PartsIn;
    forall n | n in x.vals ensures SubParts(ColumnMap(d), x.vals[n].parts) == x.vals[n].parts {
      PartsSettle(d, x.vals[n].parts);
    }
    assert SubIndexes(ColumnMap(d), x).vals == x.vals;
  }

  lemma KeysSettle(cur: OMap<Schema>, des: OMap<Desired>, k: string)
    requires k in des.vals && WellFormed(Schemas(des)) && SameTables(cur, des) && AllSettled(des)
    ensures SubForeignKeys(cur.vals, des, k, cur.vals[k].fks).vals == des.vals[k].schema.fks.vals
  {
    hide SettledTable, ColumnMap, SubNames, WellFormed, NamesIn;
    var fks := cur.vals[k].fks;
    forall n | n in fks.vals ensures SubForeignKey(cur.vals, des, k, fks.vals[n]) == fks.vals[n] {
      var fk := fks.vals[n];
      DesiredKey(des, k, n);
      ColumnsAreOk(des, k);
      ColumnsAreOk(des, fk.refTable);
      NamesSettle(des.vals[k], fk.cols);
      NamesSettle(des.vals[fk.refTable], fk.refCols);
    }
  }

  lemma ColumnsAreOk(des: OMap<Desired>, k: string)
    requires k in des.vals && WellFormed(Schemas(des))
    ensures SchemaOk(des.vals[k].schema) && des.vals[k].schema.cols.Ok()
  {
    assert SchemaOk(Schemas(des)[k]);
  }

  lemma TableSettles(cur: OMap<Schema>, des: OMap<Desired>, k: string)
    requires k in des.vals && WellFormed(Schemas(des)) && SameTables(cur, des) && SchemaOk(cur.vals[k])
    ensures RenameWithin(cur.vals, des, k).Ok? <==> SettledTable(des.vals[k])
    ensures AllSettled(des) ==> (var r := RenameWithin(cur.vals, des, k);
      r.Ok? && r.value.cols == [] && r.value.indexes == [] &&
      SameContent(r.value.schema, des.vals[k].schema) && r.value.schema.cols.Ok() && r.value.schema.fks.Ok())
  {
    var c, d := cur.vals[k], des.vals[k];
    ColumnsAreOk(des, k);
    PairsSettle(c, d);
    if AllSettled(des) {
      assert SettledTable(d);
      PartsSettle(d, c.pk);
      IndexesSettle(d, c.indexes);
      KeysSettle(cur, des, k);
    }
    hide SettledTable, SchemaOk, RenamePairs, Guard, ColumnMap, SubParts, SubIndexes, SubForeignKey, AllSettled,
      WellFormed, OMap<string>.Ok;
    RenameNothing(c.cols);
    RenameNothing(SubIndexes(ColumnMap(d), c.indexes));
    SchemaKeysOk(c);
    OkColumns(c);
    assert SubForeignKeys(cur.vals, des, k, c.fks).vals.Keys == c.fks.vals.Keys;
  }

  lemma PairsSettle(c: Schema, d: Desired)
    requires SchemaOk(c) && SchemaOk(d.schema) && SameContent(c, d.schema)
    ensures var cols, idxs, guard := RenamePairs(c.cols.vals.Keys, d.schema.cols.keys, d.colFrom),
        RenamePairs(c.indexes.vals.Keys, d.schema.indexes.keys, d.idxFrom),
        Guard(c.fks.vals.Keys, d.schema.fks.keys, d.fkFrom);
      (cols.Ok? && idxs.Ok? && guard.Ok? <==> SettledTable(d)) &&
      (SettledTable(d) ==> cols == Result.Ok([]) && idxs == Result.Ok([]))
  {
    NothingLeft(c.cols.vals.Keys, d.schema.cols.keys, d.colFrom);
    NothingLeft(c.indexes.vals.Keys, d.schema.indexes.keys, d.idxFrom);
    NothingLeft(c.fks.vals.Keys, d.schema.fks.keys, d.fkFrom);
    hide Settled, RenamePairs, Guard, PartsIn, Distinct, Elems;
  }

  lemma RenameNothing<V>(m: OMap<V>)
    ensures RenameKeys(m, []) == m
  {
  }

  function Empty(): Plan {
    Plan([], [], [], [], [])
  }

  lemma EmptyTablePlan(k: string, r: Renamed, d: Schema, p: Policy)
    requires r.cols == [] && r.indexes == [] && SameContent(r.schema, d) && r.schema.cols.Ok() && r.schema.fks.Ok()
    ensures TablePlan(k, r, d, p) == Empty()
  {
    NothingToDo(k, r.schema, d, p);
    hide SameContent, LocalStmts, ForeignKeyDrops, ForeignKeyAdds, OMap<string>.Ok, OMap<ForeignKey>.Ok;
  }

  ghost predicate SettledFrom(des: OMap<Desired>, i: nat) {
    forall j :: i <= j < |des.keys| ==> des.keys[j] in des.vals && SettledTable(des.vals[des.keys[j]])
  }

  lemma SettledFromStep(des: OMap<Desired>, i: nat)
    requires i < |des.keys| && des.keys[i] in des.vals
    ensures SettledFrom(des, i) <==> SettledTable(des.vals[des.keys[i]]) && SettledFrom(des, i + 1)
  {
    hide SettledTable;
  }

  lemma ChangedIs(cur: map<string, Schema>, des: OMap<Desired>, p: Policy, i: nat)
    requires i < |des.keys| && des.keys[i] in cur && des.keys[i] in des.vals
    ensures var k := des.keys[i];
      var r, rest, q := RenameWithin(cur, des, k), ChangedTables(cur, des, p, i + 1), ChangedTables(cur, des, p, i);
      (q.Ok? <==> r.Ok? && rest.Ok?) &&
      (q.Ok? && TablePlan(k, r.value, des.vals[k].schema, p) == Empty() && rest.value == Empty() ==> q.value == Empty())
  {
    hide RenameWithin, TablePlan;
  }

  lemma {:induction false} ChangedSettles(cur: OMap<Schema>, des: OMap<Desired>, p: Policy, i: nat)
    requires des.Ok() && WellFormed(Schemas(des)) && SameTables(cur, des) && SchemasOk(cur.vals) && i <= |des.keys|
    ensures ChangedTables(cur.vals, des, p, i).Ok? ==> SettledFrom(des, i)
    ensures AllSettled(des) ==> ChangedTables(cur.vals, des, p, i) == Result.Ok(Empty())
    decreases |des.keys| - i
  {
    hide *;
    if i == |des.keys| {
      ChangedEnd(cur.vals, des, p);
    } else {
      KeyAt(des, i);
      var k := des.keys[i];
      SameHas(cur, des, k);
      ChangedSettles(cur, des, p, i + 1);
      TableSettles(cur, des, k);
      ChangedIs(cur.vals, des, p, i);
      SettledFromStep(des, i);
      if AllSettled(des) { EmptyTablePlan(k, RenameWithin(cur.vals, des, k).value, des.vals[k].schema, p); }
    }
  }

  lemma ChangedEnd(cur: map<string, Schema>, des: OMap<Desired>, p: Policy)
    ensures ChangedTables(cur, des, p, |des.keys|) == Result.Ok(Empty()) && SettledFrom(des, |des.keys|)
  {
  }

  lemma SameHas(cur: OMap<Schema>, des: OMap<Desired>, k: string)
    requires SameTables(cur, des) && SchemasOk(cur.vals) && k in des.vals
    ensures k in cur.vals && SchemaOk(cur.vals[k])
  {
    hide SameContent, SchemaOk;
  }

  lemma {:induction false} NothingNew(cur: map<string, Schema>, des: OMap<Desired>, i: nat)
    requires i <= |des.keys| && des.vals.Keys <= cur.Keys
    ensures NewTables(cur, des, i) == Empty()
    decreases |des.keys| - i
  {
    if i < |des.keys| {
      NothingNew(cur, des, i + 1);
      assert forall x :: x in des.vals.Keys ==> x in cur.Keys;
    }
  }

  lemma {:induction false} NothingStale(cur: OMap<Schema>, des: map<string, Desired>, allowed: bool, i: nat)
    requires i <= |cur.keys| && cur.vals.Keys <= des.Keys
    ensures GoneTables(cur, des, allowed, i) == Empty()
    decreases |cur.keys| - i
  {
    if i < |cur.keys| {
      NothingStale(cur, des, allowed, i + 1);
      assert forall x :: x in cur.vals.Keys ==> x in des.Keys;
    }
  }

  // Planning for a database that already is as desired: nothing to do, unless a directive is refused.
  lemma SettledPlan(cur: OMap<Schema>, des: OMap<Desired>, p: Policy)
    requires cur.Ok() && des.Ok() && WellFormed(Schemas(des)) && SchemasOk(cur.vals) && SameTables(cur, des)
    ensures DiffTables(cur, des, p).Ok? <==> AllSettled(des)
    ensures DiffTables(cur, des, p).Ok? ==> Script(DiffTables(cur, des, p).value) == []
  {
    hide *;
    OkKeys(des);
    SameTablesKeys(cur, des);
    DiffUnfolds(cur, des, p);
    AllSettledIs(des);
    if Settled(des.keys, TableFrom(des)) || RenamePairs(cur.vals.Keys, des.keys, TableFrom(des)).Ok? {
      NothingLeft(cur.vals.Keys, des.keys, TableFrom(des));
      NoTableRenames(cur);
      ChangedSettles(cur, des, p, 0);
      SettledFromAll(des);
      NothingNew(cur.vals, des, 0);
      NothingStale(cur, des.vals, p.table, 0);
      EmptyScript();
    }
  }

  lemma SameTablesKeys(cur: OMap<Schema>, des: OMap<Desired>)
    requires SameTables(cur, des)
    ensures cur.vals.Keys == des.vals.Keys
  {
    hide SameContent;
  }

  lemma OkKeys(des: OMap<Desired>)
    requires des.Ok()
    ensures Distinct(des.keys) && des.vals.Keys == Elems(des.keys)
  {
  }

  // DiffTables, one part after the other.
  lemma DiffUnfolds(cur: OMap<Schema>, des: OMap<Desired>, p: Policy)
    ensures var pairs := RenamePairs(cur.vals.Keys, des.keys, TableFrom(des));
      DiffTables(cur, des, p) ==
        if pairs.Err? then Err(pairs.error) else
        var c := RenameTables(cur, pairs.value);
        var changed := ChangedTables(c.vals, des, p, 0);
        if changed.Err? then changed else
        var n, m, g := NewTables(c.vals, des, 0), changed.value, GoneTables(c, des.vals, p.table, 0);
        Result.Ok(Plan(TableRenames(pairs.value), m.fkDrops + g.fkDrops, n.stmts + m.stmts, g.drops,
          n.fkAdds + m.fkAdds))
  {
    hide RenamePairs, RenameTables, ChangedTables, NewTables, GoneTables, TableFrom, TableRenames;
  }

  lemma NoTableRenames(cur: OMap<Schema>)
    ensures RenameTables(cur, []) == cur && TableRenames([]) == []
  {
  }

  lemma SettledFromAll(des: OMap<Desired>)
    requires des.Ok()
    ensures SettledFrom(des, 0) <==> forall k :: k in des.vals ==> SettledTable(des.vals[k])
  {
    KeysReach(des);
    forall j | 0 <= j < |des.keys| ensures des.keys[j] in des.vals { assert des.keys[j] in Elems(des.keys); }
    hide SettledTable, OMap<Desired>.Ok;
  }

  lemma EmptyScript()
    ensures Empty() == Plan([], [], [], [], []) && Script(Empty()) == []
    ensures Plan([], [] + [], [] + [], [], [] + []) == Empty()
  {
  }

  lemma KeysReach<V>(m: OMap<V>)
    requires m.Ok()
    ensures forall k :: k in m.vals ==> exists j :: 0 <= j < |m.keys| && m.keys[j] == k
  {
    forall k | k in m.vals ensures exists j :: 0 <= j < |m.keys| && m.keys[j] == k { assert k in Elems(m.keys); }
  }

  /* ----- the plan after the plan ----- */

  // The first plan checks the directives of every table but the ones it creates.
  lemma FirstPlanSettles(cur: OMap<Schema>, des: OMap<Desired>, p: Policy)
    requires Given(cur, des, p) && RenamePairs(cur.vals.Keys, des.keys, TableFrom(des)).Ok?
    ensures Settled(des.keys, TableFrom(des))
    ensures forall k :: k in des.vals && k in AfterRenames(cur, des).vals ==> SettledTable(des.vals[k])
  {
    GivenIs(cur, des, p);
    TableRenameStage(cur, des, p);
    AcceptedIsSettled(cur.vals.Keys, des.keys, TableFrom(des));
    var c := AfterRenames(cur, des);
    hide Given, DiffTables, AfterRenames, Settled, Ready, RenamePairs, Guard, Run, AsDB, SettledTable, OMap<Schema>.Ok,
      OMap<Desired>.Ok;
    forall k | k in des.vals && k in c.vals ensures SettledTable(des.vals[k]) {
      ReadyAt(c, des, k);
      ReadySchemas(c, des, k);
      WithinSettles(c.vals, des, k);
    }
  }

  lemma WithinSettles(cur: map<string, Schema>, des: OMap<Desired>, k: string)
    requires k in cur && k in des.vals && SchemaOk(des.vals[k].schema) && RenameWithin(cur, des, k).Ok?
    ensures SettledTable(des.vals[k])
  {
    var c, d := cur[k], des.vals[k];
    hide Settled, RenamePairs, Guard, PartsIn, Elems, RenameKeys, SubIndexes, SubParts, SubForeignKeys;
    AcceptedIsSettled(c.cols.vals.Keys, d.schema.cols.keys, d.colFrom);
    AcceptedIsSettled(c.indexes.vals.Keys, d.schema.indexes.keys, d.idxFrom);
    GuardedIsSettled(c.fks.vals.Keys, d.schema.fks.keys, d.fkFrom);
  }

  lemma LoadedIs(cur2: OMap<Schema>, des: OMap<Desired>, db: DB)
    requires AsDB(cur2.vals) == db && db.Keys == des.vals.Keys && forall k :: k in des.vals ==>
      IsDesired(db[k], des.vals[k].schema)
    ensures SameTables(cur2, des)
  {
    assert cur2.vals.Keys == db.Keys;
    forall k | k in des.vals ensures SameContent(cur2.vals[k], des.vals[k].schema) {
      assert db[k] == AsTable(cur2.vals[k]);
    }
  }

  // Run the plan, load the database, plan again: there is nothing to do, exactly when the directives of the
  // tables the first plan created are in order.
  lemma SecondPlan(cur: OMap<Schema>, des: OMap<Desired>, p: Policy, cur2: OMap<Schema>, p2: Policy)
    requires Given(cur, des, p) && AllAllowed(p) &&
      Run(AsDB(cur.vals), Script(DiffTables(cur, des, p).value)) == Some(AsDB(cur2.vals))
    requires cur2.Ok() && SchemasOk(cur2.vals)
    ensures RenamePairs(cur.vals.Keys, des.keys, TableFrom(des)).Ok?
    ensures var again := DiffTables(cur2, des, p2);
      (again.Ok? <==> forall k :: k in des.vals && k !in AfterRenames(cur, des).vals ==> SettledTable(des.vals[k])) &&
      (again.Ok? ==> Script(again.value) == [])
  {
    GivenIs(cur, des, p);
    PlanDelivers(cur, des, p);
    var script := Script(DiffTables(cur, des, p).value);
    assert Delivers(cur, des, p, script);
    hide *;
    DeliveredIs(cur, des, p, script);
    LoadedIs(cur2, des, FinalDB(cur, des, p));
    FirstPlanSettles(cur, des, p);
    GivenForms(cur, des, p);
    SettledPlan(cur2, des, p2);
    AllSettledIs(des);
  }

  lemma AllSettledIs(des: OMap<Desired>)
    ensures AllSettled(des) <==> Settled(des.keys, TableFrom(des)) && forall k :: k in des.vals ==>
      SettledTable(des.vals[k])
  {
    hide Settled, SettledTable;
  }

  lemma GivenForms(cur: OMap<Schema>, des: OMap<Desired>, p: Policy)
    requires Given(cur, des, p)
    ensures WellFormed(Schemas(des))
  {
    hide DiffTables, WellFormed;
  }

  lemma DeliveredIs(cur: OMap<Schema>, des: OMap<Desired>, p: Policy, script: seq<Stmt>)
    requires RenamePairs(cur.vals.Keys, des.keys, TableFrom(des)).Ok? && Delivers(cur, des, p, script) && AllAllowed(p)
    ensures Run(AsDB(cur.vals), script) == Some(FinalDB(cur, des, p)) && FinalDB(cur, des, p).Keys == des.vals.Keys
    ensures forall k :: k in des.vals ==> IsDesired(FinalDB(cur, des, p)[k], des.vals[k].schema)
  {
    hide Run, FinalDB, IsDesired, Legal, AsDB, RenamePairs;
  }
}
