/** The diff of all tables as the program computes it, on a current schema it re-keys and overwrites. */
module SchemaDiffTables {
  import opened Common
  import opened SortedNames
  import opened SchemaModel
  import opened SchemaSpec
  import opened SchemaRename
  import opened SchemaRenamed
  import opened SchemaDiff

  /* ----- the columns of a parent table are renamed ----- */

  // A foreign key of `owner` after another table's columns are renamed; its own table's turn comes later.
  function CrossRefs(m: map<string, string>, k: string, owner: string, fk: ForeignKey): ForeignKey {
    if owner != k && fk.refTable == k then fk.(refCols := SubNames(m, fk.refCols)) else fk
  }

  function CrossKeys(m: map<string, string>, k: string, owner: string, fks: OMap<ForeignKey>): OMap<ForeignKey> {
    OMap(fks.keys, map n | n in fks.vals :: CrossRefs(m, k, owner, fks.vals[n]))
  }

  function CrossTables(m: map<string, string>, k: string, tables: OMap<Schema>): OMap<Schema> {
    OMap(tables.keys, map t | t in tables.vals :: tables.vals[t].(fks := CrossKeys(m, k, t, tables.vals[t].fks)))
  }

  // The passes for the first i desired tables.
  function Crossed(tables: OMap<Schema>, des: OMap<Desired>, i: nat): OMap<Schema>
    requires i <= |des.keys|
  {
    if i == 0 then tables
    else
      var k, t := des.keys[i - 1], Crossed(tables, des, i - 1);
      if k in t.vals && k in des.vals then CrossTables(ColumnMap(des.vals[k]), k, t) else t
  }

  // What the passes have done to one foreign key.
  function CrossedKey(cur: map<string, Schema>, des: OMap<Desired>, done: set<string>, owner: string,
    fk: ForeignKey): ForeignKey {
    if fk.refTable in done && fk.refTable in cur && fk.refTable in des.vals && fk.refTable != owner then
      fk.(refCols := SubNames(ColumnMap(des.vals[fk.refTable]), fk.refCols))
    else fk
  }

  function CrossedSchema(cur: map<string, Schema>, des: OMap<Desired>, done: set<string>, owner: string,
    s: Schema): Schema {
    s.(fks := OMap(s.fks.keys, map n | n in s.fks.vals :: CrossedKey(cur, des, done, owner, s.fks.vals[n])))
  }

  lemma CrossOne(cur: map<string, Schema>, des: OMap<Desired>, done: set<string>, k: string, owner: string, s: Schema)
    requires k in cur && k in des.vals && k !in done
    ensures var t := CrossedSchema(cur, des, done, owner, s);
      t.(fks := CrossKeys(ColumnMap(des.vals[k]), k, owner, t.fks)) == CrossedSchema(cur, des, done + {k}, owner, s)
  {
    hide SubNames, ColumnMap;
    var t, u := CrossedSchema(cur, des, done, owner, s), CrossedSchema(cur, des, done + {k}, owner, s);
    assert CrossKeys(ColumnMap(des.vals[k]), k, owner, t.fks).vals == u.fks.vals;
  }

  lemma CrossNone(cur: map<string, Schema>, des: OMap<Desired>, done: set<string>, k: string, owner: string, s: Schema)
    requires !(k in cur && k in des.vals)
    ensures CrossedSchema(cur, des, done + {k}, owner, s) == CrossedSchema(cur, des, done, owner, s)
  {
    hide SubNames, ColumnMap;
    assert CrossedSchema(cur, des, done + {k}, owner, s).fks.vals == CrossedSchema(cur, des, done, owner, s).fks.vals;
  }

  lemma NothingCrossed(tables: OMap<Schema>, des: OMap<Desired>)
    ensures Crossed(tables, des, 0) == tables
  {
  }

  lemma CrossedStep(tables: OMap<Schema>, des: OMap<Desired>, i: nat)
    requires i < |des.keys| && des.keys[i] in des.vals
    ensures var k, t := des.keys[i], Crossed(tables, des, i);
      Crossed(tables, des, i + 1) ==
        if k in t.vals then CrossTables(RenameMap(des.vals[k].schema.cols.keys, des.vals[k].colFrom), k, t) else t
  {
    hide CrossTables, RenameMap;
  }

  lemma CrossStart(cur: map<string, Schema>, des: OMap<Desired>, owner: string, s: Schema)
    ensures CrossedSchema(cur, des, {}, owner, s) == s
  {
    assert CrossedSchema(cur, des, {}, owner, s).fks.vals == s.fks.vals;
  }

  lemma {:induction false} CrossedAre(tables: OMap<Schema>, des: OMap<Desired>, i: nat)
    requires Distinct(des.keys) && i <= |des.keys|
    ensures Crossed(tables, des, i).keys == tables.keys && Crossed(tables, des, i).vals.Keys == tables.vals.Keys
    ensures forall t :: t in tables.vals ==>
      Crossed(tables, des, i).vals[t] == CrossedSchema(tables.vals, des, Elems(des.keys[..i]), t, tables.vals[t])
  {
    if i == 0 {
      forall t | t in tables.vals ensures CrossedSchema(tables.vals, des, {}, t, tables.vals[t]) == tables.vals[t] {
        CrossStart(tables.vals, des, t, tables.vals[t]);
      }
      assert Elems(des.keys[..0]) == {};
    } else {
      CrossedAre(tables, des, i - 1);
      var k, done := des.keys[i - 1], Elems(des.keys[..i - 1]);
      assert des.keys[..i] == des.keys[..i - 1] + [k];
      assert Elems(des.keys[..i]) == done + {k};
      assert k !in done;
      hide CrossedSchema, CrossKeys, ColumnMap, Distinct, Elems;
      forall t | t in tables.vals
        ensures Crossed(tables, des, i).vals[t] == CrossedSchema(tables.vals, des, done + {k}, t, tables.vals[t])
      {
        if k in tables.vals && k in des.vals { CrossOne(tables.vals, des, done, k, t, tables.vals[t]); }
        else { CrossNone(tables.vals, des, done, k, t, tables.vals[t]); }
      }
    }
  }

  lemma OwnAfterCross(cur: map<string, Schema>, des: OMap<Desired>, k: string, fk: ForeignKey)
    requires k in cur && k in des.vals
    ensures OwnRefs(ColumnMap(des.vals[k]), k, CrossedKey(cur, des, des.vals.Keys, k, fk)) ==
      SubForeignKey(cur, des, k, fk)
  {
    hide SubNames, ColumnMap;
  }

  // The cross-table pass and the table's own pass together are the pointwise substitution.
  lemma PassesAddUp(cur: map<string, Schema>, des: OMap<Desired>, k: string)
    requires k in cur && k in des.vals
    ensures RenamedBy(CrossedSchema(cur, des, des.vals.Keys, k, cur[k]), des.vals[k], k) == RenameWithin(cur, des, k)
  {
    var s := CrossedSchema(cur, des, des.vals.Keys, k, cur[k]);
    assert s.fks.vals.Keys == cur[k].fks.vals.Keys;
    hide RenamePairs, Guard, SubNames, SubParts, SubIndexes, ColumnMap, RenameKeys, OwnRefs, CrossedKey, SubForeignKey;
    var own := map n | n in s.fks.vals :: OwnRefs(ColumnMap(des.vals[k]), k, s.fks.vals[n]);
    forall n | n in cur[k].fks.vals ensures own[n] == SubForeignKey(cur, des, k, cur[k].fks.vals[n]) {
      OwnAfterCross(cur, des, k, cur[k].fks.vals[n]);
    }
    assert own == SubForeignKeys(cur, des, k, cur[k].fks).vals;
  }

  /* ----- facts the loops need ----- */

  ghost predicate MapsOk(s: Schema) {
    s.cols.Ok() && s.indexes.Ok() && s.fks.Ok()
  }

  ghost predicate AllMapsOk(m: map<string, Schema>) {
    forall k :: k in m ==> MapsOk(m[k])
  }

  lemma {:induction false} RenameTablesSnoc(m: OMap<Schema>, ps: seq<Pair>, q: Pair)
    requires q.o in RenameTables(m, ps).vals
    ensures RenameTables(m, ps + [q]) == Moved(RenameTables(m, ps), q.o, q.n)
    decreases |ps|
  {
    if ps == [] {
      assert [] + [q] == [q] && [q][1..] == [];
    } else {
      assert (ps + [q])[0] == ps[0] && (ps + [q])[1..] == ps[1..] + [q];
      hide RetargetAll;
      if ps[0].o !in m.vals { RenameTablesSnoc(m, ps[1..], q); }
      else {
        RenameTablesSnoc(RetargetAll(ps[0].o, ps[0].n, m.Delete(ps[0].o).Set(ps[0].n, m.vals[ps[0].o])), ps[1..], q);
      }
    }
  }

  lemma MovedMaps(m: OMap<Schema>, o: string, n: string)
    requires m.Ok() && AllMapsOk(m.vals) && o in m.vals && n !in m.vals
    ensures Moved(m, o, n).Ok() && AllMapsOk(Moved(m, o, n).vals) && Moved(m, o, n).vals.Keys == m.vals.Keys - {o} + {n}
  {
    MoveKeyOk(m, o, n, m.vals[o]);
    MovedKeys(m, o, n);
    hide MapsOk, RetargetSchema, Distinct, Elems, Without;
    forall s | MapsOk(s) ensures MapsOk(RetargetSchema(o, n, s)) { RetargetMaps(o, n, s); }
  }

  lemma RetargetMaps(o: string, n: string, s: Schema)
    requires MapsOk(s)
    ensures MapsOk(RetargetSchema(o, n, s))
  {
  }

  lemma CrossedMaps(cur: map<string, Schema>, des: OMap<Desired>, done: set<string>, owner: string, s: Schema)
    requires MapsOk(s)
    ensures MapsOk(CrossedSchema(cur, des, done, owner, s))
  {
  }

  function RetargetKeys(o: string, n: string, fks: OMap<ForeignKey>): OMap<ForeignKey> {
    OMap(fks.keys, map x | x in fks.vals :: fks.vals[x].(refTable := Ren(o, n, fks.vals[x].refTable)))
  }

  // The foreign keys of one table that point at the renamed one.
  method RewriteTargets(o: string, n: string, fks: OMap<ForeignKey>) returns (r: OMap<ForeignKey>)
    requires fks.Ok()
    ensures r == RetargetKeys(o, n, fks)
  {
    r := fks;
    ghost var goal := RetargetKeys(o, n, fks).vals;
    for i := 0 to |fks.keys|
      invariant r.keys == fks.keys && r.vals.Keys == fks.vals.Keys
      invariant forall x :: x in fks.vals ==> r.vals[x] == if x in fks.keys[..i] then goal[x] else fks.vals[x]
    {
      Visited(fks, i);
      var x := fks.keys[i];
      hide OMap<ForeignKey>.Ok;
      if r.vals[x].refTable == o { r := OMap(r.keys, r.vals[x := r.vals[x].(refTable := n)]); }
    }
    AllVisited(fks);
    assert r.vals == goal;
  }

  lemma CrossKeysAt(m: map<string, string>, k: string, owner: string, fks: OMap<ForeignKey>)
    requires owner != k
    ensures var r := CrossKeys(m, k, owner, fks);
      r.keys == fks.keys && r.vals.Keys == fks.vals.Keys &&
      forall x :: x in fks.vals ==>
        r.vals[x] == if fks.vals[x].refTable == k then fks.vals[x].(refCols := SubNames(m, fks.vals[x].refCols))
          else fks.vals[x]
  {
    hide SubNames;
  }

  method RewriteRefCols(m: map<string, string>, k: string, owner: string, fks: OMap<ForeignKey>)
    returns (r: OMap<ForeignKey>)
    requires fks.Ok() && owner != k
    ensures r == CrossKeys(m, k, owner, fks)
  {
    hide *;
    r := fks;
    ghost var goal := CrossKeys(m, k, owner, fks).vals;
    CrossKeysAt(m, k, owner, fks);
    for i := 0 to |fks.keys|
      invariant r.keys == fks.keys && r.vals.Keys == fks.vals.Keys
      invariant forall x :: x in fks.vals ==> r.vals[x] == if x in fks.keys[..i] then goal[x] else fks.vals[x]
    {
      Visited(fks, i);
      var x := fks.keys[i];
      if r.vals[x].refTable != k { continue; }
      var refCols := RewriteNames(m, r.vals[x].refCols);
      r := OMap(r.keys, r.vals[x := r.vals[x].(refCols := refCols)]);
    }
    AllVisited(fks);
    assert r.vals == goal;
  }

  lemma CrossSelf(m: map<string, string>, k: string, fks: OMap<ForeignKey>)
    ensures CrossKeys(m, k, k, fks) == fks
  {
    assert CrossKeys(m, k, k, fks).vals == fks.vals;
  }

  lemma NoSubs(k: string, tables: OMap<Schema>)
    ensures CrossTables(map[], k, tables) == tables
  {
    forall s ensures SubNames(map[], s) == s { NoSub(s); }
    hide SubNames;
    forall t | t in tables.vals ensures CrossKeys(map[], k, t, tables.vals[t].fks) == tables.vals[t].fks {
      assert CrossKeys(map[], k, t, tables.vals[t].fks).vals == tables.vals[t].fks.vals;
    }
    assert CrossTables(map[], k, tables).vals == tables.vals;
  }

  /* ----- the current schema ----- */

  class CurrentSchema {
    var tables: OMap<Schema>

    constructor (m: OMap<Schema>)
      ensures tables == m
    {
      tables := m;
    }

    ghost predicate Valid()
      reads this
    {
      tables.Ok() && AllMapsOk(tables.vals)
    }

    // Foreign keys follow a renamed table.
    method RewriteFKRefTable(o: string, n: string)
      requires Valid()
      modifies this
      ensures tables == RetargetAll(o, n, old(tables))
    {
      ghost var goal := RetargetAll(o, n, old(tables)).vals;
      hide RetargetSchema, MapsOk;
      for i := 0 to |tables.keys|
        invariant tables.keys == old(tables).keys && tables.vals.Keys == old(tables).vals.Keys
        invariant forall t :: t in tables.vals ==>
          tables.vals[t] == if t in old(tables).keys[..i] then goal[t] else old(tables).vals[t]
      {
        Visited(old(tables), i);
        hide OMap<Schema>.Ok;
        var t := tables.keys[i];
        OneMapsOk(tables.vals[t]);
        var fks := RewriteTargets(o, n, tables.vals[t].fks);
        RetargetedIs(o, n, tables.vals[t]);
        tables := OMap(tables.keys, tables.vals[t := tables.vals[t].(fks := fks)]);
      }
      AllVisited(old(tables));
      assert tables.vals == goal;
    }

    // Renamed tables move to their new keys.
    method ApplyTableRenames(des: OMap<Desired>) returns (r: Result<seq<Pair>>)
      requires Valid()
      modifies this
      ensures r == RenamePairs(old(tables).vals.Keys, des.keys, TableFrom(des))
      ensures r.Ok? ==> Valid() && tables == RenameTables(old(tables), r.value)
    {
      var from := TableFrom(des);
      var dup := HasDuplicateSource(des.keys, from);
      if dup { return Err(RenameError.DuplicateSource); }
      var done: seq<Pair> := [];
      assert forall q: Result<seq<Pair>> :: q.Ok? ==> [] + q.value == q.value;
      hide AllMapsOk, OMap<Schema>.Ok, SharesSource, TableFrom, RetargetAll;
      for i := 0 to |des.keys|
        invariant Valid()
        invariant RenameLoop(old(tables).vals.Keys, des.keys, from, 0) ==
          Prepend(done, RenameLoop(tables.vals.Keys, des.keys, from, i))
        invariant tables == RenameTables(old(tables), done)
      {
        var n := des.keys[i];
        var o := From(from, n);
        if o == "" || o == n { continue; }
        if o in des.keys { return Err(SourceDeclared); }
        if o !in tables.vals {
          if n in tables.vals { continue; }
          return Err(SourceMissing);
        }
        if n in tables.vals { return Err(DestinationExists); }
        ghost var was := tables;
        PrependOne(done, Pair(o, n), RenameLoop(was.vals.Keys - {o} + {n}, des.keys, from, i + 1));
        RenameTablesSnoc(old(tables), done, Pair(o, n));
        MovedMaps(was, o, n);
        ReKeyed(was, o, n);
        var ct := tables.vals[o];
        tables := tables.Delete(o);
        tables := tables.Set(n, ct);
        RewriteFKRefTable(o, n);
        done := done + [Pair(o, n)];
      }
      assert done + [] == done;
      return Ok(done);
    }

    // Foreign keys of the other tables follow a parent's renamed columns.
    method RewriteCrossTableFKRefCols(k: string, m: map<string, string>)
      requires Valid()
      modifies this
      ensures tables == CrossTables(m, k, old(tables))
    {
      ghost var goal := CrossTables(m, k, old(tables)).vals;
      if m == map[] { NoSubs(k, tables); return; }
      hide CrossKeys, MapsOk;
      for i := 0 to |tables.keys|
        invariant tables.keys == old(tables).keys && tables.vals.Keys == old(tables).vals.Keys
        invariant forall t :: t in tables.vals ==>
          tables.vals[t] == if t in old(tables).keys[..i] then goal[t] else old(tables).vals[t]
      {
        Visited(old(tables), i);
        hide OMap<Schema>.Ok;
        var t := tables.keys[i];
        CrossSelf(m, k, tables.vals[t].fks);
        if t == k { continue; }
        OneMapsOk(tables.vals[t]);
        var fks := RewriteRefCols(m, k, t, tables.vals[t].fks);
        tables := OMap(tables.keys, tables.vals[t := tables.vals[t].(fks := fks)]);
      }
      AllVisited(old(tables));
      assert tables.vals == goal;
    }

    // All the cross-table passes, in desired order.
    method RewriteAllRefCols(des: OMap<Desired>)
      requires Valid() && des.Ok()
      modifies this
      ensures tables == Crossed(old(tables), des, |des.keys|)
    {
      hide *;
      ValidIs();
      NothingCrossed(tables, des);
      for i := 0 to |des.keys|
        invariant tables.Ok() && AllMapsOk(tables.vals) && tables == Crossed(old(tables), des, i)
      {
        KeyIs(des, i);
        var k := des.keys[i];
        CrossedStep(old(tables), des, i);
        if k !in tables.vals { continue; }
        var m := ColumnRenameMap(des.vals[k].schema.cols.keys, des.vals[k].colFrom);
        CrossTablesMaps(m, k, tables);
        IsValid();
        RewriteCrossTableFKRefCols(k, m);
      }
    }

    lemma IsValid()
      requires tables.Ok() && AllMapsOk(tables.vals)
      ensures Valid()
    {
    }

    // The whole diff.
    method DiffTables(des: OMap<Desired>, p: Policy) returns (r: Result<Plan>)
      requires Valid() && des.Ok() && forall k :: k in des.vals ==> MapsOk(des.vals[k].schema)
      modifies this
      ensures r == SchemaSpec.DiffTables(old(tables), des, p)
    {
      DiffIs(old(tables), des, p);
      hide *;
      var renames := ApplyTableRenames(des);
      if renames.Err? { return Err(renames.error); }
      ghost var c := tables;
      ValidIs();
      var n := CreateNew(des);
      RewriteAllRefCols(des);
      CrossedAll(c, des);
      var m := ChangeCommon(c, des, p);
      if m.Err? { return Err(m.error); }
      var g := DropGone(c, des, p.table);
      return Ok(Plan(TableRenames(renames.value), m.value.fkDrops + g.fkDrops, n.stmts + m.value.stmts, g.drops,
        n.fkAdds + m.value.fkAdds));
    }

    lemma ValidIs()
      requires Valid()
      ensures tables.Ok() && AllMapsOk(tables.vals)
    {
    }

    // CREATE TABLE, its indexes, and its foreign keys for later.
    method CreateNew(des: OMap<Desired>) returns (r: Plan)
      requires des.Ok()
      ensures r == NewTables(tables.vals, des, 0)
    {
      hide *;
      NewEnds(tables.vals, des);
      var stmts, fkAdds := [], [];
      for i := 0 to |des.keys|
        invariant NewTables(tables.vals, des, 0) ==
          Plan([], [], stmts + NewTables(tables.vals, des, i).stmts, [], fkAdds + NewTables(tables.vals, des, i).fkAdds)
      {
        NewStepIs(tables.vals, des, i, stmts, fkAdds);
        var k := des.keys[i];
        if k in tables.vals { continue; }
        stmts := stmts + NewTable(k, des.vals[k].schema);
        fkAdds := fkAdds + ForeignKeyAdds(k, map[], des.vals[k].schema.fks, 0);
      }
      return Plan([], [], stmts, [], fkAdds);
    }

    // The tables both sides have; `c` is what they were before the cross-table passes.
    method ChangeCommon(ghost c: OMap<Schema>, des: OMap<Desired>, p: Policy) returns (r: Result<Plan>)
      requires des.Ok() && (forall k :: k in des.vals ==> MapsOk(des.vals[k].schema)) && AllMapsOk(c.vals)
      requires tables.vals.Keys == c.vals.Keys
      requires forall k :: k in c.vals ==> tables.vals[k] == CrossedSchema(c.vals, des, des.vals.Keys, k, c.vals[k])
      ensures r == ChangedTables(c.vals, des, p, 0)
    {
      hide *;
      var drops, stmts, adds := [], [], [];
      ChangedEnds(c.vals, des, p);
      for i := 0 to |des.keys|
        invariant ChangedTables(c.vals, des, p, 0) == Behind(drops, stmts, adds, ChangedTables(c.vals, des, p, i))
      {
        KeyIs(des, i);
        var k := des.keys[i];
        ChangedStepIs(c.vals, des, p, i, drops, stmts, adds);
        if k !in tables.vals { continue; }
        PassesAddUp(c.vals, des, k);
        OneOf(c.vals, k);
        CrossedMaps(c.vals, des, des.vals.Keys, k, c.vals[k]);
        OneMapsOk(tables.vals[k]);
        OneMapsOk(des.vals[k].schema);
        var ct := new CurrentTable(tables.vals[k]);
        CanDiff(ct);
        var sub := ct.DiffTable(k, des.vals[k], p);
        if sub.Err? { return Err(sub.error); }
        drops, stmts, adds := drops + sub.value.fkDrops, stmts + sub.value.stmts, adds + sub.value.fkAdds;
      }
      return Ok(Plan([], drops, stmts, [], adds));
    }

    // The tables only the current side has.
    method DropGone(ghost c: OMap<Schema>, des: OMap<Desired>, allowed: bool) returns (r: Plan)
      requires c.Ok() && tables.keys == c.keys && tables.vals.Keys == c.vals.Keys
      requires forall k :: k in c.vals ==> tables.vals[k].fks.keys == c.vals[k].fks.keys
      ensures r == GoneTables(c, des.vals, allowed, 0)
    {
      hide *;
      GoneEnds(c, des, allowed);
      var fkDrops, drops := [], [];
      for i := 0 to |tables.keys|
        invariant GoneTables(c, des.vals, allowed, 0) ==
          Plan([], fkDrops + GoneTables(c, des.vals, allowed, i).fkDrops, [],
            drops + GoneTables(c, des.vals, allowed, i).drops, [])
      {
        var k := tables.keys[i];
        GoneStepIs(c, des, allowed, i, fkDrops, drops);
        if k in des.vals || !allowed { continue; }
        var names := tables.vals[k].fks.keys;
        ghost var before := fkDrops;
        NoDropsYet(k, names);
        for j := 0 to |names|
          invariant fkDrops == before + AllForeignKeyDrops(k, names[..j])
        {
          DropsSnoc(k, names, j, before);
          fkDrops := fkDrops + [DropForeignKey(k, names[j])];
        }
        assert names[..|names|] == names;
        drops := drops + [DropTable(k)];
      }
      return Plan([], fkDrops, [], drops, []);
    }
  }

  /* ----- one step of each loop ----- */

  lemma OneMapsOk(s: Schema)
    requires MapsOk(s)
    ensures s.cols.Ok() && s.indexes.Ok() && s.fks.Ok()
  {
  }

  lemma OneOf(m: map<string, Schema>, k: string)
    requires AllMapsOk(m) && k in m
    ensures MapsOk(m[k])
  {
  }

  lemma CanDiff(t: CurrentTable)
    requires t.Value().cols.Ok() && t.Value().indexes.Ok() && t.Value().fks.Ok()
    ensures t.Valid()
  {
  }

  lemma RetargetedIs(o: string, n: string, s: Schema)
    ensures RetargetSchema(o, n, s) == s.(fks := RetargetKeys(o, n, s.fks))
  {
  }

  lemma ReKeyed(m: OMap<Schema>, o: string, n: string)
    requires m.Ok() && AllMapsOk(m.vals) && o in m.vals && n !in m.vals
    ensures var e := m.Delete(o).Set(n, m.vals[o]);
      e.Ok() && AllMapsOk(e.vals) && RetargetAll(o, n, e) == Moved(m, o, n)
  {
    MoveKeyOk(m, o, n, m.vals[o]);
    hide MapsOk, Distinct, Elems, Without, RetargetAll;
  }

  lemma CrossTablesMaps(m: map<string, string>, k: string, tables: OMap<Schema>)
    requires tables.Ok() && AllMapsOk(tables.vals)
    ensures CrossTables(m, k, tables).Ok() && AllMapsOk(CrossTables(m, k, tables).vals)
  {
    var e := CrossTables(m, k, tables);
    assert e.vals.Keys == tables.vals.Keys;
    hide CrossRefs;
    forall t | t in e.vals ensures MapsOk(e.vals[t]) {
      assert e.vals[t].fks.vals.Keys == tables.vals[t].fks.vals.Keys;
    }
  }

  lemma CrossedAll(c: OMap<Schema>, des: OMap<Desired>)
    requires des.Ok()
    ensures var e := Crossed(c, des, |des.keys|);
      e.keys == c.keys && e.vals.Keys == c.vals.Keys &&
      (forall k :: k in c.vals ==>
        e.vals[k] == CrossedSchema(c.vals, des, des.vals.Keys, k, c.vals[k]) &&
        e.vals[k].fks.keys == c.vals[k].fks.keys)
  {
    CrossedAre(c, des, |des.keys|);
    assert des.keys[..|des.keys|] == des.keys;
    hide Crossed, CrossedKey;
  }

  lemma DiffIs(cur: OMap<Schema>, des: OMap<Desired>, p: Policy)
    ensures var pairs := RenamePairs(cur.vals.Keys, des.keys, TableFrom(des));
      SchemaSpec.DiffTables(cur, des, p) ==
        if pairs.Err? then Err(pairs.error) else
        var c := RenameTables(cur, pairs.value);
        var changed := ChangedTables(c.vals, des, p, 0);
        if changed.Err? then changed else
        var n, m, g := NewTables(c.vals, des, 0), changed.value, GoneTables(c, des.vals, p.table, 0);
        Ok(Plan(TableRenames(pairs.value), m.fkDrops + g.fkDrops, n.stmts + m.stmts, g.drops, n.fkAdds + m.fkAdds))
  {
    hide RenamePairs, RenameTables, ChangedTables, NewTables, GoneTables, TableFrom, TableRenames;
  }

  lemma KeyIs<V>(m: OMap<V>, i: nat)
    requires m.Ok() && i < |m.keys|
    ensures m.keys[i] in m.vals
  {
    assert m.keys[i] in Elems(m.keys);
  }

  lemma NewEnds(cur: map<string, Schema>, des: OMap<Desired>)
    ensures NewTables(cur, des, |des.keys|) == Plan([], [], [], [], [])
    ensures var r := NewTables(cur, des, 0); r == Plan([], [], [] + r.stmts, [], [] + r.fkAdds)
    ensures forall s: seq<Stmt> :: s + [] == s
  {
    NewShape(cur, des, 0);
  }

  lemma {:induction false} NewShape(cur: map<string, Schema>, des: OMap<Desired>, i: nat)
    requires i <= |des.keys|
    ensures var r := NewTables(cur, des, i); r == Plan([], [], r.stmts, [], r.fkAdds)
    decreases |des.keys| - i
  {
    if i < |des.keys| { NewShape(cur, des, i + 1); }
  }

  lemma NewStepIs(cur: map<string, Schema>, des: OMap<Desired>, i: nat, stmts: seq<Stmt>, adds: seq<Stmt>)
    requires des.Ok() && i < |des.keys|
    ensures var k, q, r := des.keys[i], NewTables(cur, des, i), NewTables(cur, des, i + 1);
      k in des.vals &&
      if k in cur then q == r
      else
        stmts + q.stmts == (stmts + NewTable(k, des.vals[k].schema)) + r.stmts &&
        adds + q.fkAdds == (adds + ForeignKeyAdds(k, map[], des.vals[k].schema.fks, 0)) + r.fkAdds
  {
    KeyIs(des, i);
    hide NewTable, ForeignKeyAdds, OMap<Desired>.Ok;
    var k := des.keys[i];
    if k !in cur {
      Regroup(stmts, NewTable(k, des.vals[k].schema), NewTables(cur, des, i + 1).stmts);
      Regroup(adds, ForeignKeyAdds(k, map[], des.vals[k].schema.fks, 0), NewTables(cur, des, i + 1).fkAdds);
    }
  }

  lemma Regroup(a: seq<Stmt>, b: seq<Stmt>, c: seq<Stmt>)
    ensures a + (b + c) == (a + b) + c
  {
  }

  // What has been emitted, in front of what is still to come.
  function Behind(drops: seq<Stmt>, stmts: seq<Stmt>, adds: seq<Stmt>, r: Result<Plan>): Result<Plan> {
    if r.Err? then r else Ok(Plan([], drops + r.value.fkDrops, stmts + r.value.stmts, [], adds + r.value.fkAdds))
  }

  lemma ChangedEnds(cur: map<string, Schema>, des: OMap<Desired>, p: Policy)
    ensures ChangedTables(cur, des, p, |des.keys|) == Ok(Plan([], [], [], [], []))
    ensures Behind([], [], [], ChangedTables(cur, des, p, 0)) == ChangedTables(cur, des, p, 0)
    ensures forall a, b, c :: Behind(a, b, c, Ok(Plan([], [], [], [], []))) == Ok(Plan([], a, b, [], c))
    ensures forall a, b, c, e :: Behind(a, b, c, Err(e)) == Err(e)
  {
    hide RenameWithin, TablePlan;
    var r := ChangedTables(cur, des, p, 0);
    if r.Ok? {
      ChangedShape(cur, des, p, 0);
      assert [] + r.value.fkDrops == r.value.fkDrops && [] + r.value.stmts == r.value.stmts &&
        [] + r.value.fkAdds == r.value.fkAdds;
    }
    assert forall s: seq<Stmt> :: s + [] == s;
  }

  lemma {:induction false} ChangedShape(cur: map<string, Schema>, des: OMap<Desired>, p: Policy, i: nat)
    requires i <= |des.keys|
    ensures var r := ChangedTables(cur, des, p, i); r.Ok? ==>
      r.value == Plan([], r.value.fkDrops, r.value.stmts, [], r.value.fkAdds)
    decreases |des.keys| - i
  {
    hide RenameWithin, TablePlan;
    if i < |des.keys| { ChangedShape(cur, des, p, i + 1); }
  }

  lemma ChangedStepIs(cur: map<string, Schema>, des: OMap<Desired>, p: Policy, i: nat, drops: seq<Stmt>,
    stmts: seq<Stmt>, adds: seq<Stmt>)
    requires i < |des.keys| && des.keys[i] in des.vals
    ensures var k, q, r := des.keys[i], ChangedTables(cur, des, p, i), ChangedTables(cur, des, p, i + 1);
      if k !in cur then q == r
      else
        var w := RenameWithin(cur, des, k);
        if w.Err? then q == Err(w.error)
        else
          var t := TablePlan(k, w.value, des.vals[k].schema, p);
          Behind(drops, stmts, adds, q) == Behind(drops + t.fkDrops, stmts + t.stmts, adds + t.fkAdds, r)
  {
    hide RenameWithin, TablePlan;
    var k, r := des.keys[i], ChangedTables(cur, des, p, i + 1);
    if k in cur && RenameWithin(cur, des, k).Ok? && r.Ok? {
      var t := TablePlan(k, RenameWithin(cur, des, k).value, des.vals[k].schema, p);
      Regroup(drops, t.fkDrops, r.value.fkDrops);
      Regroup(stmts, t.stmts, r.value.stmts);
      Regroup(adds, t.fkAdds, r.value.fkAdds);
    }
  }

  lemma GoneEnds(c: OMap<Schema>, des: OMap<Desired>, allowed: bool)
    ensures GoneTables(c, des.vals, allowed, |c.keys|) == Plan([], [], [], [], [])
    ensures var r := GoneTables(c, des.vals, allowed, 0); r == Plan([], [] + r.fkDrops, [], [] + r.drops, [])
    ensures forall s: seq<Stmt> :: s + [] == s
  {
    GoneShape(c, des, allowed, 0);
  }

  lemma {:induction false} GoneShape(c: OMap<Schema>, des: OMap<Desired>, allowed: bool, i: nat)
    requires i <= |c.keys|
    ensures var r := GoneTables(c, des.vals, allowed, i); r == Plan([], r.fkDrops, [], r.drops, [])
    decreases |c.keys| - i
  {
    if i < |c.keys| { GoneShape(c, des, allowed, i + 1); }
  }

  lemma GoneStepIs(c: OMap<Schema>, des: OMap<Desired>, allowed: bool, i: nat, fkDrops: seq<Stmt>, drops: seq<Stmt>)
    requires c.Ok() && i < |c.keys|
    ensures var k, q, r := c.keys[i], GoneTables(c, des.vals, allowed, i), GoneTables(c, des.vals, allowed, i + 1);
      k in c.vals &&
      if k in des.vals || !allowed then q == r
      else
        fkDrops + q.fkDrops == (fkDrops + AllForeignKeyDrops(k, c.vals[k].fks.keys)) + r.fkDrops &&
        drops + q.drops == (drops + [DropTable(k)]) + r.drops
  {
    KeyIs(c, i);
    hide AllForeignKeyDrops, OMap<Schema>.Ok;
    var k, r := c.keys[i], GoneTables(c, des.vals, allowed, i + 1);
    Regroup(fkDrops, AllForeignKeyDrops(k, c.vals[k].fks.keys), r.fkDrops);
    Regroup(drops, [DropTable(k)], r.drops);
  }

  lemma NoDropsYet(k: string, names: seq<string>)
    ensures AllForeignKeyDrops(k, names[..0]) == []
    ensures forall s: seq<Stmt> :: s + [] == s
  {
  }

  lemma DropsSnoc(k: string, names: seq<string>, j: nat, before: seq<Stmt>)
    requires j < |names|
    ensures before + AllForeignKeyDrops(k, names[..j + 1]) ==
      (before + AllForeignKeyDrops(k, names[..j])) + [DropForeignKey(k, names[j])]
  {
    assert AllForeignKeyDrops(k, names[..j + 1]) == AllForeignKeyDrops(k, names[..j]) + [DropForeignKey(k, names[j])];
  }
}
