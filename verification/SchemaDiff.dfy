/** The table diff as the program computes it: loops that re-key and overwrite the current schema in place. */
module SchemaDiff {
  import opened Common
  import opened SortedNames
  import opened SchemaModel
  import opened SchemaSpec
  import opened SchemaRename

  /* ----- facts the loops need ----- */

  function Prepend(ps: seq<Pair>, r: Result<seq<Pair>>): Result<seq<Pair>> {
    if r.Ok? then Ok(ps + r.value) else r
  }

  lemma {:induction false} RenameKeysSnoc<V>(m: OMap<V>, ps: seq<Pair>, q: Pair)
    ensures RenameKeys(m, ps + [q]) == RenameKeys(RenameKeys(m, ps), [q])
    decreases |ps|
  {
    if ps == [] {
      assert [] + [q] == [q];
    } else {
      assert (ps + [q])[0] == ps[0] && (ps + [q])[1..] == ps[1..] + [q];
      if ps[0].o !in m.vals { RenameKeysSnoc(m, ps[1..], q); }
      else { RenameKeysSnoc(m.Delete(ps[0].o).Set(ps[0].n, m.vals[ps[0].o]), ps[1..], q); }
    }
  }

  lemma RenameKeysOne<V>(m: OMap<V>, o: string, n: string)
    requires o in m.vals
    ensures RenameKeys(m, [Pair(o, n)]) == m.Delete(o).Set(n, m.vals[o])
    ensures m.Delete(o).Set(n, m.vals[o]).vals.Keys == m.vals.Keys - {o} + {n}
  {
    assert [Pair(o, n)][1..] == [];
  }

  lemma PrependOne(done: seq<Pair>, q: Pair, r: Result<seq<Pair>>)
    ensures Prepend(done, Prepend([q], r)) == Prepend(done + [q], r)
  {
    if r.Ok? { assert done + ([q] + r.value) == (done + [q]) + r.value; }
  }

  // Whether two entries are renamed from the same source.
  method HasDuplicateSource(keys: seq<string>, from: map<string, string>) returns (dup: bool)
    ensures dup <==> SharesSource(keys, from)
  {
    var seen: set<string> := {};
    for i := 0 to |keys|
      invariant forall a :: 0 <= a < i && From(from, keys[a]) != "" ==> From(from, keys[a]) in seen
      invariant forall x :: x in seen ==> exists a :: 0 <= a < i && From(from, keys[a]) == x
      invariant forall a, b :: 0 <= a < b < i && From(from, keys[a]) != "" ==>
        From(from, keys[a]) != From(from, keys[b])
    {
      var o := From(from, keys[i]);
      if o == "" { continue; }
      if o in seen { return true; }
      seen := seen + {o};
    }
    return false;
  }

  // Old names to new ones.
  method ColumnRenameMap(keys: seq<string>, from: map<string, string>) returns (m: map<string, string>)
    ensures m == RenameMap(keys, from)
  {
    m := map[];
    for i := 0 to |keys|
      invariant m == RenameMap(keys[..i], from)
    {
      assert keys[..i + 1][..i] == keys[..i];
      if From(from, keys[i]) != "" { m := m[From(from, keys[i]) := keys[i]]; }
    }
    assert keys[..|keys|] == keys;
  }

  // The typo guard for foreign keys.
  method ValidateForeignKeyRenames(current: set<string>, keys: seq<string>, from: map<string, string>)
    returns (r: Result<()>)
    ensures r == Guard(current, keys, from)
  {
    var dup := HasDuplicateSource(keys, from);
    if dup { return Err(RenameError.DuplicateSource); }
    for i := 0 to |keys|
      invariant GuardLoop(current, keys, from, 0) == GuardLoop(current, keys, from, i)
    {
      var n := keys[i];
      var o := From(from, n);
      if o == "" || o == n { continue; }
      if o in keys { return Err(SourceDeclared); }
      if o !in current {
        if n in current { continue; }
        return Err(SourceMissing);
      }
      if n in current { return Err(DestinationExists); }
    }
    return Ok(());
  }

  method RewriteNames(m: map<string, string>, s: seq<string>) returns (r: seq<string>)
    ensures r == SubNames(m, s)
  {
    r := s;
    for i := 0 to |s|
      invariant |r| == |s|
      invariant forall j :: 0 <= j < i ==> r[j] == Sub(m, s[j])
      invariant forall j :: i <= j < |s| ==> r[j] == s[j]
    {
      if r[i] in m { r := r[i := m[r[i]]]; }
    }
  }

  method RewriteOwnRefs(k: string, m: map<string, string>, fk: ForeignKey) returns (r: ForeignKey)
    ensures r == OwnRefs(m, k, fk)
  {
    var cols := RewriteNames(m, fk.cols);
    r := fk.(cols := cols);
    if r.refTable == k {
      var refCols := RewriteNames(m, r.refCols);
      r := r.(refCols := refCols);
    }
  }

  method RewriteParts(m: map<string, string>, s: seq<Part>) returns (r: seq<Part>)
    ensures r == SubParts(m, s)
  {
    r := s;
    for i := 0 to |s|
      invariant |r| == |s|
      invariant forall j :: 0 <= j < i ==> r[j] == s[j].(column := Sub(m, s[j].column))
      invariant forall j :: i <= j < |s| ==> r[j] == s[j]
    {
      if r[i].column in m { r := r[i := r[i].(column := m[r[i].column])]; }
    }
  }

  // A prefix of the keys of a map has been visited.
  lemma Visited<V>(m: OMap<V>, i: nat)
    requires m.Ok() && i < |m.keys|
    ensures m.keys[i] in m.vals && m.keys[i] !in m.keys[..i]
    ensures forall x :: x in m.keys[..i + 1] <==> x in m.keys[..i] || x == m.keys[i]
  {
    assert m.keys[i] in Elems(m.keys);
    assert m.keys[..i + 1] == m.keys[..i] + [m.keys[i]];
  }

  lemma AllVisited<V>(m: OMap<V>)
    requires m.Ok()
    ensures forall x :: x in m.keys[..|m.keys|] <==> x in m.vals
  {
    assert m.keys[..|m.keys|] == m.keys;
    assert forall x :: x in m.keys <==> x in Elems(m.keys);
  }

  lemma NoSub(s: seq<string>)
    ensures SubNames(map[], s) == s
  {
  }

  /* ----- the current side of one table ----- */

  class CurrentTable {
    var cols: OMap<string>
    var pk: seq<Part>
    var indexes: OMap<Index>
    var fks: OMap<ForeignKey>

    constructor (s: Schema)
      ensures Value() == s
    {
      cols, pk, indexes, fks := s.cols, s.pk, s.indexes, s.fks;
    }

    function Value(): Schema
      reads this
    {
      Schema(cols, pk, indexes, fks)
    }

    ghost predicate Valid()
      reads this
    {
      cols.Ok() && indexes.Ok() && fks.Ok()
    }

    // Columns are re-keyed as their directives come up; the renames to run are returned.
    method ApplyColumnRenames(keys: seq<string>, from: map<string, string>) returns (r: Result<seq<Pair>>)
      modifies this`cols
      ensures r == RenamePairs(old(cols).vals.Keys, keys, from)
      ensures r.Ok? ==> cols == RenameKeys(old(cols), r.value)
    {
      var dup := HasDuplicateSource(keys, from);
      if dup { return Err(RenameError.DuplicateSource); }
      var done: seq<Pair> := [];
      assert forall q: Result<seq<Pair>> :: q.Ok? ==> [] + q.value == q.value;
      for i := 0 to |keys|
        invariant RenameLoop(old(cols).vals.Keys, keys, from, 0) ==
          Prepend(done, RenameLoop(cols.vals.Keys, keys, from, i))
        invariant cols == RenameKeys(old(cols), done)
      {
        var n := keys[i];
        var o := From(from, n);
        if o == "" || o == n { continue; }
        if o in keys { return Err(SourceDeclared); }
        if o !in cols.vals {
          if n in cols.vals { continue; }
          return Err(SourceMissing);
        }
        if n in cols.vals { return Err(DestinationExists); }
        ghost var was := cols;
        PrependOne(done, Pair(o, n), RenameLoop(was.vals.Keys - {o} + {n}, keys, from, i + 1));
        RenameKeysSnoc(old(cols), done, Pair(o, n));
        RenameKeysOne(was, o, n);
        var c := cols.vals[o];
        cols := cols.Delete(o);
        cols := cols.Set(n, c);
        done := done + [Pair(o, n)];
      }
      assert done + [] == done;
      return Ok(done);
    }

    method ApplyIndexRenames(keys: seq<string>, from: map<string, string>) returns (r: Result<seq<Pair>>)
      modifies this`indexes
      ensures r == RenamePairs(old(indexes).vals.Keys, keys, from)
      ensures r.Ok? ==> indexes == RenameKeys(old(indexes), r.value)
    {
      var dup := HasDuplicateSource(keys, from);
      if dup { return Err(RenameError.DuplicateSource); }
      var done: seq<Pair> := [];
      assert forall q: Result<seq<Pair>> :: q.Ok? ==> [] + q.value == q.value;
      for i := 0 to |keys|
        invariant RenameLoop(old(indexes).vals.Keys, keys, from, 0) ==
          Prepend(done, RenameLoop(indexes.vals.Keys, keys, from, i))
        invariant indexes == RenameKeys(old(indexes), done)
      {
        var n := keys[i];
        var o := From(from, n);
        if o == "" || o == n { continue; }
        if o in keys { return Err(SourceDeclared); }
        if o !in indexes.vals {
          if n in indexes.vals { continue; }
          return Err(SourceMissing);
        }
        if n in indexes.vals { return Err(DestinationExists); }
        ghost var was := indexes;
        PrependOne(done, Pair(o, n), RenameLoop(was.vals.Keys - {o} + {n}, keys, from, i + 1));
        RenameKeysSnoc(old(indexes), done, Pair(o, n));
        RenameKeysOne(was, o, n);
        var c := indexes.vals[o];
        indexes := indexes.Delete(o);
        indexes := indexes.Set(n, c);
        done := done + [Pair(o, n)];
      }
      assert done + [] == done;
      return Ok(done);
    }

    // Index parts follow the renamed columns.
    method RewriteIndexColumnRefs(m: map<string, string>)
      requires indexes.Ok()
      modifies this`indexes
      ensures indexes == SubIndexes(m, old(indexes))
    {
      hide *;
      var names := indexes.keys;
      ghost var goal := map n | n in old(indexes).vals :: SubIndex(m, old(indexes).vals[n]);
      for i := 0 to |names|
        invariant indexes.keys == names && indexes.vals.Keys == old(indexes).vals.Keys
        invariant forall x :: x in indexes.vals ==>
          indexes.vals[x] == if x in names[..i] then goal[x] else old(indexes).vals[x]
      {
        Visited(old(indexes), i);
        var x := names[i];
        var parts := RewriteParts(m, indexes.vals[x].parts);
        SubIndexAt(m, old(indexes), x);
        indexes := OMap(names, indexes.vals[x := Index(parts, indexes.vals[x].attrs)]);
      }
      AllVisited(old(indexes));
      SubIndexesAre(m, old(indexes));
      assert indexes.vals == goal;
    }

    // The table's own foreign keys follow: their columns, and the referenced ones where the table points at itself.
    method RewriteFKColumnRefs(k: string, m: map<string, string>)
      requires fks.Ok()
      modifies this`fks
      ensures fks == OMap(old(fks).keys, map n | n in old(fks).vals :: OwnRefs(m, k, old(fks).vals[n]))
    {
      hide *;
      var names := fks.keys;
      ghost var goal := map n | n in old(fks).vals :: OwnRefs(m, k, old(fks).vals[n]);
      for i := 0 to |names|
        invariant fks.keys == names && fks.vals.Keys == old(fks).vals.Keys
        invariant forall x :: x in fks.vals ==> fks.vals[x] == if x in names[..i] then goal[x] else old(fks).vals[x]
      {
        Visited(old(fks), i);
        var x := names[i];
        var fk := RewriteOwnRefs(k, m, fks.vals[x]);
        fks := OMap(names, fks.vals[x := fk]);
      }
      AllVisited(old(fks));
      assert fks.vals == goal;
    }

    // The primary key follows.
    method RewriteConstraintColumnRefs(m: map<string, string>)
      modifies this`pk
      ensures pk == SubParts(m, old(pk))
    {
      pk := RewriteParts(m, pk);
    }

    // All the renames of one table.
    method ApplyRenames(k: string, d: Desired) returns (r: Result<Renamed>)
      requires Valid()
      modifies this
      ensures r == RenamedBy(old(Value()), d, k)
      ensures r.Ok? ==> Value() == r.value.schema
    {
      var m := ColumnRenameMap(d.schema.cols.keys, d.colFrom);
      var colRenames := ApplyColumnRenames(d.schema.cols.keys, d.colFrom);
      if colRenames.Err? { return Err(colRenames.error); }
      RewriteIndexColumnRefs(m);
      RewriteFKColumnRefs(k, m);
      RewriteConstraintColumnRefs(m);
      assert indexes.vals.Keys == old(indexes).vals.Keys;
      assert fks.vals.Keys == old(fks).vals.Keys;
      var idxRenames := ApplyIndexRenames(d.schema.indexes.keys, d.idxFrom);
      if idxRenames.Err? { return Err(idxRenames.error); }
      var guard := ValidateForeignKeyRenames(fks.vals.Keys, d.schema.fks.keys, d.fkFrom);
      if guard.Err? { return Err(guard.error); }
      return Ok(Renamed(Value(), colRenames.value, idxRenames.value));
    }

    // New and changed columns in desired order, each behind its predecessor; then the dropped ones.
    method DiffColumns(k: string, d: OMap<string>, allowed: bool) returns (stmts: seq<Stmt>)
      requires d.Ok()
      ensures stmts == ColumnAdds(k, cols.vals, d, 0) +
        if allowed then ColumnDrops(k, Gone<string, string>(cols.keys, d.vals)) else []
    {
      hide *;
      stmts := [];
      var anchor := "";
      for i := 0 to |d.keys|
        invariant anchor == if i == 0 then "" else d.keys[i - 1]
        invariant ColumnAdds(k, cols.vals, d, 0) == stmts + ColumnAdds(k, cols.vals, d, i)
      {
        ColumnAddsStep(k, cols.vals, d, i);
        var name := d.keys[i];
        if name !in cols.vals {
          Emit(stmts, AddColumn(k, name, d.vals[name], anchor), ColumnAdds(k, cols.vals, d, i + 1));
          stmts := stmts + [AddColumn(k, name, d.vals[name], anchor)];
        } else if cols.vals[name] != d.vals[name] {
          Emit(stmts, ModifyColumn(k, name, d.vals[name]), ColumnAdds(k, cols.vals, d, i + 1));
          stmts := stmts + [ModifyColumn(k, name, d.vals[name])];
        }
        anchor := name;
      }
      NoMoreAdds(k, cols.vals, d);
      var gone := DroppedColumns(cols.keys, d.vals);
      ghost var adds := stmts;
      NoDrops(k, gone);
      for i := 0 to |gone|
        invariant stmts == adds + if allowed then ColumnDrops(k, gone[..i]) else []
      {
        ColumnDropsSnoc(k, gone, i);
        if !allowed { continue; }
        stmts := stmts + [DropColumn(k, gone[i])];
      }
      assert gone[..|gone|] == gone;
    }

    method DiffIndexes(k: string, d: OMap<Index>, allowed: bool, dropped: set<string>) returns (stmts: seq<Stmt>)
      requires indexes.Ok() && d.Ok()
      ensures stmts == IndexDrops(k, indexes, d, allowed, dropped, 0) + IndexCreates(k, indexes.vals, d, 0)
    {
      hide *;
      stmts := [];
      for i := 0 to |indexes.keys|
        invariant IndexDrops(k, indexes, d, allowed, dropped, 0) ==
          stmts + IndexDrops(k, indexes, d, allowed, dropped, i)
      {
        IndexDropsStep(k, indexes, d, allowed, dropped, i);
        var name := indexes.keys[i];
        var ci := indexes.vals[name];
        if name in d.vals && ci == d.vals[name] { continue; }
        var all := PartsAllDropped(ci.parts, dropped);
        if all { continue; }
        if name !in d.vals && !allowed { continue; }
        Emit(stmts, DropIndex(k, name), IndexDrops(k, indexes, d, allowed, dropped, i + 1));
        stmts := stmts + [DropIndex(k, name)];
      }
      NoMoreIndexes(k, indexes, d, allowed, dropped);
      assert stmts + [] == stmts;
      ghost var drops := stmts;
      for i := 0 to |d.keys|
        invariant drops + IndexCreates(k, indexes.vals, d, 0) == stmts + IndexCreates(k, indexes.vals, d, i)
      {
        IndexCreatesStep(k, indexes.vals, d, i);
        var name := d.keys[i];
        if name in indexes.vals && indexes.vals[name] == d.vals[name] { continue; }
        Emit(stmts, CreateIndex(k, name, d.vals[name]), IndexCreates(k, indexes.vals, d, i + 1));
        stmts := stmts + [CreateIndex(k, name, d.vals[name])];
      }
      assert stmts + [] == stmts;
    }

    method DiffForeignKeys(k: string, d: OMap<ForeignKey>, allowed: bool) returns (drops: seq<Stmt>, adds: seq<Stmt>)
      requires fks.Ok() && d.Ok()
      ensures drops == ForeignKeyDrops(k, fks, d.vals, allowed, 0)
      ensures adds == ForeignKeyAdds(k, fks.vals, d, 0)
    {
      hide *;
      drops, adds := [], [];
      NoMoreKeys(k, fks, d, allowed);
      for i := 0 to |fks.keys|
        invariant ForeignKeyDrops(k, fks, d.vals, allowed, 0) == drops + ForeignKeyDrops(k, fks, d.vals, allowed, i)
      {
        ForeignKeyDropsStep(k, fks, d.vals, allowed, i);
        var name := fks.keys[i];
        if name in d.vals && fks.vals[name] == d.vals[name] { continue; }
        if name !in d.vals && !allowed { continue; }
        Emit(drops, DropForeignKey(k, name), ForeignKeyDrops(k, fks, d.vals, allowed, i + 1));
        drops := drops + [DropForeignKey(k, name)];
      }
      for i := 0 to |d.keys|
        invariant ForeignKeyAdds(k, fks.vals, d, 0) == adds + ForeignKeyAdds(k, fks.vals, d, i)
      {
        ForeignKeyAddsStep(k, fks.vals, d, i);
        var name := d.keys[i];
        if name in fks.vals && fks.vals[name] == d.vals[name] { continue; }
        Emit(adds, AddForeignKey(k, name, d.vals[name]), ForeignKeyAdds(k, fks.vals, d, i + 1));
        adds := adds + [AddForeignKey(k, name, d.vals[name])];
      }
      assert drops + [] == drops && adds + [] == adds;
    }

    method DiffConstraints(k: string, d: seq<Part>, allowed: bool) returns (stmts: seq<Stmt>)
      ensures stmts == KeyDrop(k, pk, d, allowed) + KeyAdd(k, pk, d)
    {
      stmts := [];
      if pk != [] && !(d != [] && pk == d) && (d != [] || allowed) {
        stmts := stmts + [DropPrimaryKey(k)];
      }
      if d != [] && pk != d {
        stmts := stmts + [AddPrimaryKey(k, d)];
      }
    }

    // Everything one table contributes to the plan.
    method DiffTable(k: string, d: Desired, p: Policy) returns (r: Result<Plan>)
      requires Valid() && d.schema.cols.Ok() && d.schema.indexes.Ok() && d.schema.fks.Ok()
      modifies this
      ensures var q := RenamedBy(old(Value()), d, k);
        r == if q.Err? then Err(q.error) else Ok(TablePlan(k, q.value, d.schema, p))
    {
      ghost var was := Value();
      var renamed := ApplyRenames(k, d);
      if renamed.Err? { return Err(renamed.error); }
      RenamedStaysValid(was, d, k);
      var stmts := ColumnRenames(k, renamed.value.cols) + IndexRenames(k, renamed.value.indexes);
      var colStmts := DiffColumns(k, d.schema.cols, p.column);
      var conStmts := DiffConstraints(k, d.schema.pk, p.constraint);
      var dropped: set<string> := {};
      if p.column {
        var names := DroppedColumns(cols.keys, d.schema.cols.vals);
        dropped := Elems(names);
      }
      var idxStmts := DiffIndexes(k, d.schema.indexes, p.index, dropped);
      var fkDrops, fkAdds := DiffForeignKeys(k, d.schema.fks, p.foreignKey);
      LocalParts(k, renamed.value.schema, d.schema, p, colStmts, conStmts, idxStmts);
      return Ok(Plan([], fkDrops, stmts + (colStmts + conStmts + idxStmts), [], fkAdds));
    }
  }

  // One more statement.
  lemma Emit(a: seq<Stmt>, x: Stmt, b: seq<Stmt>)
    ensures a + ([x] + b) == (a + [x]) + b
  {
  }

  lemma ColumnAddsStep(k: string, cur: map<string, string>, d: OMap<string>, i: nat)
    requires d.Ok() && i < |d.keys|
    ensures var n, rest := d.keys[i], ColumnAdds(k, cur, d, i + 1);
      n in d.vals &&
      ColumnAdds(k, cur, d, i) ==
        if n !in cur then [AddColumn(k, n, d.vals[n], if i == 0 then "" else d.keys[i - 1])] + rest
        else if cur[n] != d.vals[n] then [ModifyColumn(k, n, d.vals[n])] + rest
        else rest
  {
    assert d.keys[i] in Elems(d.keys);
  }

  lemma NoMoreAdds(k: string, cur: map<string, string>, d: OMap<string>)
    ensures ColumnAdds(k, cur, d, |d.keys|) == []
  {
  }

  lemma NoMoreIndexes(k: string, cur: OMap<Index>, d: OMap<Index>, allowed: bool, dropped: set<string>)
    ensures IndexDrops(k, cur, d, allowed, dropped, |cur.keys|) == [] && IndexCreates(k, cur.vals, d, |d.keys|) == []
  {
  }

  lemma NoDrops(k: string, gone: seq<string>)
    ensures ColumnDrops(k, gone[..0]) == [] && forall s: seq<Stmt> :: s + [] == s
  {
  }

  lemma ColumnDropsSnoc(k: string, gone: seq<string>, i: nat)
    requires i < |gone|
    ensures ColumnDrops(k, gone[..0]) == [] &&
      ColumnDrops(k, gone[..i + 1]) == ColumnDrops(k, gone[..i]) + [DropColumn(k, gone[i])]
  {
  }

  lemma IndexDropsStep(k: string, cur: OMap<Index>, d: OMap<Index>, allowed: bool, dropped: set<string>, i: nat)
    requires cur.Ok() && i < |cur.keys|
    ensures var n, rest := cur.keys[i], IndexDrops(k, cur, d, allowed, dropped, i + 1);
      n in cur.vals &&
      IndexDrops(k, cur, d, allowed, dropped, i) ==
        if (n in d.vals && cur.vals[n] == d.vals[n]) || AllPartsDropped(cur.vals[n].parts, dropped) ||
          (n !in d.vals && !allowed) then rest
        else [DropIndex(k, n)] + rest
  {
    assert cur.keys[i] in Elems(cur.keys);
    hide AllPartsDropped;
  }

  lemma IndexCreatesStep(k: string, cur: map<string, Index>, d: OMap<Index>, i: nat)
    requires d.Ok() && i < |d.keys|
    ensures var n, rest := d.keys[i], IndexCreates(k, cur, d, i + 1);
      n in d.vals &&
      IndexCreates(k, cur, d, i) == if n in cur && cur[n] == d.vals[n] then rest
        else [CreateIndex(k, n, d.vals[n])] + rest
  {
    assert d.keys[i] in Elems(d.keys);
  }

  lemma ForeignKeyDropsStep(k: string, cur: OMap<ForeignKey>, d: map<string, ForeignKey>, allowed: bool, i: nat)
    requires cur.Ok() && i < |cur.keys|
    ensures var n, rest := cur.keys[i], ForeignKeyDrops(k, cur, d, allowed, i + 1);
      n in cur.vals &&
      ForeignKeyDrops(k, cur, d, allowed, i) ==
        if (n in d && cur.vals[n] == d[n]) || (n !in d && !allowed) then rest else [DropForeignKey(k, n)] + rest
  {
    assert cur.keys[i] in Elems(cur.keys);
  }

  lemma ForeignKeyAddsStep(k: string, cur: map<string, ForeignKey>, d: OMap<ForeignKey>, i: nat)
    requires d.Ok() && i < |d.keys|
    ensures var n, rest := d.keys[i], ForeignKeyAdds(k, cur, d, i + 1);
      n in d.vals &&
      ForeignKeyAdds(k, cur, d, i) == if n in cur && cur[n] == d.vals[n] then rest
        else [AddForeignKey(k, n, d.vals[n])] + rest
  {
    assert d.keys[i] in Elems(d.keys);
  }

  lemma NoMoreKeys(k: string, cur: OMap<ForeignKey>, d: OMap<ForeignKey>, allowed: bool)
    ensures ForeignKeyDrops(k, cur, d.vals, allowed, |cur.keys|) == [] && ForeignKeyAdds(k, cur.vals, d, |d.keys|) == []
    ensures [] + ForeignKeyDrops(k, cur, d.vals, allowed, 0) == ForeignKeyDrops(k, cur, d.vals, allowed, 0)
    ensures [] + ForeignKeyAdds(k, cur.vals, d, 0) == ForeignKeyAdds(k, cur.vals, d, 0)
  {
  }

  function SubIndex(m: map<string, string>, x: Index): Index {
    Index(SubParts(m, x.parts), x.attrs)
  }

  lemma SubIndexAt(m: map<string, string>, was: OMap<Index>, x: string)
    requires x in was.vals
    ensures SubIndex(m, was.vals[x]) == Index(SubParts(m, was.vals[x].parts), was.vals[x].attrs)
  {
    hide SubParts;
  }

  lemma SubIndexesAre(m: map<string, string>, was: OMap<Index>)
    ensures SubIndexes(m, was) == OMap(was.keys, map n | n in was.vals :: SubIndex(m, was.vals[n]))
  {
    hide SubParts;
  }

  lemma RenamedStaysValid(c: Schema, d: Desired, k: string)
    requires c.cols.Ok() && c.indexes.Ok() && c.fks.Ok() && RenamedBy(c, d, k).Ok?
    requires Distinct(d.schema.cols.keys) && Distinct(d.schema.indexes.keys)
    ensures var s := RenamedBy(c, d, k).value.schema; s.cols.Ok() && s.indexes.Ok() && s.fks.Ok()
  {
    hide RenamePairs, Guard, SubParts, RenameMap, RenameKeys, Distinct, Elems;
    var s := RenamedBy(c, d, k).value;
    AcceptedArePairing(c.cols.vals.Keys, d.schema.cols.keys, d.colFrom);
    RenameKeysOk(c.cols, s.cols);
    var x := SubIndexes(ColumnMap(d), c.indexes);
    assert x.vals.Keys == c.indexes.vals.Keys;
    AcceptedArePairing(x.vals.Keys, d.schema.indexes.keys, d.idxFrom);
    RenameKeysOk(x, s.indexes);
    assert s.schema.fks.vals.Keys == c.fks.vals.Keys;
  }

  lemma LocalParts(k: string, c: Schema, d: Schema, p: Policy, cols: seq<Stmt>, cons: seq<Stmt>, idxs: seq<Stmt>)
    requires cols == ColumnAdds(k, c.cols.vals, d.cols, 0) +
      if p.column then ColumnDrops(k, Gone<string, string>(c.cols.keys, d.cols.vals)) else []
    requires cons == KeyDrop(k, c.pk, d.pk, p.constraint) + KeyAdd(k, c.pk, d.pk)
    requires idxs ==
      IndexDrops(k, c.indexes, d.indexes, p.index,
        if p.column then Elems(Gone<string, string>(c.cols.keys, d.cols.vals)) else {}, 0)
      + IndexCreates(k, c.indexes.vals, d.indexes, 0)
    ensures LocalStmts(k, c, d, p) == cols + cons + idxs
  {
    hide ColumnAdds, Gone, ColumnDrops, KeyDrop, KeyAdd, IndexDrops, IndexCreates;
  }

  // A foreign key of table k once the columns of k are renamed.
  function OwnRefs(m: map<string, string>, k: string, fk: ForeignKey): ForeignKey {
    ForeignKey(SubNames(m, fk.cols), fk.refTable, if fk.refTable == k then SubNames(m, fk.refCols)
      else fk.refCols, fk.attrs)
  }

  // One table with its directives applied; columns of other tables it refers to are already renamed.
  function RenamedBy(c: Schema, d: Desired, k: string): Result<Renamed> {
    var cols := RenamePairs(c.cols.vals.Keys, d.schema.cols.keys, d.colFrom);
    if cols.Err? then Err(cols.error) else
    var idxs := RenamePairs(c.indexes.vals.Keys, d.schema.indexes.keys, d.idxFrom);
    if idxs.Err? then Err(idxs.error) else
    var guard := Guard(c.fks.vals.Keys, d.schema.fks.keys, d.fkFrom);
    if guard.Err? then Err(guard.error) else
    Ok(Renamed(
      Schema(RenameKeys(c.cols, cols.value), SubParts(ColumnMap(d), c.pk),
        RenameKeys(SubIndexes(ColumnMap(d), c.indexes), idxs.value),
        OMap(c.fks.keys, map n | n in c.fks.vals :: OwnRefs(ColumnMap(d), k, c.fks.vals[n]))),
      cols.value, idxs.value))
  }

  lemma GoneStep<W>(keys: seq<string>, desired: map<string, W>, i: nat)
    requires i < |keys|
    ensures Gone<string, W>(keys[i..], desired) ==
      (if keys[i] in desired then [] else [keys[i]]) + Gone<string, W>(keys[i + 1..], desired)
  {
    assert keys[i..][0] == keys[i] && keys[i..][1..] == keys[i + 1..];
  }

  lemma NothingGoneYet<W>(keys: seq<string>, desired: map<string, W>)
    ensures keys[0..] == keys && Gone<string, W>(keys[|keys|..], desired) == [] &&
      forall s: seq<string> :: s + [] == s && [] + s == s
  {
  }

  method DroppedColumns(keys: seq<string>, desired: map<string, string>) returns (gone: seq<string>)
    ensures gone == Gone<string, string>(keys, desired)
  {
    hide *;
    gone := [];
    NothingGoneYet(keys, desired);
    for i := 0 to |keys|
      invariant Gone<string, string>(keys, desired) == gone + Gone<string, string>(keys[i..], desired)
    {
      GoneStep(keys, desired, i);
      ghost var rest := Gone<string, string>(keys[i + 1..], desired);
      assert gone + ([keys[i]] + rest) == (gone + [keys[i]]) + rest;
      assert [] + rest == rest;
      if keys[i] !in desired { gone := gone + [keys[i]]; }
    }
  }

  method PartsAllDropped(parts: seq<Part>, dropped: set<string>) returns (all: bool)
    ensures all <==> AllPartsDropped(parts, dropped)
  {
    if parts == [] { return false; }
    for i := 0 to |parts|
      invariant forall j :: 0 <= j < i ==> parts[j].column != "" && parts[j].column in dropped
    {
      if parts[i].column == "" || parts[i].column !in dropped { return false; }
    }
    return true;
  }
}
