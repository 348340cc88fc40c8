/** Statements that destroy something are planned only with permission, under every policy. */
module SchemaPermits {
  import opened Common
  import opened SortedNames
  import opened SchemaModel
  import opened SchemaSpec
  import opened SchemaReplan
  import opened SchemaPlan

  // A drop is permitted by its policy bit, or the thing comes back changed: the desired table declares it.
  predicate Permitted(des: map<string, Desired>, p: Policy, s: Stmt) {
    match s
    case DropTable(k) => p.table && k !in des
    case DropColumn(k, n) => p.column && k in des && n !in des[k].schema.cols.vals
    case DropIndex(k, n) => k in des && (p.index || n in des[k].schema.indexes.vals)
    case DropPrimaryKey(k) => k in des && (p.constraint || des[k].schema.pk != [])
    case DropForeignKey(k, n) => if k in des then p.foreignKey || n in des[k].schema.fks.vals else p.table
    case _ => true
  }

  predicate AllPermitted(des: map<string, Desired>, p: Policy, ss: seq<Stmt>) {
    forall i :: 0 <= i < |ss| ==> Permitted(des, p, ss[i])
  }

  lemma PermittedAppend(des: map<string, Desired>, p: Policy, a: seq<Stmt>, b: seq<Stmt>)
    requires AllPermitted(des, p, a) && AllPermitted(des, p, b)
    ensures AllPermitted(des, p, a + b)
  {
    hide Permitted;
  }

  lemma {:induction false} AddsPermitted(des: map<string, Desired>, p: Policy, k: string, cur: map<string, string>,
    d: OMap<string>, i: nat)
    requires i <= |d.keys|
    ensures AllPermitted(des, p, ColumnAdds(k, cur, d, i))
    decreases |d.keys| - i
  {
    if i < |d.keys| { AddsPermitted(des, p, k, cur, d, i + 1); }
  }

  lemma {:induction false} GoneIsGone<W>(keys: seq<string>, d: map<string, W>)
    ensures forall i :: 0 <= i < |Gone<string, W>(keys, d)| ==> Gone<string, W>(keys, d)[i] !in d
  {
    if keys != [] { GoneIsGone(keys[1..], d); }
  }

  lemma {:induction false} IndexStmtsPermitted(
    des: map<string, Desired>, p: Policy, k: string, cur: OMap<Index>, d: OMap<Index>, dropped: set<string>, i: nat)
    requires k in des && d == des[k].schema.indexes
    ensures i <= |cur.keys| ==> AllPermitted(des, p, IndexDrops(k, cur, d, p.index, dropped, i))
    ensures i <= |d.keys| ==> AllPermitted(des, p, IndexCreates(k, cur.vals, d, i))
    decreases |cur.keys| + |d.keys| - i
  {
    if i < |cur.keys| || i < |d.keys| { IndexStmtsPermitted(des, p, k, cur, d, dropped, i + 1); }
  }

  lemma {:induction false} KeyStmtsPermitted(
    des: map<string, Desired>, p: Policy, k: string, cur: OMap<ForeignKey>, d: OMap<ForeignKey>, i: nat)
    requires k in des && d == des[k].schema.fks
    ensures i <= |cur.keys| ==> AllPermitted(des, p, ForeignKeyDrops(k, cur, d.vals, p.foreignKey, i))
    ensures i <= |d.keys| ==> AllPermitted(des, p, ForeignKeyAdds(k, cur.vals, d, i))
    decreases |cur.keys| + |d.keys| - i
  {
    if i < |cur.keys| || i < |d.keys| { KeyStmtsPermitted(des, p, k, cur, d, i + 1); }
  }

  lemma ColumnStmtsPermitted(des: map<string, Desired>, p: Policy, k: string, c: Schema)
    requires k in des
    ensures var d := des[k].schema;
      AllPermitted(des, p, ColumnAdds(k, c.cols.vals, d.cols, 0)) &&
      AllPermitted(des, p, if p.column then ColumnDrops(k, Gone<string, string>(c.cols.keys, d.cols.vals)) else [])
  {
    AddsPermitted(des, p, k, c.cols.vals, des[k].schema.cols, 0);
    GoneIsGone(c.cols.keys, des[k].schema.cols.vals);
    hide Gone, ColumnAdds;
  }

  lemma LocalStmtsAre(k: string, c: Schema, d: Schema, p: Policy)
    ensures var gone := Gone<string, string>(c.cols.keys, d.cols.vals);
      LocalStmts(k, c, d, p) ==
        ((ColumnAdds(k, c.cols.vals, d.cols, 0) + (if p.column then ColumnDrops(k, gone) else []))
        + (KeyDrop(k, c.pk, d.pk, p.constraint) + KeyAdd(k, c.pk, d.pk)))
        + IndexDrops(k, c.indexes, d.indexes, p.index, if p.column then Elems(gone) else {}, 0) +
          IndexCreates(k, c.indexes.vals, d.indexes, 0)
  {
    hide Gone, ColumnAdds, ColumnDrops, KeyDrop, KeyAdd, IndexDrops, IndexCreates, Elems;
  }

  lemma ConstraintStmtsPermitted(des: map<string, Desired>, p: Policy, k: string, c: Schema)
    requires k in des
    ensures AllPermitted(des, p, KeyDrop(k, c.pk, des[k].schema.pk, p.constraint) + KeyAdd(k, c.pk, des[k].schema.pk))
  {
  }

  lemma LocalPermitted(des: map<string, Desired>, p: Policy, k: string, c: Schema)
    requires k in des
    ensures AllPermitted(des, p, LocalStmts(k, c, des[k].schema, p))
  {
    hide *;
    var d := des[k].schema;
    var gone := Gone<string, string>(c.cols.keys, d.cols.vals);
    var a, b := ColumnAdds(k, c.cols.vals, d.cols, 0), if p.column then ColumnDrops(k, gone) else [];
    var keys := KeyDrop(k, c.pk, d.pk, p.constraint) + KeyAdd(k, c.pk, d.pk);
    var x, y := IndexDrops(k, c.indexes, d.indexes, p.index, if p.column then Elems(gone) else {}, 0),
      IndexCreates(k, c.indexes.vals, d.indexes, 0);
    ColumnStmtsPermitted(des, p, k, c);
    ConstraintStmtsPermitted(des, p, k, c);
    IndexStmtsPermitted(des, p, k, c.indexes, d.indexes, if p.column then Elems(gone) else {}, 0);
    LocalStmtsAre(k, c, d, p);
    PermittedAppend(des, p, a, b);
    PermittedAppend(des, p, a + b, keys);
    PermittedAppend(des, p, (a + b) + keys, x);
    PermittedAppend(des, p, ((a + b) + keys) + x, y);
  }

  lemma RenamesPermitted(des: map<string, Desired>, p: Policy, k: string, ps: seq<Pair>)
    ensures AllPermitted(des, p, ColumnRenames(k, ps)) && AllPermitted(des, p, IndexRenames(k, ps)) &&
      AllPermitted(des, p, TableRenames(ps))
  {
  }

  lemma TablePermitted(des: map<string, Desired>, p: Policy, k: string, r: Renamed)
    requires k in des
    ensures var t := TablePlan(k, r, des[k].schema, p);
      AllPermitted(des, p, t.fkDrops) && AllPermitted(des, p, t.stmts) && AllPermitted(des, p, t.fkAdds)
  {
    hide *;
    var c, d := r.schema, des[k].schema;
    KeyStmtsPermitted(des, p, k, c.fks, d.fks, 0);
    LocalPermitted(des, p, k, c);
    RenamesPermitted(des, p, k, r.cols);
    RenamesPermitted(des, p, k, r.indexes);
    PermittedAppend(des, p, ColumnRenames(k, r.cols), IndexRenames(k, r.indexes));
    PermittedAppend(des, p, ColumnRenames(k, r.cols) + IndexRenames(k, r.indexes), LocalStmts(k, c, d, p));
    TablePlanIs(k, r, d, p);
  }

  lemma TablePlanIs(k: string, r: Renamed, d: Schema, p: Policy)
    ensures TablePlan(k, r, d, p) == Plan([], ForeignKeyDrops(k, r.schema.fks, d.fks.vals, p.foreignKey, 0),
      ColumnRenames(k, r.cols) + IndexRenames(k, r.indexes) + LocalStmts(k, r.schema, d, p),
      [], ForeignKeyAdds(k, r.schema.fks.vals, d.fks, 0))
  {
    hide ColumnRenames, IndexRenames, LocalStmts, ForeignKeyDrops, ForeignKeyAdds;
  }

  lemma NothingPermitted(des: map<string, Desired>, p: Policy)
    ensures AllPermitted(des, p, [])
  {
  }

  lemma {:induction false} ChangedPermitted(cur: map<string, Schema>, des: OMap<Desired>, p: Policy, i: nat)
    requires i <= |des.keys| && ChangedTables(cur, des, p, i).Ok?
    ensures var q := ChangedTables(cur, des, p, i).value;
      AllPermitted(des.vals, p, q.fkDrops) && AllPermitted(des.vals, p, q.stmts) && AllPermitted(des.vals, p, q.fkAdds)
    decreases |des.keys| - i
  {
    NothingPermitted(des.vals, p);
    hide RenameWithin, TablePlan, AllPermitted;
    if i < |des.keys| {
      var k := des.keys[i];
      ChangedPermitted(cur, des, p, i + 1);
      if k in cur && k in des.vals {
        var r, q := RenameWithin(cur, des, k).value, ChangedTables(cur, des, p, i + 1).value;
        var t := TablePlan(k, r, des.vals[k].schema, p);
        TablePermitted(des.vals, p, k, r);
        PermittedAppend(des.vals, p, t.fkDrops, q.fkDrops);
        PermittedAppend(des.vals, p, t.stmts, q.stmts);
        PermittedAppend(des.vals, p, t.fkAdds, q.fkAdds);
      }
    }
  }

  lemma {:induction false} CreatesPermitted(des: map<string, Desired>, p: Policy, k: string, d: OMap<Index>, i: nat)
    requires i <= |d.keys|
    ensures AllPermitted(des, p, IndexCreates(k, map[], d, i))
    decreases |d.keys| - i
  {
    if i < |d.keys| { CreatesPermitted(des, p, k, d, i + 1); }
  }

  lemma {:induction false} KeyAddsPermitted(des: map<string, Desired>, p: Policy, k: string,
    d: OMap<ForeignKey>, i: nat)
    requires i <= |d.keys|
    ensures AllPermitted(des, p, ForeignKeyAdds(k, map[], d, i))
    decreases |d.keys| - i
  {
    if i < |d.keys| { KeyAddsPermitted(des, p, k, d, i + 1); }
  }

  lemma {:induction false} NewPermitted(cur: map<string, Schema>, des: OMap<Desired>, p: Policy, i: nat)
    requires i <= |des.keys|
    ensures var q := NewTables(cur, des, i); AllPermitted(des.vals, p, q.stmts) && AllPermitted(des.vals, p, q.fkAdds)
    decreases |des.keys| - i
  {
    NothingPermitted(des.vals, p);
    if i < |des.keys| {
      var k := des.keys[i];
      NewPermitted(cur, des, p, i + 1);
      if !(k in cur || k !in des.vals) {
        var s, q := des.vals[k].schema, NewTables(cur, des, i + 1);
        CreatesPermitted(des.vals, p, k, s.indexes, 0);
        KeyAddsPermitted(des.vals, p, k, s.fks, 0);
        PermittedAppend(des.vals, p, [CreateTable(k, s.cols.keys, s.cols.vals, s.pk)],
          IndexCreates(k, map[], s.indexes, 0));
        hide AllPermitted, IndexCreates, ForeignKeyAdds;
        PermittedAppend(des.vals, p, NewTable(k, s), q.stmts);
        PermittedAppend(des.vals, p, ForeignKeyAdds(k, map[], s.fks, 0), q.fkAdds);
      }
    }
  }

  lemma {:induction false} GonePermitted(c: OMap<Schema>, des: map<string, Desired>, p: Policy, i: nat)
    requires i <= |c.keys|
    ensures var q := GoneTables(c, des, p.table, i); AllPermitted(des, p, q.fkDrops) && AllPermitted(des, p, q.drops)
    decreases |c.keys| - i
  {
    NothingPermitted(des, p);
    if i < |c.keys| {
      var k := c.keys[i];
      GonePermitted(c, des, p, i + 1);
      if !(k !in c.vals || k in des || !p.table) {
        var q := GoneTables(c, des, p.table, i + 1);
        assert AllPermitted(des, p, AllForeignKeyDrops(k, c.vals[k].fks.keys)) && AllPermitted(des, p, [DropTable(k)]);
        hide AllPermitted, AllForeignKeyDrops;
        PermittedAppend(des, p, AllForeignKeyDrops(k, c.vals[k].fks.keys), q.fkDrops);
        PermittedAppend(des, p, [DropTable(k)], q.drops);
      }
    }
  }

  // Whatever the policy, the plan drops a table, column, index, key or foreign key only with permission,
  // or to put another one of the same name in its place.
  lemma OnlyPermittedDrops(cur: OMap<Schema>, des: OMap<Desired>, p: Policy)
    requires DiffTables(cur, des, p).Ok?
    ensures AllPermitted(des.vals, p, Script(DiffTables(cur, des, p).value))
  {
    PlanIs(cur, des, p);
    var pairs := RenamePairs(cur.vals.Keys, des.keys, TableFrom(des)).value;
    var c := AfterRenames(cur, des);
    var n, m, g := NewTables(c.vals, des, 0), ChangedTables(c.vals, des, p, 0).value,
      GoneTables(c, des.vals, p.table, 0);
    RenamesPermitted(des.vals, p, "", pairs);
    hide *;
    NewPermitted(c.vals, des, p, 0);
    ChangedPermitted(c.vals, des, p, 0);
    GonePermitted(c, des.vals, p, 0);
    var a, b, s := TableRenames(pairs), m.fkDrops + g.fkDrops, n.stmts + m.stmts;
    PermittedAppend(des.vals, p, m.fkDrops, g.fkDrops);
    PermittedAppend(des.vals, p, n.stmts, m.stmts);
    PermittedAppend(des.vals, p, n.fkAdds, m.fkAdds);
    PermittedAppend(des.vals, p, a, b);
    PermittedAppend(des.vals, p, a + b, s);
    PermittedAppend(des.vals, p, a + b + s, g.drops);
    PermittedAppend(des.vals, p, a + b + s + g.drops, n.fkAdds + m.fkAdds);
    ScriptIs(DiffTables(cur, des, p).value);
  }

  lemma ScriptIs(p: Plan)
    ensures Script(p) == p.renames + p.fkDrops + p.stmts + p.drops + p.fkAdds
  {
  }
}
