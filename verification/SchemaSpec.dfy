/** What a table diff should contain, written without loops or mutation. */
module SchemaSpec {
  import opened Common
  import opened SortedNames
  import opened SchemaModel

  // A map that remembers the order of its keys: a new key goes last, a deleted one leaves.
  datatype OMap<V> = OMap(keys: seq<string>, vals: map<string, V>) {
    function Set(k: string, v: V): OMap<V> {
      OMap(if k in vals then keys else keys + [k], vals[k := v])
    }

    function Delete(k: string): OMap<V> {
      OMap(Without(keys, k), vals - {k})
    }

    ghost predicate Ok() {
      Distinct(keys) && Elems(keys) == vals.Keys
    }
  }

  // A table of a schema, current or desired.
  datatype Schema = Schema(cols: OMap<string>, pk: seq<Part>, indexes: OMap<Index>, fks: OMap<ForeignKey>)

  // A desired table with its renamed-from directives: new name to old name, "" for none.
  datatype Desired = Desired(
    schema: Schema, from: string,
    colFrom: map<string, string>, idxFrom: map<string, string>, fkFrom: map<string, string>)

  datatype Policy = Policy(table: bool, column: bool, index: bool, constraint: bool, foreignKey: bool)

  datatype RenameError = DuplicateSource | SourceDeclared | SourceMissing | DestinationExists

  datatype Result<+T> = Ok(value: T) | Err(error: RenameError)

  datatype Pair = Pair(o: string, n: string)

  /* ----- rename directives ----- */

  function From(from: map<string, string>, k: string): string {
    if k in from then from[k] else ""
  }

  // Two entries name the same source.
  predicate SharesSource(keys: seq<string>, from: map<string, string>) {
    exists i, j :: 0 <= i < j < |keys| && From(from, keys[i]) != "" && From(from, keys[i]) == From(from, keys[j])
  }

  // The renames to run, given the names that exist; each check is made when its entry's turn comes.
  function RenameLoop(names: set<string>, keys: seq<string>, from: map<string, string>, i: nat): Result<seq<Pair>>
    requires i <= |keys|
    decreases |keys| - i
  {
    if i == |keys| then Ok([])
    else
      var n := keys[i];
      var o := From(from, n);
      if o == "" || o == n then RenameLoop(names, keys, from, i + 1)
      else if o in keys then Err(SourceDeclared)
      else if o !in names then if n in names then RenameLoop(names, keys, from, i + 1) else Err(SourceMissing)
      else if n in names then Err(DestinationExists)
      else
        var rest := RenameLoop(names - {o} + {n}, keys, from, i + 1);
        if rest.Ok? then Ok([Pair(o, n)] + rest.value) else rest
  }

  function RenamePairs(names: set<string>, keys: seq<string>, from: map<string, string>): Result<seq<Pair>> {
    if SharesSource(keys, from) then Err(DuplicateSource) else RenameLoop(names, keys, from, 0)
  }

  function RenameKeys<V>(m: OMap<V>, ps: seq<Pair>): OMap<V>
    decreases |ps|
  {
    if ps == [] then m
    else if ps[0].o !in m.vals then RenameKeys(m, ps[1..])
    else RenameKeys(m.Delete(ps[0].o).Set(ps[0].n, m.vals[ps[0].o]), ps[1..])
  }

  // The guard for foreign keys: MySQL cannot rename them, so only the directive is checked.
  function GuardLoop(names: set<string>, keys: seq<string>, from: map<string, string>, i: nat): Result<()>
    requires i <= |keys|
    decreases |keys| - i
  {
    if i == |keys| then Ok(())
    else
      var n := keys[i];
      var o := From(from, n);
      if o == "" || o == n then GuardLoop(names, keys, from, i + 1)
      else if o in keys then Err(SourceDeclared)
      else if o !in names then if n in names then GuardLoop(names, keys, from, i + 1) else Err(SourceMissing)
      else if n in names then Err(DestinationExists)
      else GuardLoop(names, keys, from, i + 1)
  }

  function Guard(names: set<string>, keys: seq<string>, from: map<string, string>): Result<()> {
    if SharesSource(keys, from) then Err(DuplicateSource) else GuardLoop(names, keys, from, 0)
  }

  /* ----- rewriting the names a rename changes ----- */

  // columnRenameMap: old name to new name; a later entry wins.
  function RenameMap(keys: seq<string>, from: map<string, string>): map<string, string> {
    if keys == [] then map[]
    else
      var n := keys[|keys| - 1];
      var m := RenameMap(keys[..|keys| - 1], from);
      if From(from, n) == "" then m else m[From(from, n) := n]
  }

  function ColumnMap(d: Desired): map<string, string> {
    RenameMap(d.schema.cols.keys, d.colFrom)
  }

  function Sub(m: map<string, string>, c: string): string {
    if c in m then m[c] else c
  }

  function SubNames(m: map<string, string>, s: seq<string>): (r: seq<string>)
    ensures |r| == |s| && forall i :: 0 <= i < |s| ==> r[i] == Sub(m, s[i])
  {
    seq(|s|, i requires 0 <= i < |s| => Sub(m, s[i]))
  }

  function SubParts(m: map<string, string>, s: seq<Part>): (r: seq<Part>)
    ensures |r| == |s| && forall i :: 0 <= i < |s| ==> r[i] == s[i].(column := Sub(m, s[i].column))
  {
    seq(|s|, i requires 0 <= i < |s| => s[i].(column := Sub(m, s[i].column)))
  }

  function SubIndexes(m: map<string, string>, x: OMap<Index>): OMap<Index> {
    OMap(x.keys, map n | n in x.vals :: Index(SubParts(m, x.vals[n].parts), x.vals[n].attrs))
  }

  // A table rename: the entry moves to its new key, and foreign keys follow its name.
  function RetargetSchema(o: string, n: string, s: Schema): Schema {
    s.(fks := OMap(s.fks.keys, map x | x in s.fks.vals ::
      s.fks.vals[x].(refTable := Ren(o, n, s.fks.vals[x].refTable))))
  }

  function RetargetAll(o: string, n: string, m: OMap<Schema>): OMap<Schema> {
    OMap(m.keys, map t | t in m.vals :: RetargetSchema(o, n, m.vals[t]))
  }

  function RenameTables(m: OMap<Schema>, ps: seq<Pair>): OMap<Schema>
    decreases |ps|
  {
    if ps == [] then m
    else if ps[0].o !in m.vals then RenameTables(m, ps[1..])
    else RenameTables(RetargetAll(ps[0].o, ps[0].n, m.Delete(ps[0].o).Set(ps[0].n, m.vals[ps[0].o])), ps[1..])
  }

  function TableFrom(des: OMap<Desired>): map<string, string> {
    map k | k in des.vals :: des.vals[k].from
  }

  // A foreign key of table t once the columns of the tables in `cur` are renamed as desired says:
  // its own columns by its table's map, the referenced ones by the referenced table's.
  function SubForeignKey(cur: map<string, Schema>, des: OMap<Desired>, t: string, fk: ForeignKey): ForeignKey {
    ForeignKey(
      if t in des.vals then SubNames(ColumnMap(des.vals[t]), fk.cols) else fk.cols, fk.refTable,
      if fk.refTable in des.vals && fk.refTable in cur then SubNames(ColumnMap(des.vals[fk.refTable]), fk.refCols)
        else fk.refCols,
      fk.attrs)
  }

  function SubForeignKeys(cur: map<string, Schema>, des: OMap<Desired>, t: string,
    fks: OMap<ForeignKey>): OMap<ForeignKey> {
    OMap(fks.keys, map n | n in fks.vals :: SubForeignKey(cur, des, t, fks.vals[n]))
  }

  // One table of `cur` with all rename directives applied, and the renames to run for it.
  datatype Renamed = Renamed(schema: Schema, cols: seq<Pair>, indexes: seq<Pair>)

  function RenameWithin(cur: map<string, Schema>, des: OMap<Desired>, k: string): Result<Renamed>
    requires k in cur && k in des.vals
  {
    var c, d := cur[k], des.vals[k];
    var cols := RenamePairs(c.cols.vals.Keys, d.schema.cols.keys, d.colFrom);
    if cols.Err? then Err(cols.error) else
    var idxs := RenamePairs(c.indexes.vals.Keys, d.schema.indexes.keys, d.idxFrom);
    if idxs.Err? then Err(idxs.error) else
    var guard := Guard(c.fks.vals.Keys, d.schema.fks.keys, d.fkFrom);
    if guard.Err? then Err(guard.error) else
    Ok(Renamed(
      Schema(RenameKeys(c.cols, cols.value), SubParts(ColumnMap(d), c.pk),
             RenameKeys(SubIndexes(ColumnMap(d), c.indexes), idxs.value), SubForeignKeys(cur, des, k, c.fks)),
      cols.value, idxs.value))
  }

  /* ----- the statements of one table ----- */

  function ColumnRenames(k: string, ps: seq<Pair>): seq<Stmt> {
    seq(|ps|, i requires 0 <= i < |ps| => RenameColumn(k, ps[i].o, ps[i].n))
  }

  function IndexRenames(k: string, ps: seq<Pair>): seq<Stmt> {
    seq(|ps|, i requires 0 <= i < |ps| => RenameIndex(k, ps[i].o, ps[i].n))
  }

  // New and changed columns, each new one placed after its desired predecessor.
  function ColumnAdds(k: string, cur: map<string, string>, des: OMap<string>, i: nat): seq<Stmt>
    requires i <= |des.keys|
    decreases |des.keys| - i
  {
    if i == |des.keys| then []
    else
      var n := des.keys[i];
      var rest := ColumnAdds(k, cur, des, i + 1);
      if n !in des.vals then rest
      else if n !in cur then [AddColumn(k, n, des.vals[n], if i == 0 then "" else des.keys[i - 1])] + rest
      else if cur[n] != des.vals[n] then [ModifyColumn(k, n, des.vals[n])] + rest
      else rest
  }

  function Gone<V, W>(keys: seq<string>, des: map<string, W>): seq<string> {
    if keys == [] then [] else (if keys[0] in des then [] else [keys[0]]) + Gone<V, W>(keys[1..], des)
  }

  function ColumnDrops(k: string, gone: seq<string>): seq<Stmt> {
    seq(|gone|, i requires 0 <= i < |gone| => DropColumn(k, gone[i]))
  }

  function KeyDrop(k: string, cur: seq<Part>, des: seq<Part>, allowed: bool): seq<Stmt> {
    if cur == [] || cur == des || (des == [] && !allowed) then [] else [DropPrimaryKey(k)]
  }

  function KeyAdd(k: string, cur: seq<Part>, des: seq<Part>): seq<Stmt> {
    if des == [] || cur == des then [] else [AddPrimaryKey(k, des)]
  }

  // MySQL removes an index with its last column.
  predicate AllPartsDropped(parts: seq<Part>, dropped: set<string>) {
    parts != [] && forall i :: 0 <= i < |parts| ==> parts[i].column != "" && parts[i].column in dropped
  }

  predicate SameIndex(cur: map<string, Index>, des: map<string, Index>, n: string) {
    n in cur && n in des && cur[n] == des[n]
  }

  function IndexDrops(k: string, cur: OMap<Index>, des: OMap<Index>, allowed: bool, dropped: set<string>,
    i: nat): seq<Stmt>
    requires i <= |cur.keys|
    decreases |cur.keys| - i
  {
    if i == |cur.keys| then []
    else
      var n := cur.keys[i];
      var rest := IndexDrops(k, cur, des, allowed, dropped, i + 1);
      if n !in cur.vals || SameIndex(cur.vals, des.vals, n) || AllPartsDropped(cur.vals[n].parts, dropped) ||
         (n !in des.vals && !allowed) then rest
      else [DropIndex(k, n)] + rest
  }

  function IndexCreates(k: string, cur: map<string, Index>, des: OMap<Index>, i: nat): seq<Stmt>
    requires i <= |des.keys|
    decreases |des.keys| - i
  {
    if i == |des.keys| then []
    else
      var n := des.keys[i];
      var rest := IndexCreates(k, cur, des, i + 1);
      if n !in des.vals || SameIndex(cur, des.vals, n) then rest
      else [CreateIndex(k, n, des.vals[n])] + rest
  }

  // Everything after the renames, in the order it is emitted.
  function LocalStmts(k: string, c: Schema, d: Schema, p: Policy): seq<Stmt> {
    var gone := Gone<string, string>(c.cols.keys, d.cols.vals);
    ColumnAdds(k, c.cols.vals, d.cols, 0)
    + (if p.column then ColumnDrops(k, gone) else [])
    + KeyDrop(k, c.pk, d.pk, p.constraint) + KeyAdd(k, c.pk, d.pk)
    + IndexDrops(k, c.indexes, d.indexes, p.index, if p.column then Elems(gone) else {}, 0)
    + IndexCreates(k, c.indexes.vals, d.indexes, 0)
  }

  predicate SameForeignKey(cur: map<string, ForeignKey>, des: map<string, ForeignKey>, n: string) {
    n in cur && n in des && cur[n] == des[n]
  }

  function ForeignKeyDrops(k: string, cur: OMap<ForeignKey>, des: map<string, ForeignKey>, allowed: bool,
    i: nat): seq<Stmt>
    requires i <= |cur.keys|
    decreases |cur.keys| - i
  {
    if i == |cur.keys| then []
    else
      var n := cur.keys[i];
      var rest := ForeignKeyDrops(k, cur, des, allowed, i + 1);
      if SameForeignKey(cur.vals, des, n) || (n !in des && !allowed) then rest else [DropForeignKey(k, n)] + rest
  }

  function ForeignKeyAdds(k: string, cur: map<string, ForeignKey>, des: OMap<ForeignKey>, i: nat): seq<Stmt>
    requires i <= |des.keys|
    decreases |des.keys| - i
  {
    if i == |des.keys| then []
    else
      var n := des.keys[i];
      var rest := ForeignKeyAdds(k, cur, des, i + 1);
      if n !in des.vals || SameForeignKey(cur, des.vals, n) then rest else [AddForeignKey(k, n, des.vals[n])] + rest
  }

  /* ----- the whole plan ----- */

  datatype Plan = Plan(renames: seq<Stmt>, fkDrops: seq<Stmt>, stmts: seq<Stmt>, drops: seq<Stmt>, fkAdds: seq<Stmt>)

  function Script(p: Plan): seq<Stmt> {
    p.renames + p.fkDrops + p.stmts + p.drops + p.fkAdds
  }

  function TableRenames(ps: seq<Pair>): seq<Stmt> {
    seq(|ps|, i requires 0 <= i < |ps| => RenameTable(ps[i].o, ps[i].n))
  }

  function NewTable(k: string, s: Schema): seq<Stmt> {
    [CreateTable(k, s.cols.keys, s.cols.vals, s.pk)] + IndexCreates(k, map[], s.indexes, 0)
  }

  // What the tables of desired contribute, from position i on.
  function NewTables(cur: map<string, Schema>, des: OMap<Desired>, i: nat): Plan
    requires i <= |des.keys|
    decreases |des.keys| - i
  {
    if i == |des.keys| then Plan([], [], [], [], [])
    else
      var k, rest := des.keys[i], NewTables(cur, des, i + 1);
      if k in cur || k !in des.vals then rest
      else
        var s := des.vals[k].schema;
        Plan([], [], NewTable(k, s) + rest.stmts, [], ForeignKeyAdds(k, map[], s.fks, 0) + rest.fkAdds)
  }

  function TablePlan(k: string, r: Renamed, d: Schema, p: Policy): Plan {
    Plan([], ForeignKeyDrops(k, r.schema.fks, d.fks.vals, p.foreignKey, 0),
      ColumnRenames(k, r.cols) + IndexRenames(k, r.indexes) + LocalStmts(k, r.schema, d, p),
      [], ForeignKeyAdds(k, r.schema.fks.vals, d.fks, 0))
  }

  function ChangedTables(cur: map<string, Schema>, des: OMap<Desired>, p: Policy, i: nat): Result<Plan>
    requires i <= |des.keys|
    decreases |des.keys| - i
  {
    if i == |des.keys| then Ok(Plan([], [], [], [], []))
    else
      var k := des.keys[i];
      if k !in cur || k !in des.vals then ChangedTables(cur, des, p, i + 1)
      else
        var r := RenameWithin(cur, des, k);
        if r.Err? then Err(r.error) else
        var rest := ChangedTables(cur, des, p, i + 1);
        if rest.Err? then rest else
        var t, q := TablePlan(k, r.value, des.vals[k].schema, p), rest.value;
        Ok(Plan([], t.fkDrops + q.fkDrops, t.stmts + q.stmts, [], t.fkAdds + q.fkAdds))
  }

  function AllForeignKeyDrops(k: string, keys: seq<string>): seq<Stmt> {
    seq(|keys|, i requires 0 <= i < |keys| => DropForeignKey(k, keys[i]))
  }

  function GoneTables(cur: OMap<Schema>, des: map<string, Desired>, allowed: bool, i: nat): Plan
    requires i <= |cur.keys|
    decreases |cur.keys| - i
  {
    if i == |cur.keys| then Plan([], [], [], [], [])
    else
      var k, rest := cur.keys[i], GoneTables(cur, des, allowed, i + 1);
      if k !in cur.vals || k in des || !allowed then rest
      else Plan([], AllForeignKeyDrops(k, cur.vals[k].fks.keys) + rest.fkDrops, [], [DropTable(k)] + rest.drops, [])
  }

  function DiffTables(cur: OMap<Schema>, des: OMap<Desired>, p: Policy): Result<Plan> {
    var pairs := RenamePairs(cur.vals.Keys, des.keys, TableFrom(des));
    if pairs.Err? then Err(pairs.error) else
    var c := RenameTables(cur, pairs.value);
    var changed := ChangedTables(c.vals, des, p, 0);
    if changed.Err? then changed else
    var n, m, g := NewTables(c.vals, des, 0), changed.value, GoneTables(c, des.vals, p.table, 0);
    Ok(Plan(TableRenames(pairs.value), m.fkDrops + g.fkDrops, n.stmts + m.stmts, g.drops, n.fkAdds + m.fkAdds))
  }
}
