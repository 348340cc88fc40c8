/** A database as MySQL holds it, and what each planned statement does to it. */
module SchemaModel {
  import opened Common
  import opened SortedNames

  // One entry of an index or primary key: a column, or an expression when `column` is empty.
  datatype Part = Part(column: string, detail: string)

  datatype Index = Index(parts: seq<Part>, attrs: string)

  datatype ForeignKey = ForeignKey(cols: seq<string>, refTable: string, refCols: seq<string>, attrs: string)

  // `cols` is the column order; `attrs` gives each column's definition.
  datatype Table = Table(
    cols: seq<string>, attrs: map<string, string>, pk: seq<Part>,
    indexes: map<string, Index>, fks: map<string, ForeignKey>)

  type DB = map<string, Table>

  datatype Stmt =
    | RenameTable(source: string, target: string)
    | CreateTable(table: string, cols: seq<string>, attrs: map<string, string>, pk: seq<Part>)
    | DropTable(table: string)
    | RenameColumn(table: string, source: string, target: string)
    | AddColumn(table: string, name: string, attr: string, after: string)
    | ModifyColumn(table: string, name: string, attr: string)
    | DropColumn(table: string, name: string)
    | AddPrimaryKey(table: string, parts: seq<Part>)
    | DropPrimaryKey(table: string)
    | RenameIndex(table: string, source: string, target: string)
    | CreateIndex(table: string, name: string, index: Index)
    | DropIndex(table: string, name: string)
    | AddForeignKey(table: string, name: string, fk: ForeignKey)
    | DropForeignKey(table: string, name: string)

  /* ----- well-formed databases ----- */

  ghost predicate PartsIn(parts: seq<Part>, attrs: map<string, string>) {
    forall i :: 0 <= i < |parts| ==> parts[i].column == "" || parts[i].column in attrs
  }

  ghost predicate NamesIn(names: seq<string>, attrs: map<string, string>) {
    forall i :: 0 <= i < |names| ==> names[i] in attrs
  }

  ghost predicate TableOk(t: Table) {
    t.cols != [] && Distinct(t.cols) && Elems(t.cols) == t.attrs.Keys && "" !in t.attrs &&
    PartsIn(t.pk, t.attrs) &&
    forall n :: n in t.indexes ==> t.indexes[n].parts != [] && PartsIn(t.indexes[n].parts, t.attrs)
  }

  ghost predicate ForeignKeyOk(db: DB, t: Table, fk: ForeignKey) {
    NamesIn(fk.cols, t.attrs) && fk.refTable in db && NamesIn(fk.refCols, db[fk.refTable].attrs)
  }

  // Every index and foreign key names columns and tables that exist, every table has a column,
  // and foreign key names are unique in the database.
  ghost predicate DBOk(db: DB) {
    (forall t :: t in db ==> TableOk(db[t])) &&
    (forall t, n :: t in db && n in db[t].fks ==> ForeignKeyOk(db, db[t], db[t].fks[n])) &&
    forall t, u, n :: t in db && u in db && n in db[t].fks && n in db[u].fks ==> t == u
  }

  /* ----- renaming a column: everything that names it follows ----- */

  function Ren(o: string, n: string, c: string): string {
    if c == o then n else c
  }

  function RenNames(o: string, n: string, s: seq<string>): (r: seq<string>)
    ensures |r| == |s| && forall i :: 0 <= i < |s| ==> r[i] == Ren(o, n, s[i])
  {
    seq(|s|, i requires 0 <= i < |s| => Ren(o, n, s[i]))
  }

  function RenParts(o: string, n: string, s: seq<Part>): (r: seq<Part>)
    ensures |r| == |s| && forall i :: 0 <= i < |s| ==> r[i] == s[i].(column := Ren(o, n, s[i].column))
  {
    seq(|s|, i requires 0 <= i < |s| => s[i].(column := Ren(o, n, s[i].column)))
  }

  function RenKey<V>(o: string, n: string, m: map<string, V>): map<string, V>
    requires o in m
  {
    (m - {o})[n := m[o]]
  }

  // A foreign key of table `owner` after a column of table `k` is renamed.
  function RenForeignKey(k: string, o: string, n: string, owner: string, fk: ForeignKey): ForeignKey {
    ForeignKey(
      if owner == k then RenNames(o, n, fk.cols) else fk.cols, fk.refTable,
      if fk.refTable == k then RenNames(o, n, fk.refCols) else fk.refCols, fk.attrs)
  }

  function RenIndexes(o: string, n: string, m: map<string, Index>): map<string, Index> {
    map x | x in m :: Index(RenParts(o, n, m[x].parts), m[x].attrs)
  }

  function RenForeignKeys(k: string, o: string, n: string, owner: string,
    m: map<string, ForeignKey>): map<string, ForeignKey> {
    map x | x in m :: RenForeignKey(k, o, n, owner, m[x])
  }

  function RenColumn(k: string, o: string, n: string, owner: string, t: Table): Table
    requires owner == k ==> o in t.attrs
  {
    var fks := RenForeignKeys(k, o, n, owner, t.fks);
    if owner == k then Table(RenNames(o, n, t.cols), RenKey(o, n, t.attrs), RenParts(o, n, t.pk),
      RenIndexes(o, n, t.indexes), fks)
    else t.(fks := fks)
  }

  /* ----- renaming a table: foreign keys that point at it follow ----- */

  function Retarget(o: string, n: string, t: Table): Table {
    t.(fks := map x | x in t.fks :: t.fks[x].(refTable := Ren(o, n, t.fks[x].refTable)))
  }

  /* ----- dropping a column strips it from the indexes ----- */

  function StripParts(gone: set<string>, s: seq<Part>): seq<Part> {
    if s == [] then []
    else (if s[0].column in gone then [] else [s[0]]) + StripParts(gone, s[1..])
  }

  // An index left without parts goes with its last column.
  function StripIndexes(gone: set<string>, m: map<string, Index>): map<string, Index> {
    map x | x in m && StripParts(gone, m[x].parts) != [] :: Index(StripParts(gone, m[x].parts), m[x].attrs)
  }

  function Without(s: seq<string>, c: string): seq<string> {
    if s == [] then [] else (if s[0] == c then [] else [s[0]]) + Without(s[1..], c)
  }

  // The new column's place: first, or after an existing one.
  function InsertAfter(s: seq<string>, c: string, after: string): seq<string> {
    if after == "" then [c] + s
    else if s == [] then [c]
    else if s[0] == after then [s[0], c] + s[1..]
    else [s[0]] + InsertAfter(s[1..], c, after)
  }

  /* ----- statements that touch one table only ----- */

  // None: MySQL refuses the statement.
  ghost function ExecLocal(t: Table, s: Stmt): Option<Table> {
    match s
    case AddColumn(_, n, a, after) =>
      if n == "" || n in t.attrs || !(after == "" || after in t.attrs) then None
      else Some(t.(cols := InsertAfter(t.cols, n, after), attrs := t.attrs[n := a]))
    case ModifyColumn(_, n, a) =>
      if n !in t.attrs then None else Some(t.(attrs := t.attrs[n := a]))
    case DropColumn(_, n) =>
      if n !in t.attrs || |t.attrs| == 1 then None
      else Some(Table(Without(t.cols, n), t.attrs - {n}, StripParts({n}, t.pk), StripIndexes({n}, t.indexes), t.fks))
    case AddPrimaryKey(_, parts) =>
      if t.pk != [] || parts == [] || !PartsIn(parts, t.attrs) then None else Some(t.(pk := parts))
    case DropPrimaryKey(_) =>
      if t.pk == [] then None else Some(t.(pk := []))
    case RenameIndex(_, o, n) =>
      if o !in t.indexes || n in t.indexes then None else Some(t.(indexes := RenKey(o, n, t.indexes)))
    case CreateIndex(_, n, i) =>
      if n in t.indexes || i.parts == [] || !PartsIn(i.parts, t.attrs) then None
        else Some(t.(indexes := t.indexes[n := i]))
    case DropIndex(_, n) =>
      if n !in t.indexes then None else Some(t.(indexes := t.indexes - {n}))
    case _ => None
  }

  predicate IsLocal(s: Stmt) {
    s.AddColumn? || s.ModifyColumn? || s.DropColumn? || s.AddPrimaryKey? || s.DropPrimaryKey? ||
    s.RenameIndex? || s.CreateIndex? || s.DropIndex?
  }

  /* ----- all statements ----- */

  // A foreign key holds on to the columns it names, on both sides.
  ghost predicate ColumnInUse(db: DB, k: string, c: string) {
    exists t, n :: t in db && n in db[t].fks &&
      ((t == k && c in db[t].fks[n].cols) || (db[t].fks[n].refTable == k && c in db[t].fks[n].refCols))
  }

  ghost function Exec(db: DB, s: Stmt): Option<DB> {
    if IsLocal(s) then
      if s.table !in db || (s.DropColumn? && ColumnInUse(db, s.table, s.name)) then None
      else match ExecLocal(db[s.table], s)
        case None => None
        case Some(t) => Some(db[s.table := t])
    else match s
      case RenameTable(o, n) =>
        if o !in db || n in db then None
        else Some(map t | t in db.Keys - {o} + {n} :: Retarget(o, n, db[if t == n then o else t]))
      case CreateTable(t, cols, attrs, pk) =>
        if t in db || !TableOk(Table(cols, attrs, pk, map[], map[])) then None
        else Some(db[t := Table(cols, attrs, pk, map[], map[])])
      case DropTable(k) =>
        if k !in db || exists t, n :: t in db && t != k && n in db[t].fks && db[t].fks[n].refTable == k then None
        else Some(db - {k})
      case RenameColumn(k, o, n) =>
        if k !in db || o !in db[k].attrs || n == "" || n in db[k].attrs then None
        else Some(map t | t in db :: RenColumn(k, o, n, t, db[t]))
      case AddForeignKey(k, n, fk) =>
        if k !in db || !ForeignKeyOk(db, db[k], fk) || exists t :: t in db && n in db[t].fks then None
        else Some(db[k := db[k].(fks := db[k].fks[n := fk])])
      case DropForeignKey(k, n) =>
        if k !in db || n !in db[k].fks then None
        else Some(db[k := db[k].(fks := db[k].fks - {n})])
      case _ => None
  }

  ghost function Run(db: DB, ss: seq<Stmt>): Option<DB>
    decreases |ss|
  {
    if ss == [] then Some(db) else
    match Exec(db, ss[0])
    case None => None
    case Some(d) => Run(d, ss[1..])
  }

  ghost function RunLocal(t: Table, ss: seq<Stmt>): Option<Table>
    decreases |ss|
  {
    if ss == [] then Some(t) else
    match ExecLocal(t, ss[0])
    case None => None
    case Some(u) => RunLocal(u, ss[1..])
  }

  lemma {:induction false} RunAppend(db: DB, a: seq<Stmt>, b: seq<Stmt>)
    ensures Run(db, a + b) == match Run(db, a) case None => None case Some(d) => Run(d, b)
    decreases |a|
  {
    hide Exec;
    if a == [] {
      assert a + b == b;
    } else {
      assert (a + b)[0] == a[0] && (a + b)[1..] == a[1..] + b;
      match Exec(db, a[0]) {
        case None =>
        case Some(d) => RunAppend(d, a[1..], b);
      }
    }
  }

  lemma {:induction false} RunLocalAppend(t: Table, a: seq<Stmt>, b: seq<Stmt>)
    ensures RunLocal(t, a + b) == match RunLocal(t, a) case None => None case Some(u) => RunLocal(u, b)
    decreases |a|
  {
    hide ExecLocal;
    if a == [] {
      assert a + b == b;
    } else {
      assert (a + b)[0] == a[0] && (a + b)[1..] == a[1..] + b;
      match ExecLocal(t, a[0]) {
        case None =>
        case Some(u) => RunLocalAppend(u, a[1..], b);
      }
    }
  }
}
