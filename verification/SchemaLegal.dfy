/** Every statement MySQL accepts leaves a well-formed database well-formed. */
module SchemaLegal {
  import opened Common
  import opened SortedNames
  import opened SchemaModel
  import opened SchemaSpec
  import opened SchemaLocal

  /* ----- statements on one table ----- */

  lemma {:induction false} StripKeepsPartsIn(c: string, s: seq<Part>, attrs: map<string, string>)
    requires PartsIn(s, attrs)
    ensures PartsIn(StripParts({c}, s), attrs - {c})
  {
    if s != [] {
      StripKeepsPartsIn(c, s[1..], attrs);
      var r := StripParts({c}, s[1..]);
      assert forall i :: 0 < i < |[s[0]] + r| ==> ([s[0]] + r)[i] == r[i - 1];
    }
  }

  lemma PartsInMore(s: seq<Part>, a: map<string, string>, b: map<string, string>)
    requires PartsIn(s, a) && a.Keys <= b.Keys
    ensures PartsIn(s, b)
  {
    assert forall x :: x in a.Keys ==> x in b.Keys;
  }

  lemma MoreColumns(t: Table, u: Table)
    requires TableOk(t) && t.attrs.Keys <= u.attrs.Keys && "" !in u.attrs && t.pk == u.pk && t.indexes == u.indexes
    requires u.cols != [] && Distinct(u.cols) && Elems(u.cols) == u.attrs.Keys
    ensures TableOk(u)
  {
    hide PartsIn, Distinct, Elems;
    PartsInMore(t.pk, t.attrs, u.attrs);
    forall n | n in u.indexes ensures PartsIn(u.indexes[n].parts, u.attrs) {
      PartsInMore(t.indexes[n].parts, t.attrs, u.attrs);
    }
  }

  lemma AddKeeps(t: Table, n: string, a: string, after: string)
    requires TableOk(t) && n != "" && n !in t.attrs && (after == "" || after in t.attrs)
    ensures TableOk(t.(cols := InsertAfter(t.cols, n, after), attrs := t.attrs[n := a]))
  {
    assert n !in Elems(t.cols);
    InsertedElems(t.cols, n, after);
    var u := t.(cols := InsertAfter(t.cols, n, after), attrs := t.attrs[n := a]);
    assert n in Elems(u.cols);
    hide InsertAfter, Distinct, PartsIn;
    MoreColumns(t, u);
  }

  lemma DropLeavesColumns(t: Table, c: string)
    requires Distinct(t.cols) && Elems(t.cols) == t.attrs.Keys && c in t.attrs && |t.attrs| != 1
    ensures var cols := Without(t.cols, c);
      cols != [] && Distinct(cols) && Elems(cols) == (t.attrs - {c}).Keys
  {
    WithoutElems(t.cols, c);
    hide Without, Distinct;
    assert |t.attrs| == |t.attrs.Keys|;
    assert t.attrs.Keys == (t.attrs.Keys - {c}) + {c};
    assert t.attrs.Keys - {c} != {};
    var x :| x in t.attrs.Keys - {c};
    assert x in Elems(Without(t.cols, c));
  }

  lemma DropKeeps(t: Table, c: string)
    requires TableOk(t) && c in t.attrs && |t.attrs| != 1
    ensures TableOk(Table(Without(t.cols, c), t.attrs - {c}, StripParts({c}, t.pk),
      StripIndexes({c}, t.indexes), t.fks))
  {
    DropLeavesColumns(t, c);
    StripKeepsPartsIn(c, t.pk, t.attrs);
    hide Without, StripParts, Distinct, PartsIn, Elems;
    assert "" !in t.attrs - {c};
    var u := Table(Without(t.cols, c), t.attrs - {c}, StripParts({c}, t.pk), StripIndexes({c}, t.indexes), t.fks);
    forall n | n in u.indexes ensures u.indexes[n].parts != [] && PartsIn(u.indexes[n].parts, u.attrs) {
      StripKeepsPartsIn(c, t.indexes[n].parts, t.attrs);
    }
  }

  // A local statement leaves foreign keys alone and takes away no column but the one it drops.
  ghost predicate Gentle(t: Table, s: Stmt, u: Table) {
    u.fks == t.fks && forall x :: x in t.attrs && !(s.DropColumn? && s.name == x) ==> x in u.attrs
  }

  lemma IndexesKeep(t: Table, s: Stmt)
    requires TableOk(t) && (s.RenameIndex? || s.CreateIndex? || s.DropIndex?) && ExecLocal(t, s).Some?
    ensures TableOk(ExecLocal(t, s).value)
  {
    hide InsertAfter, Without, StripParts, StripIndexes, Distinct, Elems, PartsIn;
  }

  lemma LocalKeeps(t: Table, s: Stmt)
    requires TableOk(t) && ExecLocal(t, s).Some?
    ensures TableOk(ExecLocal(t, s).value)
  {
    hide InsertAfter, Without, StripParts, StripIndexes, Distinct, Elems, PartsIn;
    match s
    case AddColumn(_, n, a, after) => AddKeeps(t, n, a, after);
    case ModifyColumn(_, n, a) =>
      assert t.attrs[n := a].Keys == t.attrs.Keys;
      MoreColumns(t, t.(attrs := t.attrs[n := a]));
    case DropColumn(_, n) => DropKeeps(t, n);
    case DropPrimaryKey(_) => NoParts(t.attrs);
    case AddPrimaryKey(_, _) =>
    case _ => IndexesKeep(t, s);
  }

  lemma NoParts(attrs: map<string, string>)
    ensures PartsIn([], attrs)
  {
  }

  lemma LocalIsGentle(t: Table, s: Stmt)
    requires ExecLocal(t, s).Some?
    ensures Gentle(t, s, ExecLocal(t, s).value)
  {
    hide InsertAfter, Without, StripParts, StripIndexes, PartsIn;
  }

  /* ----- the parts of a well-formed database ----- */

  ghost predicate TablesOk(db: DB) {
    forall t :: t in db ==> TableOk(db[t])
  }

  ghost predicate ForeignKeysOk(db: DB) {
    forall t, n :: t in db && n in db[t].fks ==> ForeignKeyOk(db, db[t], db[t].fks[n])
  }

  ghost predicate NamesUnique(db: DB) {
    forall t, u, n :: t in db && u in db && n in db[t].fks && n in db[u].fks ==> t == u
  }

  lemma Parts(db: DB)
    ensures DBOk(db) <==> TablesOk(db) && ForeignKeysOk(db) && NamesUnique(db)
  {
    hide TableOk, ForeignKeyOk;
  }

  // The names a foreign key holds on to are still there.
  lemma StillOk(db: DB, k: string, fk: ForeignKey, e: DB, l: string, gk: ForeignKey)
    requires k in db && l in e && ForeignKeyOk(db, db[k], fk) && gk.refTable in e
    requires |fk.cols| == |gk.cols| && |fk.refCols| == |gk.refCols|
    requires forall i :: 0 <= i < |fk.cols| && fk.cols[i] in db[k].attrs ==> gk.cols[i] in e[l].attrs
    requires forall i :: 0 <= i < |fk.refCols| && fk.refTable in db && fk.refCols[i] in db[fk.refTable].attrs ==>
               gk.refCols[i] in e[gk.refTable].attrs
    ensures ForeignKeyOk(e, e[l], gk)
  {
  }

  /* ----- one statement at a time ----- */

  lemma LocalExecKeeps(db: DB, s: Stmt)
    requires DBOk(db) && IsLocal(s) && Exec(db, s).Some?
    ensures DBOk(Exec(db, s).value)
  {
    hide TableOk, ForeignKeyOk, ExecLocal, DBOk;
    Parts(db);
    var k, u := s.table, ExecLocal(db[s.table], s).value;
    var e := db[k := u];
    LocalKeeps(db[k], s);
    LocalIsGentle(db[k], s);
    forall t, n | t in e && n in e[t].fks ensures ForeignKeyOk(e, e[t], e[t].fks[n]) {
      var fk := db[t].fks[n];
      assert fk == e[t].fks[n];
      KeepsColumns(db, s, u, t, n);
    }
    assert NamesUnique(e);
    Parts(e);
  }

  lemma KeepsColumns(db: DB, s: Stmt, u: Table, t: string, n: string)
    requires IsLocal(s) && s.table in db && t in db && n in db[t].fks && ForeignKeyOk(db, db[t], db[t].fks[n])
    requires Gentle(db[s.table], s, u) && (s.DropColumn? ==> !ColumnInUse(db, s.table, s.name))
    ensures ForeignKeyOk(db[s.table := u], db[s.table := u][t], db[t].fks[n])
  {
  }

  lemma RenameTableKeeps(db: DB, o: string, n: string)
    requires DBOk(db) && Exec(db, RenameTable(o, n)).Some?
    ensures DBOk(Exec(db, RenameTable(o, n)).value)
  {
    hide TableOk, ForeignKeyOk, DBOk;
    Parts(db);
    var e := Exec(db, RenameTable(o, n)).value;
    forall t | t in e ensures TableOk(e[t]) { RetargetKeeps(o, n, db[if t == n then o else t]); }
    forall t, m | t in e && m in e[t].fks ensures ForeignKeyOk(e, e[t], e[t].fks[m]) {
      var was := if t == n then o else t;
      RetargetForeignKey(db, o, n, was, m);
    }
    assert NamesUnique(e);
    Parts(e);
  }

  lemma RetargetKeeps(o: string, n: string, t: Table)
    requires TableOk(t)
    ensures TableOk(Retarget(o, n, t))
  {
  }

  lemma RetargetForeignKey(db: DB, o: string, n: string, t: string, m: string)
    requires o in db && n !in db && t in db && m in db[t].fks && ForeignKeyOk(db, db[t], db[t].fks[m])
    ensures var e := Exec(db, RenameTable(o, n)).value;
      var l := if t == o then n else t;
      l in e && m in e[l].fks && ForeignKeyOk(e, e[l], e[l].fks[m])
  {
    hide TableOk;
    var e := Exec(db, RenameTable(o, n)).value;
    var l := if t == o then n else t;
    assert e[l] == Retarget(o, n, db[t]);
    var fk := db[t].fks[m];
    assert e[l].fks[m] == fk.(refTable := Ren(o, n, fk.refTable));
    assert e[Ren(o, n, fk.refTable)] == Retarget(o, n, db[fk.refTable]);
    hide Exec;
  }

  lemma {:induction false} RenInjective(o: string, n: string, s: seq<string>)
    requires Distinct(s) && n !in s
    ensures Distinct(RenNames(o, n, s))
  {
  }

  lemma RenamedElems(o: string, n: string, s: seq<string>)
    requires o in s && n !in s
    ensures Elems(RenNames(o, n, s)) == Elems(s) - {o} + {n}
  {
    var r := RenNames(o, n, s);
    forall x ensures x in r <==> x in Elems(s) - {o} + {n} {
      if x in r { var i :| 0 <= i < |r| && r[i] == x; assert s[i] in s; }
      if x in Elems(s) - {o} { var i :| 0 <= i < |s| && s[i] == x; assert r[i] == x; }
      if x == n { var i :| 0 <= i < |s| && s[i] == o; assert r[i] == n; }
    }
  }

  lemma RenPartsIn(o: string, n: string, s: seq<Part>, attrs: map<string, string>)
    requires PartsIn(s, attrs) && o in attrs && o != ""
    ensures PartsIn(RenParts(o, n, s), RenKey(o, n, attrs))
  {
  }

  lemma RenColumnKeeps(k: string, o: string, n: string, t: Table)
    requires TableOk(t) && o in t.attrs && n !in t.attrs && n != ""
    ensures TableOk(RenColumn(k, o, n, k, t))
  {
    var u := RenColumn(k, o, n, k, t);
    assert o in Elems(t.cols);
    assert n !in Elems(t.cols);
    RenInjective(o, n, t.cols);
    RenamedElems(o, n, t.cols);
    hide Distinct, Elems, PartsIn;
    assert u.attrs.Keys == t.attrs.Keys - {o} + {n};
    RenPartsIn(o, n, t.pk, t.attrs);
    forall m | m in u.indexes ensures PartsIn(u.indexes[m].parts, u.attrs) {
      RenPartsIn(o, n, t.indexes[m].parts, t.attrs);
    }
  }

  lemma RenamedForeignKey(db: DB, k: string, o: string, n: string, t: string, m: string)
    requires k in db && o in db[k].attrs && n != "" && n !in db[k].attrs
    requires t in db && m in db[t].fks && ForeignKeyOk(db, db[t], db[t].fks[m])
    ensures var e := Exec(db, RenameColumn(k, o, n)).value;
      t in e && m in e[t].fks && ForeignKeyOk(e, e[t], e[t].fks[m])
  {
    hide TableOk, RenIndexes, RenParts;
    var e := Exec(db, RenameColumn(k, o, n)).value;
    var fk := db[t].fks[m];
    assert e[t] == RenColumn(k, o, n, t, db[t]);
    assert e[t].fks[m] == RenForeignKey(k, o, n, t, fk);
    assert e[fk.refTable] == RenColumn(k, o, n, fk.refTable, db[fk.refTable]);
    hide Exec;
    assert forall x :: x in db[k].attrs ==> Ren(o, n, x) in e[k].attrs;
    StillOk(db, t, fk, e, t, e[t].fks[m]);
  }

  lemma RenameColumnKeeps(db: DB, k: string, o: string, n: string)
    requires DBOk(db) && Exec(db, RenameColumn(k, o, n)).Some?
    ensures DBOk(Exec(db, RenameColumn(k, o, n)).value)
  {
    hide TableOk, ForeignKeyOk, DBOk, RenIndexes, RenParts, RenNames, RenKey;
    Parts(db);
    var e := Exec(db, RenameColumn(k, o, n)).value;
    forall t | t in e ensures TableOk(e[t]) {
      if t == k { RenColumnKeeps(k, o, n, db[k]); } else { OnlyForeignKeys(db[t], e[t]); }
    }
    forall t, m | t in e && m in e[t].fks ensures ForeignKeyOk(e, e[t], e[t].fks[m]) {
      RenamedForeignKey(db, k, o, n, t, m);
    }
    assert NamesUnique(e);
    Parts(e);
  }

  lemma OnlyForeignKeys(t: Table, u: Table)
    requires TableOk(t) && u == t.(fks := u.fks)
    ensures TableOk(u)
  {
  }

  lemma CreateTableDoes(db: DB, t: string, u: Table)
    requires u == Table(u.cols, u.attrs, u.pk, map[], map[]) && Exec(db, CreateTable(t, u.cols, u.attrs, u.pk)).Some?
    ensures t !in db && TableOk(u) && Exec(db, CreateTable(t, u.cols, u.attrs, u.pk)).value == db[t := u]
  {
    hide TableOk;
  }

  lemma CreateTableKeeps(db: DB, t: string, u: Table)
    requires DBOk(db) && u == Table(u.cols, u.attrs, u.pk, map[], map[]) && t !in db && TableOk(u)
    ensures DBOk(db[t := u])
  {
    hide TableOk, NamesIn;
  }

  lemma DropTableDoes(db: DB, k: string)
    requires Exec(db, DropTable(k)).Some?
    ensures k in db && (forall t, n :: t in db && t != k && n in db[t].fks ==> db[t].fks[n].refTable != k)
    ensures Exec(db, DropTable(k)).value == db - {k}
  {
  }

  lemma DropTableKeeps(db: DB, k: string)
    requires DBOk(db) && k in db && forall t, n :: t in db && t != k && n in db[t].fks ==> db[t].fks[n].refTable != k
    ensures DBOk(db - {k})
  {
    hide TableOk, NamesIn;
  }

  lemma SameButForeignKeys(db: DB, k: string, fks: map<string, ForeignKey>)
    requires DBOk(db) && k in db
    ensures TablesOk(db[k := db[k].(fks := fks)])
    ensures forall t, fk :: t in db && ForeignKeyOk(db, db[t], fk) ==>
              ForeignKeyOk(db[k := db[k].(fks := fks)], db[k := db[k].(fks := fks)][t], fk)
  {
    Parts(db);
    OnlyForeignKeys(db[k], db[k].(fks := fks));
    hide TableOk, DBOk, NamesIn;
  }

  lemma AddForeignKeyDoes(db: DB, k: string, n: string, fk: ForeignKey)
    requires Exec(db, AddForeignKey(k, n, fk)).Some?
    ensures k in db && ForeignKeyOk(db, db[k], fk) && forall t :: t in db ==> n !in db[t].fks
    ensures Exec(db, AddForeignKey(k, n, fk)).value == db[k := db[k].(fks := db[k].fks[n := fk])]
  {
    hide ForeignKeyOk;
  }

  lemma DropForeignKeyDoes(db: DB, k: string, n: string)
    requires Exec(db, DropForeignKey(k, n)).Some?
    ensures k in db && n in db[k].fks
    ensures Exec(db, DropForeignKey(k, n)).value == db[k := db[k].(fks := db[k].fks - {n})]
  {
  }

  lemma AddedIsUnique(db: DB, k: string, n: string, fk: ForeignKey)
    requires k in db && NamesUnique(db) && forall t :: t in db ==> n !in db[t].fks
    ensures NamesUnique(db[k := db[k].(fks := db[k].fks[n := fk])])
  {
  }

  lemma AddForeignKeyKeeps(db: DB, k: string, n: string, fk: ForeignKey)
    requires DBOk(db) && Exec(db, AddForeignKey(k, n, fk)).Some?
    ensures DBOk(Exec(db, AddForeignKey(k, n, fk)).value)
  {
    Parts(db);
    AddForeignKeyDoes(db, k, n, fk);
    AddedIsUnique(db, k, n, fk);
    var e := db[k := db[k].(fks := db[k].fks[n := fk])];
    SameButForeignKeys(db, k, e[k].fks);
    hide TableOk, ForeignKeyOk, DBOk, TablesOk, Exec, NamesUnique;
    assert ForeignKeysOk(e);
    Parts(e);
  }

  lemma DropForeignKeyKeeps(db: DB, k: string, n: string)
    requires DBOk(db) && Exec(db, DropForeignKey(k, n)).Some?
    ensures DBOk(Exec(db, DropForeignKey(k, n)).value)
  {
    Parts(db);
    DropForeignKeyDoes(db, k, n);
    var e := db[k := db[k].(fks := db[k].fks - {n})];
    SameButForeignKeys(db, k, e[k].fks);
    hide TableOk, ForeignKeyOk, DBOk, TablesOk, Exec;
    assert ForeignKeysOk(e);
    assert NamesUnique(e);
    Parts(e);
  }

  // A database that starts well-formed stays so, statement by statement.
  lemma ExecKeepsDBOk(db: DB, s: Stmt)
    requires DBOk(db) && Exec(db, s).Some?
    ensures DBOk(Exec(db, s).value)
  {
    if IsLocal(s) { LocalExecKeeps(db, s); } else {
      hide Exec, DBOk;
      match s
      case RenameTable(o, n) => RenameTableKeeps(db, o, n);
      case RenameColumn(k, o, n) => RenameColumnKeeps(db, k, o, n);
      case CreateTable(t, cols, attrs, pk) =>
        CreateTableDoes(db, t, Table(cols, attrs, pk, map[], map[]));
        CreateTableKeeps(db, t, Table(cols, attrs, pk, map[], map[]));
      case DropTable(k) =>
        DropTableDoes(db, k);
        DropTableKeeps(db, k);
      case AddForeignKey(k, n, fk) => AddForeignKeyKeeps(db, k, n, fk);
      case DropForeignKey(k, n) => DropForeignKeyKeeps(db, k, n);
      case _ =>
    }
  }

  // A script that runs passes through well-formed databases only.
  lemma {:induction false} EveryPrefixIsLegal(db: DB, ss: seq<Stmt>, i: nat)
    requires DBOk(db) && Run(db, ss).Some? && i <= |ss|
    ensures Run(db, ss[..i]).Some? && DBOk(Run(db, ss[..i]).value)
    decreases |ss|
  {
    hide Exec, DBOk;
    if i > 0 {
      ExecKeepsDBOk(db, ss[0]);
      EveryPrefixIsLegal(Exec(db, ss[0]).value, ss[1..], i - 1);
      assert ss[..i][0] == ss[0] && ss[..i][1..] == ss[1..][..i - 1];
    }
  }
}
