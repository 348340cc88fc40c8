/** When desired is current under new names, the plan is its RENAME statements and nothing else. */
module SchemaPureRename {
  import opened Common
  import opened SortedNames
  import opened SchemaModel
  import opened SchemaSpec
  import opened SchemaLocal
  import opened SchemaLegal
  import opened SchemaRename
  import opened SchemaRenamed
  import opened SchemaState
  import opened SchemaSteps
  import opened SchemaBuckets
  import opened SchemaPlan
  import opened SchemaReplan

  /* ----- desired read backwards: every name replaced by the one it is renamed from ----- */

  function Src(from: map<string, string>, x: string): string {
    if From(from, x) == "" then x else From(from, x)
  }

  function BackNames(from: map<string, string>, s: seq<string>): (r: seq<string>)
    ensures |r| == |s| && forall i :: 0 <= i < |s| ==> r[i] == Src(from, s[i])
  {
    seq(|s|, i requires 0 <= i < |s| => Src(from, s[i]))
  }

  function BackParts(from: map<string, string>, s: seq<Part>): (r: seq<Part>)
    ensures |r| == |s| && forall i :: 0 <= i < |s| ==>
      r[i] == if s[i].column == "" then s[i] else s[i].(column := Src(from, s[i].column))
  {
    seq(|s|, i requires 0 <= i < |s| => if s[i].column == "" then s[i] else s[i].(column := Src(from, s[i].column)))
  }

  function BackIndexes(from: map<string, string>, m: map<string, Index>): map<string, Index> {
    map n | n in m :: Index(BackParts(from, m[n].parts), m[n].attrs)
  }

  function BackKey(des: OMap<Desired>, k: string, fk: ForeignKey): ForeignKey
    requires k in des.vals && fk.refTable in des.vals
  {
    ForeignKey(BackNames(des.vals[k].colFrom, fk.cols), Src(TableFrom(des), fk.refTable),
      BackNames(des.vals[fk.refTable].colFrom, fk.refCols), fk.attrs)
  }

  // `was` holds what `new` holds, under the names `from` gives.
  ghost predicate CarriedOver<V(!new)>(was: map<string, V>, now: map<string, V>, from: map<string, string>) {
    (forall n :: n in now ==> Src(from, n) in was && was[Src(from, n)] == now[n]) &&
    forall o :: o in was ==> exists n :: n in now && Src(from, n) == o
  }

  ghost predicate TableCarried(c: Schema, des: OMap<Desired>, k: string)
    requires k in des.vals
  {
    var d := des.vals[k];
    CarriedOver(c.cols.vals, d.schema.cols.vals, d.colFrom) &&
    c.pk == BackParts(d.colFrom, d.schema.pk) &&
    CarriedOver(c.indexes.vals, BackIndexes(d.colFrom, d.schema.indexes.vals), d.idxFrom) &&
    c.fks.vals.Keys == d.schema.fks.vals.Keys &&
    forall n :: n in d.schema.fks.vals && d.schema.fks.vals[n].refTable in des.vals ==>
      c.fks.vals[n] == BackKey(des, k, d.schema.fks.vals[n])
  }

  // Desired is current with tables, columns and indexes renamed, and nothing else.
  ghost predicate IsRenaming(cur: OMap<Schema>, des: OMap<Desired>) {
    (forall k :: k in des.vals ==>
      Src(TableFrom(des), k) in cur.vals && TableCarried(cur.vals[Src(TableFrom(des), k)], des, k)) &&
    forall t :: t in cur.vals ==> exists k :: k in des.vals && Src(TableFrom(des), k) == t
  }

  /* ----- renaming forwards undoes reading backwards ----- */

  lemma SubUndoesSrc(keys: seq<string>, from: map<string, string>, n: string)
    requires Settled(keys, from) && n in keys
    ensures Sub(RenameMap(keys, from), Src(from, n)) == n
  {
    var j :| 0 <= j < |keys| && keys[j] == n;
    RenameMapIs(keys, from, Src(from, n));
    hide SharesSource, RenameMap;
  }

  lemma RenAllUndoesSrc(names: set<string>, keys: seq<string>, from: map<string, string>, n: string)
    requires Distinct(keys) && RenamePairs(names, keys, from).Ok? && n in keys && Src(from, n) in names
    ensures RenAll(RenamePairs(names, keys, from).value, Src(from, n)) == n
  {
    AcceptedIsSettled(names, keys, from);
    hide RenAll, RenamePairs, Settled, Sub, RenameMap, Distinct;
    RenAllIsSub(names, keys, from, Src(from, n));
    SubUndoesSrc(keys, from, n);
  }

  lemma CarriedAt<V(!new)>(was: map<string, V>, now: map<string, V>, keys: seq<string>,
    from: map<string, string>, y: string)
    requires Distinct(keys) && Elems(keys) == now.Keys && RenamePairs(was.Keys, keys, from).Ok? &&
      CarriedOver(was, now, from)
    ensures var r := RenAllKeys(RenamePairs(was.Keys, keys, from).value, was);
      (y in r <==> y in now) && (y in now ==> r[y] == now[y])
  {
    var ps := RenamePairs(was.Keys, keys, from).value;
    AcceptedArePairing(was.Keys, keys, from);
    RenAllKeysAt(ps, was);
    hide RenAllKeys, RenamePairs, RenAll, Src, Pairing, Distinct;
    var r := RenAllKeys(ps, was);
    if y in now {
      assert y in Elems(keys);
      RenAllUndoesSrc(was.Keys, keys, from, y);
    }
    if y in r {
      var x :| x in was && RenAll(ps, x) == y;
      var n :| n in now && Src(from, n) == x;
      assert n in Elems(keys);
      RenAllUndoesSrc(was.Keys, keys, from, n);
    }
  }

  lemma CarriedRenames<V(!new)>(was: map<string, V>, now: map<string, V>, keys: seq<string>, from: map<string, string>)
    requires Distinct(keys) && Elems(keys) == now.Keys && RenamePairs(was.Keys, keys, from).Ok? &&
      CarriedOver(was, now, from)
    ensures RenAllKeys(RenamePairs(was.Keys, keys, from).value, was) == now
  {
    hide *;
    var r := RenAllKeys(RenamePairs(was.Keys, keys, from).value, was);
    forall y ensures (y in r <==> y in now) && (y in now ==> r[y] == now[y]) { CarriedAt(was, now, keys, from, y); }
    MapsAgree(r, now);
  }

  lemma NamesForth(d: Desired, s: seq<string>)
    requires SettledTable(d) && d.schema.cols.Ok() && NamesIn(s, d.schema.cols.vals)
    ensures SubNames(ColumnMap(d), BackNames(d.colFrom, s)) == s
  {
    hide Settled, Sub, RenameMap, Distinct, Src;
    forall i | 0 <= i < |s| ensures Sub(ColumnMap(d), Src(d.colFrom, s[i])) == s[i] {
      assert s[i] in Elems(d.schema.cols.keys);
      SubUndoesSrc(d.schema.cols.keys, d.colFrom, s[i]);
    }
  }

  lemma PartsForth(d: Desired, s: seq<Part>)
    requires SettledTable(d) && d.schema.cols.Ok() && PartsIn(s, d.schema.cols.vals)
    ensures SubParts(ColumnMap(d), BackParts(d.colFrom, s)) == s
  {
    hide Settled, Sub, RenameMap, Distinct, Src;
    SettledSub(d.schema.cols.keys, d.colFrom, "");
    forall i | 0 <= i < |s| && s[i].column != "" ensures Sub(ColumnMap(d), Src(d.colFrom, s[i].column)) == s[i].column {
      assert s[i].column in Elems(d.schema.cols.keys);
      SubUndoesSrc(d.schema.cols.keys, d.colFrom, s[i].column);
    }
  }

  lemma {:induction false} RenAllValues(ps: seq<Pair>, a: map<string, Index>, m: map<string, string>)
    ensures RenAllKeys(ps, map n | n in a :: Index(SubParts(m, a[n].parts), a[n].attrs)) ==
      var r := RenAllKeys(ps, a); map n | n in r :: Index(SubParts(m, r[n].parts), r[n].attrs)
    decreases |ps|
  {
    hide SubParts;
    var b := map n | n in a :: Index(SubParts(m, a[n].parts), a[n].attrs);
    if ps != [] {
      var q, rest := ps[0], ps[1..];
      if q.o in a {
        var e := RenKey(q.o, q.n, a);
        RenAllValues(rest, e, m);
        assert RenKey(q.o, q.n, b) == map n | n in e :: Index(SubParts(m, e[n].parts), e[n].attrs);
      } else {
        RenAllValues(rest, a, m);
      }
    }
  }

  lemma IndexesForth(c: Schema, d: Desired, ps: seq<Pair>)
    requires SettledTable(d) && SchemaOk(d.schema)
    requires RenamePairs(c.indexes.vals.Keys, d.schema.indexes.keys, d.idxFrom) == Result.Ok(ps)
    requires CarriedOver(c.indexes.vals, BackIndexes(d.colFrom, d.schema.indexes.vals), d.idxFrom)
    ensures RenAllKeys(ps, SubIndexes(ColumnMap(d), c.indexes).vals) == d.schema.indexes.vals
  {
    var back := BackIndexes(d.colFrom, d.schema.indexes.vals);
    BackIndexesAre(d);
    hide *;
    IndexKeysOk(d.schema);
    CarriedRenames(c.indexes.vals, back, d.schema.indexes.keys, d.idxFrom);
    RenAllValues(ps, c.indexes.vals, ColumnMap(d));
    SubIndexesIs(ColumnMap(d), c.indexes);
  }

  lemma SubIndexesIs(m: map<string, string>, x: OMap<Index>)
    ensures SubIndexes(m, x).vals == map n | n in x.vals :: Index(SubParts(m, x.vals[n].parts), x.vals[n].attrs)
  {
    hide SubParts;
  }

  lemma IndexKeysOk(s: Schema)
    requires SchemaOk(s)
    ensures Distinct(s.indexes.keys) && Elems(s.indexes.keys) == s.indexes.vals.Keys
  {
  }

  lemma BackIndexesAre(d: Desired)
    requires SettledTable(d) && SchemaOk(d.schema)
    ensures var back, goal := BackIndexes(d.colFrom, d.schema.indexes.vals), d.schema.indexes.vals;
      back.Keys == goal.Keys && goal == map n | n in back :: Index(SubParts(ColumnMap(d), back[n].parts), back[n].attrs)
  {
    var goal := d.schema.indexes.vals;
    hide SettledTable, ColumnMap, SubParts, BackParts, PartsIn;
    forall n | n in goal ensures SubParts(ColumnMap(d), BackParts(d.colFrom, goal[n].parts)) == goal[n].parts {
      PartsForth(d, goal[n].parts);
    }
  }

  /* ----- the tables ----- */

  // A schema whose foreign keys follow the table renames.
  function Follow(ps: seq<Pair>, s: Schema): Schema {
    s.(fks := OMap(s.fks.keys, map x | x in s.fks.vals ::
      s.fks.vals[x].(refTable := RenAll(ps, s.fks.vals[x].refTable))))
  }

  lemma FollowNone(s: Schema)
    ensures Follow([], s) == s
  {
    assert Follow([], s).fks.vals == s.fks.vals;
  }

  lemma FollowStep(ps: seq<Pair>, s: Schema)
    requires ps != []
    ensures Follow(ps, s) == Follow(ps[1..], RetargetSchema(ps[0].o, ps[0].n, s))
  {
    assert Follow(ps, s).fks.vals == Follow(ps[1..], RetargetSchema(ps[0].o, ps[0].n, s)).fks.vals;
  }

  ghost predicate Followed(m: map<string, Schema>, ps: seq<Pair>, r: map<string, Schema>) {
    (forall t :: t in m ==> RenAll(ps, t) in r && r[RenAll(ps, t)] == Follow(ps, m[t])) &&
    forall y :: y in r ==> exists t :: t in m && RenAll(ps, t) == y
  }

  lemma FollowedHead(m: OMap<Schema>, ps: seq<Pair>, r: map<string, Schema>, t: string)
    requires ps != [] && Pairing(m.vals.Keys, ps) &&
      Followed(Moved(m, ps[0].o, ps[0].n).vals, ps[1..], r) && t in m.vals
    ensures RenAll(ps, t) in r && r[RenAll(ps, t)] == Follow(ps, m.vals[t])
  {
    MovedTo(m, ps[0].o, ps[0].n, t);
    FollowStep(ps, m.vals[t]);
    hide Follow, Moved, Pairing;
  }

  lemma FollowedTail(m: OMap<Schema>, ps: seq<Pair>, r: map<string, Schema>, y: string)
    requires ps != [] && Pairing(m.vals.Keys, ps) && Followed(Moved(m, ps[0].o, ps[0].n).vals, ps[1..], r) && y in r
    ensures exists t :: t in m.vals && RenAll(ps, t) == y
  {
    var q, rest, e := ps[0], ps[1..], Moved(m, ps[0].o, ps[0].n).vals;
    MovedKeys(m, q.o, q.n);
    var z :| z in e && RenAll(rest, z) == y;
    hide Follow, Moved, Followed;
    var t := if z == q.n then q.o else z;
    assert t in m.vals && Ren(q.o, q.n, t) == z;
    assert RenAll(ps, t) == y;
  }

  lemma FollowedCons(m: OMap<Schema>, ps: seq<Pair>, r: map<string, Schema>)
    requires ps != [] && Pairing(m.vals.Keys, ps) && Followed(Moved(m, ps[0].o, ps[0].n).vals, ps[1..], r)
    ensures Followed(m.vals, ps, r)
  {
    forall t | t in m.vals ensures RenAll(ps, t) in r && r[RenAll(ps, t)] == Follow(ps, m.vals[t]) {
      FollowedHead(m, ps, r, t);
    }
    forall y | y in r ensures exists t :: t in m.vals && RenAll(ps, t) == y { FollowedTail(m, ps, r, y); }
    hide Follow, Moved, RenAll, Pairing;
  }

  lemma {:induction false} RenameTablesAt(m: OMap<Schema>, ps: seq<Pair>)
    requires Pairing(m.vals.Keys, ps)
    ensures Followed(m.vals, ps, RenameTables(m, ps).vals)
    decreases |ps|
  {
    if ps == [] {
      forall t | t in m.vals ensures Follow(ps, m.vals[t]) == m.vals[t] { FollowNone(m.vals[t]); }
    } else {
      PairingRest(m.vals.Keys, ps);
      MovedKeys(m, ps[0].o, ps[0].n);
      RenameTablesStep(m, ps);
      hide RenameTables, Moved, Followed;
      RenameTablesAt(Moved(m, ps[0].o, ps[0].n), ps[1..]);
      FollowedCons(m, ps, RenameTables(m, ps).vals);
    }
  }

  lemma MovedTo(m: OMap<Schema>, o: string, n: string, t: string)
    requires o in m.vals && n !in m.vals && t in m.vals
    ensures Ren(o, n, t) in Moved(m, o, n).vals && Moved(m, o, n).vals[Ren(o, n, t)] == RetargetSchema(o, n, m.vals[t])
  {
    hide RetargetSchema;
  }

  // After the table renames the planner has desired's tables, each one carrying the old columns.
  lemma TablesForth(cur: OMap<Schema>, des: OMap<Desired>)
    requires des.Ok() && RenamePairs(cur.vals.Keys, des.keys, TableFrom(des)).Ok? && IsRenaming(cur, des)
    ensures AfterRenames(cur, des).vals.Keys == des.vals.Keys
    ensures var ps := RenamePairs(cur.vals.Keys, des.keys, TableFrom(des)).value;
      forall k :: k in des.vals ==> AfterRenames(cur, des).vals[k] == Follow(ps, cur.vals[Src(TableFrom(des), k)])
  {
    var ps, from := RenamePairs(cur.vals.Keys, des.keys, TableFrom(des)).value, TableFrom(des);
    AcceptedArePairing(cur.vals.Keys, des.keys, from);
    RenameTablesAt(cur, ps);
    forall k | k in des.vals ensures RenAll(ps, Src(from, k)) == k {
      assert k in Elems(des.keys);
      RenAllUndoesSrc(cur.vals.Keys, des.keys, from, k);
    }
    var c := AfterRenames(cur, des);
    hide TableCarried, RenamePairs, RenameTables, Follow, Pairing, Src, RenAll, TableFrom, AfterRenames,
      OMap<Desired>.Ok;
    forall y ensures y in c.vals <==> y in des.vals {
      if y in c.vals { var t :| t in cur.vals && RenAll(ps, t) == y; }
    }
    assert c.vals.Keys == des.vals.Keys;
  }

  lemma KeyForth(c: map<string, Schema>, des: OMap<Desired>, k: string, n: string, fk: ForeignKey)
    requires WellFormed(Schemas(des)) && k in des.vals && n in des.vals[k].schema.fks.vals && c.Keys == des.vals.Keys
    requires forall t :: t in des.vals ==> SettledTable(des.vals[t])
    requires var goal := des.vals[k].schema.fks.vals[n];
      goal.refTable in des.vals ==> fk == BackKey(des, k, goal).(refTable := goal.refTable)
    ensures SubForeignKey(c, des, k, fk) == des.vals[k].schema.fks.vals[n]
  {
    hide WellFormed, SettledTable, SubNames, BackNames, ColumnMap, Src, NamesIn, TableFrom;
    var goal := des.vals[k].schema.fks.vals[n];
    DesiredKey(des, k, n);
    ColumnsAreOk(des, k);
    ColumnsAreOk(des, goal.refTable);
    NamesForth(des.vals[k], goal.cols);
    NamesForth(des.vals[goal.refTable], goal.refCols);
    assert goal.refTable in c.Keys;
  }

  lemma KeysForth(cur: OMap<Schema>, des: OMap<Desired>, k: string)
    requires des.Ok() && WellFormed(Schemas(des)) && RenamePairs(cur.vals.Keys, des.keys, TableFrom(des)).Ok? &&
      IsRenaming(cur, des)
    requires k in des.vals && k in AfterRenames(cur, des).vals && forall t :: t in des.vals ==>
      SettledTable(des.vals[t])
    ensures SubForeignKeys(AfterRenames(cur, des).vals, des, k, AfterRenames(cur, des).vals[k].fks).vals ==
      des.vals[k].schema.fks.vals
  {
    hide *;
    var c, ps, from := AfterRenames(cur, des), RenamePairs(cur.vals.Keys, des.keys, TableFrom(des)).value,
      TableFrom(des);
    TablesForth(cur, des);
    TableIsCarried(cur, des, k);
    var s, fks, goal := cur.vals[Src(from, k)], c.vals[k].fks, des.vals[k].schema.fks.vals;
    var sub := SubForeignKeys(c.vals, des, k, fks).vals;
    FollowKeys(ps, s);
    CarriedKeys(s, des, k);
    SubForeignKeysAre(c.vals, des, k, fks);
    forall n | n in goal ensures sub[n] == goal[n] {
      if goal[n].refTable in des.vals { TargetForth(cur, des, goal[n].refTable); }
      BackKeyTable(des, k, goal[n]);
      KeyForth(c.vals, des, k, n, fks.vals[n]);
    }
    assert sub.Keys == goal.Keys;
    MapsAgree(sub, goal);
  }

  lemma BackKeyTable(des: OMap<Desired>, k: string, fk: ForeignKey)
    requires k in des.vals
    ensures fk.refTable in des.vals ==> BackKey(des, k, fk).refTable == Src(TableFrom(des), fk.refTable)
  {
    hide Src, TableFrom, BackNames;
  }

  lemma FollowKeys(ps: seq<Pair>, s: Schema)
    ensures Follow(ps, s).fks.vals.Keys == s.fks.vals.Keys
    ensures forall n :: n in s.fks.vals ==>
      Follow(ps, s).fks.vals[n] == s.fks.vals[n].(refTable := RenAll(ps, s.fks.vals[n].refTable))
  {
    hide RenAll;
  }

  lemma CarriedKeys(c: Schema, des: OMap<Desired>, k: string)
    requires k in des.vals && TableCarried(c, des, k)
    ensures c.fks.vals.Keys == des.vals[k].schema.fks.vals.Keys
    ensures forall n :: n in des.vals[k].schema.fks.vals && des.vals[k].schema.fks.vals[n].refTable in des.vals ==>
              c.fks.vals[n] == BackKey(des, k, des.vals[k].schema.fks.vals[n])
  {
    hide CarriedOver, BackParts, BackIndexes, BackKey;
  }

  lemma SubForeignKeysAre(cur: map<string, Schema>, des: OMap<Desired>, k: string, fks: OMap<ForeignKey>)
    ensures SubForeignKeys(cur, des, k, fks).vals.Keys == fks.vals.Keys
    ensures forall n :: n in fks.vals ==>
      SubForeignKeys(cur, des, k, fks).vals[n] == SubForeignKey(cur, des, k, fks.vals[n])
  {
    hide SubForeignKey;
  }

  lemma TableIsCarried(cur: OMap<Schema>, des: OMap<Desired>, k: string)
    requires IsRenaming(cur, des) && k in des.vals
    ensures Src(TableFrom(des), k) in cur.vals && TableCarried(cur.vals[Src(TableFrom(des), k)], des, k)
  {
    hide TableCarried, Src, TableFrom;
  }

  lemma TargetForth(cur: OMap<Schema>, des: OMap<Desired>, k: string)
    requires des.Ok() && RenamePairs(cur.vals.Keys, des.keys, TableFrom(des)).Ok? && IsRenaming(cur, des) &&
      k in des.vals
    ensures RenAll(RenamePairs(cur.vals.Keys, des.keys, TableFrom(des)).value, Src(TableFrom(des), k)) == k
  {
    assert k in Elems(des.keys);
    hide RenamePairs, TableCarried, Src, RenAll, TableFrom;
    RenAllUndoesSrc(cur.vals.Keys, des.keys, TableFrom(des), k);
  }

  lemma TableForth(cur: OMap<Schema>, des: OMap<Desired>, k: string)
    requires des.Ok() && WellFormed(Schemas(des)) && RenamePairs(cur.vals.Keys, des.keys, TableFrom(des)).Ok? &&
      IsRenaming(cur, des)
    requires k in des.vals && k in AfterRenames(cur, des).vals && RenameWithin(AfterRenames(cur, des).vals, des, k).Ok?
    requires forall t :: t in des.vals ==> SettledTable(des.vals[t])
    ensures SameContent(RenameWithin(AfterRenames(cur, des).vals, des, k).value.schema, des.vals[k].schema)
  {
    var c := AfterRenames(cur, des);
    TablesForth(cur, des);
    KeysForth(cur, des, k);
    RenamedIs(c.vals, des, k);
    ColumnsAreOk(des, k);
    var s, d, r := cur.vals[Src(TableFrom(des), k)], des.vals[k], RenameWithin(c.vals, des, k).value;
    assert TableCarried(s, des, k);
    assert c.vals[k].cols == s.cols && c.vals[k].pk == s.pk && c.vals[k].indexes == s.indexes;
    assert d.schema.cols.Ok() && PartsIn(d.schema.pk, d.schema.cols.vals);
    hide WellFormed, IsRenaming, RenameWithin, AfterRenames, SettledTable, CarriedOver, SubForeignKeys, SubIndexes,
      SubParts, BackParts, BackIndexes, RenAllKeys, RenamePairs, ColumnMap, SchemaOk, RenameKeys, Follow, Src;
    CarriedRenames(s.cols.vals, d.schema.cols.vals, d.schema.cols.keys, d.colFrom);
    RenameKeysVals(s.cols, r.cols);
    PartsForth(d, d.schema.pk);
    IndexesForth(s, d, r.indexes);
    RenameKeysVals(SubIndexes(ColumnMap(d), s.indexes), r.indexes);
  }

  /* ----- the plan ----- */

  // The column and index renames, table by table in desired order.
  function RenameStmts(c: map<string, Schema>, des: OMap<Desired>, i: nat): seq<Stmt>
    requires i <= |des.keys|
    decreases |des.keys| - i
  {
    if i == |des.keys| then []
    else
      var k, rest := des.keys[i], RenameStmts(c, des, i + 1);
      if k in c && k in des.vals && RenameWithin(c, des, k).Ok? then
        ColumnRenames(k, RenameWithin(c, des, k).value.cols) +
          IndexRenames(k, RenameWithin(c, des, k).value.indexes) + rest
      else rest
  }

  lemma RenamesOnly(k: string, r: Renamed, d: Schema, p: Policy)
    requires SameContent(r.schema, d) && r.schema.cols.Ok() && r.schema.fks.Ok()
    ensures TablePlan(k, r, d, p) == Plan([], [], ColumnRenames(k, r.cols) + IndexRenames(k, r.indexes), [], [])
  {
    NothingToDo(k, r.schema, d, p);
    hide SameContent, LocalStmts, ForeignKeyDrops, ForeignKeyAdds, OMap<string>.Ok, OMap<ForeignKey>.Ok, ColumnRenames,
      IndexRenames;
    assert ColumnRenames(k, r.cols) + IndexRenames(k, r.indexes) + [] ==
      ColumnRenames(k, r.cols) + IndexRenames(k, r.indexes);
  }

  ghost predicate TablesRenamed(c: map<string, Schema>, des: OMap<Desired>) {
    forall k :: k in des.vals ==> k in c && (RenameWithin(c, des, k).Ok? ==>
      var s := RenameWithin(c, des, k).value.schema; SameContent(s, des.vals[k].schema) && s.cols.Ok() && s.fks.Ok())
  }

  lemma ChangedUnfolds(c: map<string, Schema>, des: OMap<Desired>, p: Policy, i: nat)
    requires i < |des.keys| && des.keys[i] in c && des.keys[i] in des.vals && ChangedTables(c, des, p, i).Ok?
    ensures var k := des.keys[i];
      RenameWithin(c, des, k).Ok? && ChangedTables(c, des, p, i + 1).Ok? &&
      var t, q := TablePlan(k, RenameWithin(c, des, k).value, des.vals[k].schema, p),
        ChangedTables(c, des, p, i + 1).value;
      ChangedTables(c, des, p, i).value == Plan([], t.fkDrops + q.fkDrops, t.stmts + q.stmts, [], t.fkAdds + q.fkAdds)
  {
    hide RenameWithin, TablePlan;
  }

  lemma {:induction false} ChangedRenames(c: map<string, Schema>, des: OMap<Desired>, p: Policy, i: nat)
    requires des.Ok() && TablesRenamed(c, des) && i <= |des.keys| && ChangedTables(c, des, p, i).Ok?
    ensures ChangedTables(c, des, p, i).value == Plan([], [], RenameStmts(c, des, i), [], [])
    decreases |des.keys| - i
  {
    if i < |des.keys| {
      KeyAt(des, i);
      var k := des.keys[i];
      assert k in c;
      ChangedUnfolds(c, des, p, i);
      ChangedRenames(c, des, p, i + 1);
      RenamesOnly(k, RenameWithin(c, des, k).value, des.vals[k].schema, p);
      hide RenameWithin, ColumnRenames, IndexRenames, ChangedTables, TablePlan, SameContent, OMap<Desired>.Ok;
    }
  }

  // Desired is current renamed: under any policy the plan is the RENAME statements.
  lemma PureRename(cur: OMap<Schema>, des: OMap<Desired>, p: Policy)
    requires cur.Ok() && SchemasOk(cur.vals) && des.Ok() && WellFormed(Schemas(des)) && IsRenaming(cur, des) &&
      DiffTables(cur, des, p).Ok?
    ensures RenamePairs(cur.vals.Keys, des.keys, TableFrom(des)).Ok?
    ensures DiffTables(cur, des, p).value ==
      Plan(TableRenames(RenamePairs(cur.vals.Keys, des.keys, TableFrom(des)).value), [],
        RenameStmts(AfterRenames(cur, des).vals, des, 0), [], [])
  {
    hide *;
    PlanIs(cur, des, p);
    var c, ps := AfterRenames(cur, des), RenamePairs(cur.vals.Keys, des.keys, TableFrom(des)).value;
    TablesForth(cur, des);
    MovedIsOk(cur, des);
    forall k | k in des.vals ensures RenameWithin(c.vals, des, k).Ok? && SettledTable(des.vals[k]) {
      InKeys(des, k);
      NoneRefused(c.vals, des, p, 0, k);
      ColumnsAreOk(des, k);
      WithinSettles(c.vals, des, k);
    }
    forall k | k in des.vals
      ensures var s := RenameWithin(c.vals, des, k).value.schema;
        SameContent(s, des.vals[k].schema) && s.cols.Ok() && s.fks.Ok()
    {
      TableForth(cur, des, k);
      OneSchemaOk(c.vals, k);
      ColumnsAreOk(des, k);
      RenamedOk(c.vals, des, k);
      OkMaps(RenameWithin(c.vals, des, k).value.schema);
    }
    AreRenamed(c.vals, des);
    ChangedRenames(c.vals, des, p, 0);
    NothingNew(c.vals, des, 0);
    NothingStale(c, des.vals, p.table, 0);
    PlanFields(RenameStmts(c.vals, des, 0));
  }

  lemma PlanFields(ss: seq<Stmt>)
    ensures Empty() == Plan([], [], [], [], []) && [] + ss == ss
  {
  }

  lemma MovedIsOk(cur: OMap<Schema>, des: OMap<Desired>)
    requires cur.Ok() && SchemasOk(cur.vals) && des.Ok() && RenamePairs(cur.vals.Keys, des.keys, TableFrom(des)).Ok?
    ensures SchemasOk(AfterRenames(cur, des).vals)
  {
    var ps := RenamePairs(cur.vals.Keys, des.keys, TableFrom(des)).value;
    assert Distinct(des.keys);
    hide SchemasOk, Run, RenamePairs, Pairing, Distinct, Elems;
    AcceptedArePairing(cur.vals.Keys, des.keys, TableFrom(des));
    TableRenamesRun(cur, ps);
  }

  lemma OneSchemaOk(m: map<string, Schema>, k: string)
    requires SchemasOk(m) && k in m
    ensures SchemaOk(m[k])
  {
  }

  lemma OkMaps(s: Schema)
    requires SchemaOk(s)
    ensures s.cols.Ok() && s.fks.Ok()
  {
  }

  lemma AreRenamed(c: map<string, Schema>, des: OMap<Desired>)
    requires forall k :: k in des.vals ==> (k in c && RenameWithin(c, des, k).Ok? &&
      var s := RenameWithin(c, des, k).value.schema; SameContent(s, des.vals[k].schema) && s.cols.Ok() && s.fks.Ok())
    ensures TablesRenamed(c, des)
  {
    hide RenameWithin, SameContent;
  }
}
