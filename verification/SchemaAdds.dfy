/** The last bucket of a table plan: foreign keys are added once every table is in place. */
module SchemaAdds {
  import opened Common
  import opened SortedNames
  import opened SchemaModel
  import opened SchemaSpec
  import opened SchemaLocal
  import opened SchemaLegal
  import opened SchemaRename
  import opened SchemaRenamed
  import opened SchemaStages
  import opened SchemaState
  import opened SchemaSteps
  import opened SchemaBuckets

  // The foreign keys of a common table before and after its turn.
  function KeysNow(c: OMap<Schema>, des: OMap<Desired>, p: Policy, done: set<string>,
    k: string): map<string, ForeignKey>
    requires k in c.vals
  {
    var kept := HalfKeys(c, des, p, Both(c, des), k);
    if k in done && k in des.vals then kept + des.vals[k].schema.fks.vals else kept
  }

  // The tables that went are gone; those in `done` have all of their desired foreign keys.
  function AddDB(c: OMap<Schema>, des: OMap<Desired>, p: Policy, done: set<string>): DB {
    map k | k in des.vals.Keys + (if p.table then {} else c.vals.Keys) ::
      if k in c.vals then Body(c, des, p, Both(c, des), k).(fks := KeysNow(c, des, p, done, k))
      else AsTable(des.vals[k].schema).(fks := if k in done then des.vals[k].schema.fks.vals else map[])
  }

  lemma AddDBIs(c: OMap<Schema>, des: OMap<Desired>, p: Policy, done: set<string>, t: string)
    ensures t in AddDB(c, des, p, done) <==> t in des.vals || (!p.table && t in c.vals)
    ensures t in AddDB(c, des, p, done) && t in c.vals ==>
      AddDB(c, des, p, done)[t] == Body(c, des, p, Both(c, des), t).(fks := KeysNow(c, des, p, done, t))
    ensures t in des.vals && t !in c.vals ==>
      AddDB(c, des, p, done)[t] == AsTable(des.vals[t].schema).(
        fks := if t in done then des.vals[t].schema.fks.vals else map[])
  {
    hide Body, KeysNow, AsTable;
  }

  lemma KeysNowIs(c: OMap<Schema>, des: OMap<Desired>, p: Policy, done: set<string>, t: string)
    requires t in c.vals
    ensures KeysNow(c, des, p, done, t) ==
      if t in done && t in des.vals then HalfKeys(c, des, p, Both(c, des), t) + des.vals[t].schema.fks.vals
      else HalfKeys(c, des, p, Both(c, des), t)
  {
    hide HalfKeys;
  }

  lemma AllGone(c: OMap<Schema>, des: OMap<Desired>, p: Policy)
    requires c.Ok()
    ensures GoneSoFar(c, des, p, 0) == {}
    ensures GoneSoFar(c, des, p, |c.keys|) == if p.table then c.vals.Keys - des.vals.Keys else {}
  {
    FirstEnds(c);
    hide First, OMap<Schema>.Ok;
  }

  lemma AddDBStarts(c: OMap<Schema>, des: OMap<Desired>, p: Policy)
    requires c.Ok()
    ensures AddDB(c, des, p, {}) == MidDB(c, des, p, Both(c, des)) - GoneSoFar(c, des, p, |c.keys|)
  {
    AllGone(c, des, p);
    hide *;
    var a, b := AddDB(c, des, p, {}), MidDB(c, des, p, Both(c, des)) - GoneSoFar(c, des, p, |c.keys|);
    forall t ensures (t in a <==> t in b) && (t in b ==> a[t] == b[t]) {
      MidAt(c, des, p, Both(c, des), t);
      AddDBIs(c, des, p, {}, t);
      if t in c.vals { KeysNowIs(c, des, p, {}, t); }
      if t in des.vals { FreshIs(des.vals[t].schema); }
    }
    MapsAgree(a, b);
  }

  lemma FreshIs(s: Schema)
    ensures Fresh(s) == AsTable(s).(fks := map[])
  {
  }

  lemma AddDBAt(c: OMap<Schema>, des: OMap<Desired>, p: Policy, done: set<string>, k: string, x: string)
    requires k in des.vals && k !in done
    ensures var db, e, goal := AddDB(c, des, p, done), AddDB(c, des, p, done + {k}), des.vals[k].schema.fks.vals;
      (x in e <==> x in db) && (x in e && x != k ==> e[x] == db[x]) && k in db && k in e &&
      e[k] == db[k].(fks := db[k].fks + goal) &&
      db[k].fks == if k in c.vals then HalfKeys(c, des, p, Both(c, des), k) else map[]
  {
    AddDBIs(c, des, p, done, x);
    AddDBIs(c, des, p, done + {k}, x);
    AddDBIs(c, des, p, done, k);
    AddDBIs(c, des, p, done + {k}, k);
    hide *;
    if x in c.vals {
      KeysNowIs(c, des, p, done, x);
      KeysNowIs(c, des, p, done + {k}, x);
    }
    if k in c.vals {
      KeysNowIs(c, des, p, done, k);
      KeysNowIs(c, des, p, done + {k}, k);
    }
    assert map[] + des.vals[k].schema.fks.vals == des.vals[k].schema.fks.vals;
  }

  lemma AddDBStep(c: OMap<Schema>, des: OMap<Desired>, p: Policy, done: set<string>, k: string)
    requires k in des.vals && k !in done
    ensures var db := AddDB(c, des, p, done);
      k in db && AddDB(c, des, p, done + {k}) == db[k := db[k].(fks := db[k].fks + des.vals[k].schema.fks.vals)] &&
      db[k].fks == if k in c.vals then HalfKeys(c, des, p, Both(c, des), k) else map[]
  {
    hide *;
    AddDBAt(c, des, p, done, k, k);
    var db, e := AddDB(c, des, p, done), AddDB(c, des, p, done + {k});
    var t := db[k].(fks := db[k].fks + des.vals[k].schema.fks.vals);
    forall x ensures (x in e <==> x in db || x == k) && (x in e ==> e[x] == if x == k then t else db[x]) {
      AddDBAt(c, des, p, done, k, x);
    }
    PutAll(db, e, k, t);
  }

  /* ----- what is added, and what its names meet ----- */

  // What table k still lacks is what is added.
  lemma KeysAddUp(c: OMap<Schema>, des: OMap<Desired>, p: Policy, k: string)
    requires Ready(c, des) && k in Both(c, des)
    ensures var goal := des.vals[k].schema.fks;
      var kept, added := HalfKeys(c, des, p, Both(c, des), k),
        AddedKeys(RenamedTable(c, des, k).schema.fks.vals, goal, 0);
      added.Keys !! kept.Keys && kept + added == kept + goal.vals
    ensures forall n :: n in AddedKeys(RenamedTable(c, des, k).schema.fks.vals, des.vals[k].schema.fks, 0) <==>
      Adds(c, des, k, n)
  {
    BothIs(c, des, k);
    ReadyAt(c, des, k);
    ReadySchemas(c, des, k);
    hide *;
    RenamedFields(c, des, k);
    var goal, cur := des.vals[k].schema.fks, RenamedTable(c, des, k).schema.fks.vals;
    SchemaKeysOk(des.vals[k].schema);
    NoSuffix(goal.keys);
    var kept, added := HalfKeys(c, des, p, Both(c, des), k), AddedKeys(cur, goal, 0);
    GoalKeys(goal);
    forall n
      ensures n in added <==> n in goal.vals && !Stays(c, des, k, n)
      ensures n in added ==> added[n] == goal.vals[n]
      ensures n in kept && n in goal.vals ==> Stays(c, des, k, n) && kept[n] == goal.vals[n]
      ensures Stays(c, des, k, n) ==> n in kept
      ensures n in added <==> Adds(c, des, k, n)
    {
      KeptAt(c, des, p, k, n);
      AddedKeysAre(cur, goal, 0, n);
      StaysIsSame(c, des, k, n);
      AddsIs(c, des, k, n);
    }
    MapsAgree(kept + added, kept + goal.vals);
  }

  lemma GoalKeys(fks: OMap<ForeignKey>)
    requires fks.Ok()
    ensures Elems(fks.keys) == fks.vals.Keys
  {
  }

  // A desired foreign key that an ADD CONSTRAINT brings.
  predicate Adds(c: OMap<Schema>, des: OMap<Desired>, k: string, n: string) {
    k in des.vals && n in des.vals[k].schema.fks.vals && (k in c.vals ==> !Stays(c, des, k, n))
  }

  lemma AddsIs(c: OMap<Schema>, des: OMap<Desired>, k: string, n: string)
    ensures Adds(c, des, k, n) <==>
      k in des.vals && n in des.vals[k].schema.fks.vals && (k in c.vals ==> !Stays(c, des, k, n))
  {
    hide Stays;
  }

  lemma StaysIsSame(c: OMap<Schema>, des: OMap<Desired>, k: string, n: string)
    requires k in c.vals && k in des.vals
    ensures Stays(c, des, k, n) <==>
      SameForeignKey(SubForeignKeys(c.vals, des, k, c.vals[k].fks).vals, des.vals[k].schema.fks.vals, n)
  {
    hide SubForeignKey;
  }

  lemma KeptAt(c: OMap<Schema>, des: OMap<Desired>, p: Policy, k: string, n: string)
    requires WellFormed(c.vals) && k in c.vals && k in des.vals
    ensures var kept, goal := HalfKeys(c, des, p, Both(c, des), k), des.vals[k].schema.fks.vals;
      (n in kept <==> Stays(c, des, k, n) || Leftover(c, des, p, k, n)) &&
      (Stays(c, des, k, n) ==> n in goal && kept[n] == goal[n]) && (Leftover(c, des, p, k, n) ==> n !in goal)
  {
    HalfKeysAre(c, des, p, Both(c, des), k, n);
    KeepsIs(c, des, p, k, n);
    if Stays(c, des, k, n) { HalfDone(c, des, k, n); }
    hide HalfKeys, WellFormed, Half, SubForeignKey, Both, Keeps;
  }

  // The names of the foreign keys left over, anywhere in the database.
  ghost function LeftoverNames(c: OMap<Schema>, des: OMap<Desired>, p: Policy): set<string> {
    set t, n | t in c.vals && n in c.vals[t].fks.vals && Leftover(c, des, p, t, n) :: n
  }

  lemma LeftoverName(c: OMap<Schema>, des: OMap<Desired>, p: Policy, t: string, n: string)
    requires t in c.vals && Leftover(c, des, p, t, n)
    ensures n in LeftoverNames(c, des, p)
  {
    LeftoverIsCurrent(c, des, p, t, n);
    hide Leftover;
  }

  // A foreign key is added under the name of one left over.
  ghost predicate NameTaken(c: OMap<Schema>, des: OMap<Desired>, p: Policy) {
    exists k, n :: Adds(c, des, k, n) && n in LeftoverNames(c, des, p)
  }

  lemma FinalHasColumns(c: OMap<Schema>, des: OMap<Desired>, p: Policy, k: string)
    requires Ready(c, des) && k in Both(c, des)
    ensures des.vals[k].schema.cols.vals.Keys <= Body(c, des, p, Both(c, des), k).attrs.Keys
  {
    BothIs(c, des, k);
    ReadyAt(c, des, k);
    FinalIsBody(c, des, p, Both(c, des), k);
    hide Ready, Body, RenameWithin, AddedCols, FinalKey, FinalIndexes;
  }

  lemma ReceivesAt(c: OMap<Schema>, des: OMap<Desired>, p: Policy, done: set<string>, t: string, n: string)
    requires Ready(c, des) && t in AddDB(c, des, p, done) && n in AddDB(c, des, p, done)[t].fks
    ensures n in LeftoverNames(c, des, p) || (t in des.vals && n in des.vals[t].schema.fks.vals)
  {
    ReadySchemas(c, des, t);
    AddDBIs(c, des, p, done, t);
    hide *;
    if t in c.vals {
      KeysNowIs(c, des, p, done, t);
      HalfKeysAre(c, des, p, Both(c, des), t, n);
      KeepsIs(c, des, p, t, n);
      if Leftover(c, des, p, t, n) { LeftoverName(c, des, p, t, n); }
      StaysIsWanted(c, des, t, n);
    }
  }

  lemma StaysIsWanted(c: OMap<Schema>, des: OMap<Desired>, t: string, n: string)
    requires t in c.vals
    ensures Stays(c, des, t, n) ==> t in des.vals && n in des.vals[t].schema.fks.vals
  {
    hide SubForeignKey;
  }

  lemma ColumnsAt(c: OMap<Schema>, des: OMap<Desired>, p: Policy, done: set<string>, k: string)
    requires Ready(c, des) && k in des.vals
    ensures k in AddDB(c, des, p, done) && des.vals[k].schema.cols.vals.Keys <= AddDB(c, des, p, done)[k].attrs.Keys
  {
    AddDBIs(c, des, p, done, k);
    BothIs(c, des, k);
    hide *;
    if k in c.vals { FinalHasColumns(c, des, p, k); } else { AsTableIs(des.vals[k].schema); }
  }

  lemma AddDBReceives(c: OMap<Schema>, des: OMap<Desired>, p: Policy, done: set<string>)
    requires Ready(c, des)
    ensures Receives(AddDB(c, des, p, done), Schemas(des), LeftoverNames(c, des, p))
  {
    hide AddDB, LeftoverNames, Ready;
    var db := AddDB(c, des, p, done);
    forall k | k in des.vals ensures k in db && des.vals[k].schema.cols.vals.Keys <= db[k].attrs.Keys {
      ColumnsAt(c, des, p, done, k);
    }
    forall t, n | t in db && n in db[t].fks
      ensures n in LeftoverNames(c, des, p) || (t in des.vals && n in des.vals[t].schema.fks.vals)
    {
      ReceivesAt(c, des, p, done, t, n);
    }
  }

  /* ----- the adds run unless a name is taken ----- */

  lemma NoneTaken(c: OMap<Schema>, des: OMap<Desired>, p: Policy, k: string, added: set<string>)
    requires !NameTaken(c, des, p) && forall n :: n in added ==> Adds(c, des, k, n)
    ensures added !! LeftoverNames(c, des, p)
  {
    hide LeftoverNames, Adds;
  }

  lemma NewAdds(c: OMap<Schema>, des: OMap<Desired>, k: string)
    requires k in des.vals && k !in c.vals && des.vals[k].schema.fks.Ok()
    ensures forall n :: n in AddedKeys(map[], des.vals[k].schema.fks, 0) <==> Adds(c, des, k, n)
  {
    AllAreNew(des.vals[k].schema.fks);
    hide AddedKeys, Stays;
  }

  lemma TableAddsRun(c: OMap<Schema>, des: OMap<Desired>, p: Policy, done: set<string>, k: string,
    cur: map<string, ForeignKey>)
    requires Ready(c, des) && k in des.vals && k !in done && !NameTaken(c, des, p)
    requires k in c.vals && RenameWithin(c.vals, des, k).Ok? ==> cur == RenamedTable(c, des, k).schema.fks.vals
    requires k !in c.vals ==> cur == map[]
    ensures Run(AddDB(c, des, p, done), ForeignKeyAdds(k, cur, des.vals[k].schema.fks, 0)) ==
      Some(AddDB(c, des, p, done + {k}))
  {
    ReadySchemas(c, des, k);
    ReadyAt(c, des, k);
    WellFormedHas(Schemas(des));
    BothIs(c, des, k);
    hide *;
    SchemasAt(des, k);
    var fks, taken := des.vals[k].schema.fks, LeftoverNames(c, des, p);
    SchemaKeysOk(des.vals[k].schema);
    var db := AddDB(c, des, p, done);
    AddDBReceives(c, des, p, done);
    AddDBStep(c, des, p, done, k);
    if k in c.vals {
      KeysAddUp(c, des, p, k);
    } else {
      AllAreNew(fks);
      NewAdds(c, des, k);
    }
    NoneTaken(c, des, p, k, AddedKeys(cur, fks, 0).Keys);
    ForeignKeyAddsRun(db, Schemas(des), taken, k, cur, 0);
  }

  lemma WellFormedHas(m: map<string, Schema>)
    requires WellFormed(m)
    ensures DBOk(AsDB(m)) && SchemasOk(m)
  {
  }

  lemma SchemasAt(des: OMap<Desired>, k: string)
    requires k in des.vals
    ensures k in Schemas(des) && Schemas(des)[k] == des.vals[k].schema
  {
  }

  lemma AllAreNew(fks: OMap<ForeignKey>)
    requires fks.Ok()
    ensures AddedKeys(map[], fks, 0) == fks.vals && map[] + fks.vals == fks.vals
  {
    NoSuffix(fks.keys);
  }

  lemma NoMoreAdds(c: OMap<Schema>, des: OMap<Desired>, p: Policy)
    requires ChangedTables(c.vals, des, p, |des.keys|).Ok?
    ensures NewTables(c.vals, des, |des.keys|).fkAdds == [] &&
      ChangedTables(c.vals, des, p, |des.keys|).value.fkAdds == []
  {
  }

  lemma {:induction false} NewAddsRun(c: OMap<Schema>, des: OMap<Desired>, p: Policy, i: nat)
    requires Ready(c, des) && i <= |des.keys| && !NameTaken(c, des, p)
    ensures Run(AddDB(c, des, p, First(des.keys, i) - c.vals.Keys), NewTables(c.vals, des, i).fkAdds) ==
      Some(AddDB(c, des, p, First(des.keys, |des.keys|) - c.vals.Keys))
    decreases |des.keys| - i
  {
    hide *;
    ReadyMaps(c, des);
    var done := First(des.keys, i) - c.vals.Keys;
    if i == |des.keys| {
      ChangedIsOk(c, des, p, i);
      NoMoreAdds(c, des, p);
      RunNothing(AddDB(c, des, p, done));
    } else {
      var k := des.keys[i];
      NewStep(c, des, i);
      FirstStep(des.keys, i);
      NewAddsRun(c, des, p, i + 1);
      OneMore(First(des.keys, i), c.vals.Keys, k);
      if k !in c.vals {
        TableAddsRun(c, des, p, done, k, map[]);
        RunTwo(AddDB(c, des, p, done), ForeignKeyAdds(k, map[], des.vals[k].schema.fks, 0),
          NewTables(c.vals, des, i + 1).fkAdds, AddDB(c, des, p, done + {k}));
      }
    }
  }

  lemma {:induction false} ChangedAddsRun(c: OMap<Schema>, des: OMap<Desired>, p: Policy, i: nat)
    requires Ready(c, des) && i <= |des.keys| && !NameTaken(c, des, p)
    ensures ChangedTables(c.vals, des, p, i).Ok?
    ensures Run(AddDB(c, des, p, (des.vals.Keys - c.vals.Keys) + First(des.keys, i)),
      ChangedTables(c.vals, des, p, i).value.fkAdds) ==
      Some(AddDB(c, des, p, (des.vals.Keys - c.vals.Keys) + First(des.keys, |des.keys|)))
    decreases |des.keys| - i
  {
    hide *;
    ChangedIsOk(c, des, p, i);
    ReadyMaps(c, des);
    var made := des.vals.Keys - c.vals.Keys;
    var done := made + First(des.keys, i);
    if i == |des.keys| {
      NoMoreAdds(c, des, p);
      RunNothing(AddDB(c, des, p, done));
    } else {
      var k := des.keys[i];
      ChangedStep(c, des, p, i);
      FirstStep(des.keys, i);
      KeyAt(des, i);
      BothIs(c, des, k);
      OneMore(First(des.keys, i), made, k);
      ChangedAddsRun(c, des, p, i + 1);
      if k in c.vals {
        ReadyAt(c, des, k);
        var cur := RenamedTable(c, des, k).schema.fks.vals;
        TableAddsRun(c, des, p, done, k, cur);
        RunTwo(AddDB(c, des, p, done), ForeignKeyAdds(k, cur, des.vals[k].schema.fks, 0),
          ChangedTables(c.vals, des, p, i + 1).value.fkAdds, AddDB(c, des, p, done + {k}));
      }
    }
  }

  /* ----- a taken name stops the script ----- */

  predicate OnlyAdds(ss: seq<Stmt>) {
    forall i :: 0 <= i < |ss| ==> ss[i].AddForeignKey?
  }

  predicate AddsName(ss: seq<Stmt>, n: string) {
    exists i :: 0 <= i < |ss| && ss[i].AddForeignKey? && ss[i].name == n
  }

  lemma AddsNameAppend(a: seq<Stmt>, b: seq<Stmt>, n: string)
    ensures OnlyAdds(a) && OnlyAdds(b) ==> OnlyAdds(a + b)
    ensures AddsName(a, n) || AddsName(b, n) ==> AddsName(a + b, n)
  {
    if i :| 0 <= i < |a| && a[i].AddForeignKey? && a[i].name == n { assert (a + b)[i] == a[i]; }
    if i :| 0 <= i < |b| && b[i].AddForeignKey? && b[i].name == n { assert (a + b)[|a| + i] == b[i]; }
  }

  lemma AddsNameHead(s: Stmt, n: string)
    requires s.AddForeignKey?
    ensures OnlyAdds([s]) && (s.name == n ==> AddsName([s], n))
  {
    assert [s][0] == s;
  }

  // The emitted statements are adds, and every foreign key to add is among them.
  lemma {:induction false} TableAddsAre(k: string, cur: map<string, ForeignKey>, fks: OMap<ForeignKey>,
    i: nat, n: string)
    requires fks.Ok() && i <= |fks.keys|
    ensures OnlyAdds(ForeignKeyAdds(k, cur, fks, i))
    ensures n in AddedKeys(cur, fks, i) ==> AddsName(ForeignKeyAdds(k, cur, fks, i), n)
    decreases |fks.keys| - i
  {
    hide *;
    ForeignKeyAddsUnfold(k, cur, fks, i);
    if i == |fks.keys| {
      NoneAdded(cur, fks);
      NothingAdded();
    } else {
      AddedKeysStep(cur, fks, i);
      TableAddsAre(k, cur, fks, i + 1, n);
      var m := fks.keys[i];
      if !SameForeignKey(cur, fks.vals, m) {
        AddsNameHead(AddForeignKey(k, m, fks.vals[m]), n);
        AddsNameAppend([AddForeignKey(k, m, fks.vals[m])], ForeignKeyAdds(k, cur, fks, i + 1), n);
      }
    }
  }

  lemma NothingAdded()
    ensures OnlyAdds([])
  {
  }

  lemma {:induction false} NewAddsAre(c: OMap<Schema>, des: OMap<Desired>, p: Policy, i: nat, k: string, n: string)
    requires Ready(c, des) && i <= |des.keys|
    ensures OnlyAdds(NewTables(c.vals, des, i).fkAdds)
    ensures k in des.keys[i..] && k !in c.vals && Adds(c, des, k, n) ==> AddsName(NewTables(c.vals, des, i).fkAdds, n)
    decreases |des.keys| - i
  {
    hide *;
    ReadyMaps(c, des);
    if i == |des.keys| {
      ChangedIsOk(c, des, p, i);
      NoMoreAdds(c, des, p);
      NothingAdded();
    } else {
      var h := des.keys[i];
      NewStep(c, des, i);
      NewAddsAre(c, des, p, i + 1, k, n);
      InSuffix(des.keys, i, k);
      if h !in c.vals {
        ReadySchemas(c, des, h);
        SchemaKeysOk(des.vals[h].schema);
        TableAddsAre(h, map[], des.vals[h].schema.fks, 0, n);
        NewAdds(c, des, h);
        AddsNameAppend(ForeignKeyAdds(h, map[], des.vals[h].schema.fks, 0), NewTables(c.vals, des, i + 1).fkAdds, n);
      }
    }
  }

  lemma InSuffix(s: seq<string>, i: nat, x: string)
    requires i < |s|
    ensures x in s[i..] <==> x == s[i] || x in s[i + 1..]
  {
    assert s[i..] == [s[i]] + s[i + 1..];
  }

  lemma {:induction false} ChangedAddsAre(c: OMap<Schema>, des: OMap<Desired>, p: Policy, i: nat, k: string, n: string)
    requires Ready(c, des) && i <= |des.keys|
    ensures ChangedTables(c.vals, des, p, i).Ok? && OnlyAdds(ChangedTables(c.vals, des, p, i).value.fkAdds)
    ensures k in des.keys[i..] && k in c.vals && Adds(c, des, k, n) ==>
      AddsName(ChangedTables(c.vals, des, p, i).value.fkAdds, n)
    decreases |des.keys| - i
  {
    hide *;
    ChangedIsOk(c, des, p, i);
    ReadyMaps(c, des);
    if i == |des.keys| {
      NoMoreAdds(c, des, p);
      NothingAdded();
    } else {
      var h := des.keys[i];
      ChangedStep(c, des, p, i);
      ChangedAddsAre(c, des, p, i + 1, k, n);
      InSuffix(des.keys, i, k);
      BothIs(c, des, h);
      KeyAt(des, i);
      if h in c.vals {
        ReadyAt(c, des, h);
        ReadySchemas(c, des, h);
        SchemaKeysOk(des.vals[h].schema);
        var cur := RenamedTable(c, des, h).schema.fks.vals;
        TableAddsAre(h, cur, des.vals[h].schema.fks, 0, n);
        KeysAddUp(c, des, p, h);
        AddsNameAppend(ForeignKeyAdds(h, cur, des.vals[h].schema.fks, 0),
          ChangedTables(c.vals, des, p, i + 1).value.fkAdds, n);
      }
    }
  }

  // The left-over foreign key whose name is taken is there when the adds start.
  lemma TakenIsThere(c: OMap<Schema>, des: OMap<Desired>, p: Policy, n: string) returns (t: string)
    requires n in LeftoverNames(c, des, p)
    ensures t in AddDB(c, des, p, {}) && n in AddDB(c, des, p, {})[t].fks
  {
    var u :| u in c.vals && n in c.vals[u].fks.vals && Leftover(c, des, p, u, n);
    t := u;
    assert t in des.vals || !p.table;
    hide *;
    AddDBIs(c, des, p, {}, t);
    KeysNowIs(c, des, p, {}, t);
    KeepsIs(c, des, p, t, n);
    HalfKeysAre(c, des, p, Both(c, des), t, n);
  }

  lemma AddsBlocked(c: OMap<Schema>, des: OMap<Desired>, p: Policy)
    requires Ready(c, des) && NameTaken(c, des, p)
    ensures ChangedTables(c.vals, des, p, 0).Ok?
    ensures Run(AddDB(c, des, p, {}), NewTables(c.vals, des, 0).fkAdds +
      ChangedTables(c.vals, des, p, 0).value.fkAdds) == None
  {
    ReadyMaps(c, des);
    var k, n :| Adds(c, des, k, n) && n in LeftoverNames(c, des, p);
    hide *;
    ChangedIsOk(c, des, p, 0);
    AddsIs(c, des, k, n);
    InAll(des, k);
    NewAddsAre(c, des, p, 0, k, n);
    ChangedAddsAre(c, des, p, 0, k, n);
    var a, b := NewTables(c.vals, des, 0).fkAdds, ChangedTables(c.vals, des, p, 0).value.fkAdds;
    AddsNameAppend(a, b, n);
    var t := TakenIsThere(c, des, p, n);
    RefusedAt(AddDB(c, des, p, {}), a + b, n, t);
  }

  lemma InAll(des: OMap<Desired>, k: string)
    requires des.Ok()
    ensures k in des.vals ==> k in des.keys[0..]
  {
    assert k in des.vals ==> k in Elems(des.keys);
  }

  lemma RefusedAt(db: DB, ss: seq<Stmt>, n: string, t: string)
    requires OnlyAdds(ss) && AddsName(ss, n) && t in db && n in db[t].fks
    ensures Run(db, ss) == None
  {
    var i :| 0 <= i < |ss| && ss[i].AddForeignKey? && ss[i].name == n;
    hide Run;
    BlockedByName(db, ss, i, t);
  }
}
