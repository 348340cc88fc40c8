/** Renames one after another are one substitution, and the planner's rewritten schema is the renamed database. */
module SchemaRename {
  import opened Common
  import opened SortedNames
  import opened SchemaModel
  import opened SchemaSpec
  import opened SchemaLocal

  /* ----- the renames that pass the checks ----- */

  // Every source exists, no target does, and neither repeats: sources and targets are disjoint.
  ghost predicate Pairing(names: set<string>, ps: seq<Pair>) {
    (forall i :: 0 <= i < |ps| ==> ps[i].o in names && ps[i].n !in names) &&
    forall i, j :: 0 <= i < j < |ps| ==> ps[i].o != ps[j].o && ps[i].n != ps[j].n
  }

  // What one accepted rename owes to the directives.
  ghost predicate Directed(keys: seq<string>, from: map<string, string>, i: nat, q: Pair) {
    q.o != "" && q.o !in keys && From(from, q.n) == q.o && exists j :: i <= j < |keys| && keys[j] == q.n
  }

  ghost predicate Complete(names: set<string>, keys: seq<string>, from: map<string, string>, i: nat, ps: seq<Pair>) {
    forall j :: i <= j < |keys| && From(from, keys[j]) != "" && From(from, keys[j]) != keys[j] ==>
      From(from, keys[j]) !in keys && (From(from, keys[j]) in names ==> Pair(From(from, keys[j]), keys[j]) in ps)
  }

  ghost predicate Accepted(names: set<string>, keys: seq<string>, from: map<string, string>, i: nat, ps: seq<Pair>) {
    Pairing(names, ps) && (forall q :: q in ps ==> Directed(keys, from, i, q)) && Complete(names, keys, from, i, ps)
  }

  lemma {:induction false} LoopAccepts(names: set<string>, keys: seq<string>, from: map<string, string>, i: nat)
    requires i <= |keys| && Distinct(keys) && !SharesSource(keys, from) && RenameLoop(names, keys, from, i).Ok?
    ensures Accepted(names, keys, from, i, RenameLoop(names, keys, from, i).value)
    decreases |keys| - i
  {
    if i < |keys| {
      var n := keys[i];
      var o := From(from, n);
      if o != "" && o != n && o in names {
        LoopAccepts(names - {o} + {n}, keys, from, i + 1);
        AcceptCons(names, keys, from, i, RenameLoop(names - {o} + {n}, keys, from, i + 1).value);
      } else {
        LoopAccepts(names, keys, from, i + 1);
        AcceptSkip(names, keys, from, i, RenameLoop(names, keys, from, i + 1).value);
      }
    }
  }

  lemma AcceptSkip(names: set<string>, keys: seq<string>, from: map<string, string>, i: nat, rest: seq<Pair>)
    requires i < |keys| && Accepted(names, keys, from, i + 1, rest)
    requires var o := From(from, keys[i]); o == "" || o == keys[i] || (o !in names && o !in keys)
    ensures Accepted(names, keys, from, i, rest)
  {
    hide Pairing;
  }

  lemma AcceptCons(names: set<string>, keys: seq<string>, from: map<string, string>, i: nat, rest: seq<Pair>)
    requires i < |keys| && Distinct(keys) && !SharesSource(keys, from)
    requires var o, n := From(from, keys[i]), keys[i];
      o != "" && o != n && o in names && o !in keys && n !in names &&
      Accepted(names - {o} + {n}, keys, from, i + 1, rest)
    ensures Accepted(names, keys, from, i, [Pair(From(from, keys[i]), keys[i])] + rest)
  {
    var o, n := From(from, keys[i]), keys[i];
    var ps := [Pair(o, n)] + rest;
    forall j | 0 <= j < |rest|
      ensures rest[j].o != o && rest[j].n != n && rest[j].o in names && rest[j].n !in names
    {
      assert rest[j] in rest;
      assert Directed(keys, from, i + 1, rest[j]);
    }
    PairingCons(names, Pair(o, n), rest);
    assert forall j :: i + 1 <= j < |keys| && From(from, keys[j]) != "" ==> From(from, keys[j]) != o;
    assert forall q :: q in ps ==> q == Pair(o, n) || q in rest;
    assert Pair(o, n) in ps;
    assert forall q :: q in rest ==> q in ps;
  }

  lemma PairingCons(names: set<string>, q: Pair, rest: seq<Pair>)
    requires q.o in names && q.n !in names
    requires forall j :: 0 <= j < |rest| ==>
      rest[j].o != q.o && rest[j].n != q.n && rest[j].o in names && rest[j].n !in names
    requires forall i, j :: 0 <= i < j < |rest| ==> rest[i].o != rest[j].o && rest[i].n != rest[j].n
    ensures Pairing(names, [q] + rest)
  {
  }

  // The checks force sources and targets apart.
  lemma AcceptedArePairing(names: set<string>, keys: seq<string>, from: map<string, string>)
    requires Distinct(keys) && RenamePairs(names, keys, from).Ok?
    ensures var ps := RenamePairs(names, keys, from).value;
      Pairing(names, ps) && forall q :: q in ps ==> q.n in keys && q.o !in keys && From(from, q.n) == q.o
  {
    LoopAccepts(names, keys, from, 0);
    hide Pairing, Distinct;
  }

  /* ----- sequential is simultaneous ----- */

  function RenAll(ps: seq<Pair>, x: string): string
    decreases |ps|
  {
    if ps == [] then x else RenAll(ps[1..], Ren(ps[0].o, ps[0].n, x))
  }

  lemma PairingRest(names: set<string>, ps: seq<Pair>)
    requires Pairing(names, ps) && ps != []
    ensures Pairing(names - {ps[0].o} + {ps[0].n}, ps[1..])
    ensures forall i :: 0 <= i < |ps[1..]| ==> ps[1..][i].o != ps[0].n
  {
    assert forall i :: 0 <= i < |ps[1..]| ==> ps[1..][i] == ps[i + 1];
  }

  // A name that is no source stays.
  lemma {:induction false} NoSource(ps: seq<Pair>, x: string)
    requires forall i :: 0 <= i < |ps| ==> ps[i].o != x
    ensures RenAll(ps, x) == x
    decreases |ps|
  {
    if ps != [] { NoSource(ps[1..], x); }
  }

  // The renames run one after another as one substitution: a source goes to its target, the rest stay.
  lemma {:induction false} SequentialIsSimultaneous(names: set<string>, ps: seq<Pair>, x: string)
    requires Pairing(names, ps) && x in names
    ensures (forall q :: q in ps && q.o == x ==> RenAll(ps, x) == q.n)
    ensures (forall q :: q in ps ==> q.o != x) ==> RenAll(ps, x) == x
    decreases |ps|
  {
    if ps != [] {
      PairingRest(names, ps);
      if ps[0].o == x {
        NoSource(ps[1..], ps[0].n);
        forall q | q in ps && q.o == x ensures q == ps[0] { var i :| 0 <= i < |ps| && ps[i] == q; }
      } else {
        SequentialIsSimultaneous(names - {ps[0].o} + {ps[0].n}, ps[1..], x);
        forall q | q in ps && q.o == x ensures q in ps[1..] {
          var i :| 0 <= i < |ps| && ps[i] == q;
          assert ps[1..][i - 1] == q;
        }
        assert forall q :: q in ps[1..] ==> q in ps;
      }
    }
  }

  // No two columns end under one name.
  lemma RenAllInjective(names: set<string>, ps: seq<Pair>, x: string, y: string)
    requires Pairing(names, ps) && x in names && y in names && RenAll(ps, x) == RenAll(ps, y)
    ensures x == y
  {
    SequentialIsSimultaneous(names, ps, x);
    SequentialIsSimultaneous(names, ps, y);
    if q :| q in ps && q.o == x {
      var i :| 0 <= i < |ps| && ps[i] == q;
      if r :| r in ps && r.o == y {
        var j :| 0 <= j < |ps| && ps[j] == r;
      }
    }
  }

  // The statements may come in any order.
  lemma AnyOrder(names: set<string>, ps: seq<Pair>, qs: seq<Pair>, x: string)
    requires Pairing(names, ps) && multiset(ps) == multiset(qs) && x in names
    ensures Pairing(names, qs) && RenAll(qs, x) == RenAll(ps, x)
  {
    ShuffledPairing(names, ps, qs);
    SequentialIsSimultaneous(names, ps, x);
    SequentialIsSimultaneous(names, qs, x);
    assert forall q :: q in ps <==> q in multiset(ps);
    assert forall q :: q in qs <==> q in multiset(qs);
  }

  lemma TwicePresent<T>(s: seq<T>, i: nat, j: nat)
    requires i < j < |s| && s[i] == s[j]
    ensures multiset(s)[s[i]] >= 2
  {
    assert s == s[..i] + [s[i]] + s[i + 1..j] + [s[j]] + s[j + 1..];
  }

  lemma {:induction false} TwiceIn<T(!new)>(s: seq<T>, x: T)
    requires multiset(s)[x] >= 2
    ensures exists i, j :: 0 <= i < j < |s| && s[i] == x && s[j] == x
  {
    assert x in multiset(s);
    var i :| 0 <= i < |s| && s[i] == x;
    assert s == s[..i] + [x] + s[i + 1..];
    assert multiset(s) == multiset(s[..i]) + multiset{x} + multiset(s[i + 1..]);
    if x in multiset(s[..i]) {
      var j :| 0 <= j < i && s[..i][j] == x;
      assert s[j] == x;
    } else {
      assert x in multiset(s[i + 1..]);
      var j :| 0 <= j < |s[i + 1..]| && s[i + 1..][j] == x;
      assert s[i + 1 + j] == x;
    }
  }

  lemma ShuffledPairing(names: set<string>, ps: seq<Pair>, qs: seq<Pair>)
    requires Pairing(names, ps) && multiset(ps) == multiset(qs)
    ensures Pairing(names, qs)
  {
    forall i | 0 <= i < |qs| ensures qs[i] in ps { assert qs[i] in multiset(qs); }
    forall i, j | 0 <= i < j < |qs| ensures qs[i].o != qs[j].o && qs[i].n != qs[j].n {
      if qs[i] == qs[j] {
        TwicePresent(qs, i, j);
        TwiceIn(ps, qs[i]);
        assert false;
      }
      var a :| 0 <= a < |ps| && ps[a] == qs[i];
      var b :| 0 <= b < |ps| && ps[b] == qs[j];
    }
  }

  /* ----- the substitution map ----- */

  lemma {:induction false} RenameMapIs(keys: seq<string>, from: map<string, string>, x: string)
    requires !SharesSource(keys, from)
    ensures x in RenameMap(keys, from) ==> x != "" && exists j :: 0 <= j < |keys| && From(from, keys[j]) == x
    ensures forall j :: 0 <= j < |keys| && From(from, keys[j]) == x && x != "" ==>
              x in RenameMap(keys, from) && RenameMap(keys, from)[x] == keys[j]
  {
    if keys != [] {
      var last := |keys| - 1;
      var init := keys[..last];
      assert forall j :: 0 <= j < last ==> init[j] == keys[j];
      RenameMapIs(init, from, x);
    }
  }

  // The renamed name is what columnRenameMap says.
  lemma RenAllIsSub(names: set<string>, keys: seq<string>, from: map<string, string>, x: string)
    requires Distinct(keys) && RenamePairs(names, keys, from).Ok? && x in names
    ensures RenAll(RenamePairs(names, keys, from).value, x) == Sub(RenameMap(keys, from), x)
  {
    var ps, m := RenamePairs(names, keys, from).value, RenameMap(keys, from);
    LoopAccepts(names, keys, from, 0);
    SequentialIsSimultaneous(names, ps, x);
    RenameMapIs(keys, from, x);
    hide Distinct, SharesSource, RenameMap, RenameLoop, RenAll, Pairing;
    if x in m {
      var j :| 0 <= j < |keys| && From(from, keys[j]) == x;
      if x == keys[j] {
        assert forall q :: q in ps ==> q.o != x;
      } else {
        assert Pair(x, keys[j]) in ps;
      }
    } else {
      assert forall q :: q in ps ==> q.o != x;
    }
  }

  // A part without a column name has nothing to rename.
  lemma NoNameStays(names: set<string>, keys: seq<string>, from: map<string, string>)
    requires Distinct(keys) && RenamePairs(names, keys, from).Ok?
    ensures RenAll(RenamePairs(names, keys, from).value, "") == "" && Sub(RenameMap(keys, from), "") == ""
  {
    var ps := RenamePairs(names, keys, from).value;
    LoopAccepts(names, keys, from, 0);
    RenameMapIs(keys, from, "");
    forall i | 0 <= i < |ps| ensures ps[i].o != "" { assert ps[i] in ps; assert Directed(keys, from, 0, ps[i]); }
    NoSource(ps, "");
  }

  /* ----- RENAME COLUMN on the database ----- */

  function RenAllNames(ps: seq<Pair>, s: seq<string>): (r: seq<string>)
    ensures |r| == |s| && forall i :: 0 <= i < |s| ==> r[i] == RenAll(ps, s[i])
  {
    seq(|s|, i requires 0 <= i < |s| => RenAll(ps, s[i]))
  }

  function RenAllParts(ps: seq<Pair>, s: seq<Part>): (r: seq<Part>)
    ensures |r| == |s| && forall i :: 0 <= i < |s| ==> r[i] == s[i].(column := RenAll(ps, s[i].column))
  {
    seq(|s|, i requires 0 <= i < |s| => s[i].(column := RenAll(ps, s[i].column)))
  }

  function RenAllKeys<V>(ps: seq<Pair>, m: map<string, V>): map<string, V>
    decreases |ps|
  {
    if ps == [] then m
    else if ps[0].o !in m then RenAllKeys(ps[1..], m)
    else RenAllKeys(ps[1..], RenKey(ps[0].o, ps[0].n, m))
  }

  function RenAllIndexes(ps: seq<Pair>, m: map<string, Index>): map<string, Index> {
    map x | x in m :: Index(RenAllParts(ps, m[x].parts), m[x].attrs)
  }

  function RenAllForeignKey(k: string, ps: seq<Pair>, owner: string, fk: ForeignKey): ForeignKey {
    ForeignKey(
      if owner == k then RenAllNames(ps, fk.cols) else fk.cols, fk.refTable,
      if fk.refTable == k then RenAllNames(ps, fk.refCols) else fk.refCols, fk.attrs)
  }

  function RenAllForeignKeys(k: string, ps: seq<Pair>, owner: string,
    m: map<string, ForeignKey>): map<string, ForeignKey> {
    map x | x in m :: RenAllForeignKey(k, ps, owner, m[x])
  }

  // A table of the database after the columns of table k are renamed.
  function RenAllColumns(k: string, ps: seq<Pair>, owner: string, t: Table): Table {
    var fks := RenAllForeignKeys(k, ps, owner, t.fks);
    if owner == k then Table(RenAllNames(ps, t.cols), RenAllKeys(ps, t.attrs), RenAllParts(ps, t.pk),
      RenAllIndexes(ps, t.indexes), fks)
    else t.(fks := fks)
  }

  lemma RenAllNone(k: string, owner: string, t: Table)
    ensures RenAllColumns(k, [], owner, t) == t
  {
    assert forall s :: RenAllNames([], s) == s;
    assert forall s :: RenAllParts([], s) == s;
    assert RenAllIndexes([], t.indexes) == t.indexes;
    assert RenAllForeignKeys(k, [], owner, t.fks) == t.fks;
  }

  lemma RenAllNamesStep(q: Pair, rest: seq<Pair>, s: seq<string>)
    ensures RenAllNames([q] + rest, s) == RenAllNames(rest, RenNames(q.o, q.n, s))
  {
    assert ([q] + rest)[1..] == rest;
  }

  lemma RenAllPartsStep(q: Pair, rest: seq<Pair>, s: seq<Part>)
    ensures RenAllParts([q] + rest, s) == RenAllParts(rest, RenParts(q.o, q.n, s))
  {
    assert ([q] + rest)[1..] == rest;
  }

  lemma RenAllIndexesStep(q: Pair, rest: seq<Pair>, m: map<string, Index>)
    ensures RenAllIndexes([q] + rest, m) == RenAllIndexes(rest, RenIndexes(q.o, q.n, m))
  {
    hide RenAllParts, RenParts;
    forall x | x in m ensures RenAllParts([q] + rest, m[x].parts) == RenAllParts(rest, RenParts(q.o, q.n, m[x].parts)) {
      RenAllPartsStep(q, rest, m[x].parts);
    }
  }

  lemma RenAllForeignKeysStep(k: string, q: Pair, rest: seq<Pair>, owner: string, m: map<string, ForeignKey>)
    ensures RenAllForeignKeys(k, [q] + rest, owner, m) ==
      RenAllForeignKeys(k, rest, owner, RenForeignKeys(k, q.o, q.n, owner, m))
  {
    hide RenAllNames, RenNames;
    forall x | x in m ensures RenAllForeignKey(k, [q] + rest, owner, m[x]) ==
        RenAllForeignKey(k, rest, owner, RenForeignKey(k, q.o, q.n, owner, m[x]))
    {
      RenAllNamesStep(q, rest, m[x].cols);
      RenAllNamesStep(q, rest, m[x].refCols);
    }
  }

  lemma RenAllColumnsStep(k: string, q: Pair, rest: seq<Pair>, owner: string, t: Table)
    requires owner == k ==> q.o in t.attrs
    ensures RenAllColumns(k, [q] + rest, owner, t) == RenAllColumns(k, rest, owner, RenColumn(k, q.o, q.n, owner, t))
  {
    RenAllNamesStep(q, rest, t.cols);
    RenAllPartsStep(q, rest, t.pk);
    RenAllIndexesStep(q, rest, t.indexes);
    RenAllForeignKeysStep(k, q, rest, owner, t.fks);
    assert ([q] + rest)[1..] == rest;
    hide RenAllNames, RenAllParts, RenAllIndexes, RenAllForeignKeys, RenNames, RenParts, RenIndexes, RenForeignKeys,
      RenKey;
  }

  lemma RenameColumnDoes(db: DB, k: string, o: string, n: string)
    requires k in db && o in db[k].attrs && n != "" && n !in db[k].attrs
    ensures Exec(db, RenameColumn(k, o, n)) == Some(map t | t in db :: RenColumn(k, o, n, t, db[t]))
  {
    hide RenColumn;
  }

  lemma RunStep(db: DB, s: Stmt, rest: seq<Stmt>)
    ensures Run(db, [s] + rest) == match Exec(db, s) case None => None case Some(d) => Run(d, rest)
  {
    hide Exec;
    assert ([s] + rest)[0] == s && ([s] + rest)[1..] == rest;
  }

  lemma RenKeyKeys<V>(o: string, n: string, m: map<string, V>)
    requires o in m
    ensures RenKey(o, n, m).Keys == m.Keys - {o} + {n}
  {
  }

  // The database after the columns of table k are renamed.
  function AllRenamed(db: DB, k: string, ps: seq<Pair>): DB {
    map t | t in db :: RenAllColumns(k, ps, t, db[t])
  }

  lemma AllRenamedStep(db: DB, k: string, q: Pair, rest: seq<Pair>)
    requires k in db && q.o in db[k].attrs
    ensures AllRenamed(db, k, [q] + rest) == AllRenamed(map t | t in db :: RenColumn(k, q.o, q.n, t, db[t]), k, rest)
  {
    hide RenAllColumns, RenColumn;
    forall t | t in db
      ensures RenAllColumns(k, [q] + rest, t, db[t]) == RenAllColumns(k, rest, t, RenColumn(k, q.o, q.n, t, db[t]))
    {
      RenAllColumnsStep(k, q, rest, t, db[t]);
    }
  }

  lemma AllRenamedNone(db: DB, k: string)
    ensures AllRenamed(db, k, []) == db
  {
    forall t | t in db ensures RenAllColumns(k, [], t, db[t]) == db[t] { RenAllNone(k, t, db[t]); }
    hide RenAllColumns;
  }

  lemma ColumnRenamesCons(k: string, q: Pair, rest: seq<Pair>)
    ensures ColumnRenames(k, [q] + rest) == [RenameColumn(k, q.o, q.n)] + ColumnRenames(k, rest)
  {
  }

  lemma {:induction false} ColumnRenamesRun(db: DB, k: string, ps: seq<Pair>)
    requires k in db && Pairing(db[k].attrs.Keys, ps) && forall i :: 0 <= i < |ps| ==> ps[i].n != ""
    ensures Run(db, ColumnRenames(k, ps)) == Some(AllRenamed(db, k, ps))
    decreases |ps|
  {
    hide Exec, RenAllColumns, RenColumn, AllRenamed, ColumnRenames;
    if ps == [] {
      AllRenamedNone(db, k);
      NoRenames(k);
    } else {
      var q, rest := ps[0], ps[1..];
      assert ps == [q] + rest;
      var e := map t | t in db :: RenColumn(k, q.o, q.n, t, db[t]);
      RenameColumnDoes(db, k, q.o, q.n);
      RenColumnAttrs(k, q.o, q.n, db[k]);
      PairingRest(db[k].attrs.Keys, ps);
      ColumnRenamesRun(e, k, rest);
      AllRenamedStep(db, k, q, rest);
      RunStep(db, RenameColumn(k, q.o, q.n), ColumnRenames(k, rest));
      ColumnRenamesCons(k, q, rest);
    }
  }

  lemma NoRenames(k: string)
    ensures ColumnRenames(k, []) == []
  {
  }

  lemma RenColumnAttrs(k: string, o: string, n: string, t: Table)
    requires o in t.attrs
    ensures RenColumn(k, o, n, k, t).attrs.Keys == t.attrs.Keys - {o} + {n}
  {
  }

  /* ----- the planner's side ----- */

  lemma {:induction false} RenameKeysVals<V>(m: OMap<V>, ps: seq<Pair>)
    ensures RenameKeys(m, ps).vals == RenAllKeys(ps, m.vals)
    decreases |ps|
  {
    if ps != [] {
      if ps[0].o !in m.vals { RenameKeysVals(m, ps[1..]); }
      else { RenameKeysVals(m.Delete(ps[0].o).Set(ps[0].n, m.vals[ps[0].o]), ps[1..]); }
    }
  }

  lemma {:induction false} AppendDistinct(s: seq<string>, x: string)
    requires Distinct(s) && x !in s
    ensures Distinct(s + [x]) && Elems(s + [x]) == Elems(s) + {x}
  {
  }

  lemma MoveKeyOk<V>(m: OMap<V>, o: string, n: string, v: V)
    requires m.Ok() && o in m.vals && n !in m.vals
    ensures m.Delete(o).Set(n, v).Ok() && m.Delete(o).Set(n, v).vals == (m.vals - {o})[n := v]
  {
    WithoutElems(m.keys, o);
    assert n !in Elems(m.Delete(o).keys);
    AppendDistinct(m.Delete(o).keys, n);
    assert (m.vals - {o})[n := v].Keys == (m.vals.Keys - {o}) + {n};
  }

  lemma {:induction false} RenameKeysOk<V>(m: OMap<V>, ps: seq<Pair>)
    requires m.Ok() && Pairing(m.vals.Keys, ps)
    ensures RenameKeys(m, ps).Ok()
    decreases |ps|
  {
    hide OMap<V>.Ok, OMap<V>.Set, OMap<V>.Delete;
    if ps != [] {
      var q := ps[0];
      MoveKeyOk(m, q.o, q.n, m.vals[q.o]);
      PairingRest(m.vals.Keys, ps);
      RenKeyKeys(q.o, q.n, m.vals);
      RenameKeysOk(m.Delete(q.o).Set(q.n, m.vals[q.o]), ps[1..]);
    }
  }

  // Where each entry went, and with what.
  lemma {:induction false} RenAllKeysAt<V>(ps: seq<Pair>, m: map<string, V>)
    requires Pairing(m.Keys, ps)
    ensures forall x :: x in m ==> RenAll(ps, x) in RenAllKeys(ps, m) && RenAllKeys(ps, m)[RenAll(ps, x)] == m[x]
    ensures forall y :: y in RenAllKeys(ps, m) ==> exists x :: x in m && RenAll(ps, x) == y
    decreases |ps|
  {
    if ps == [] {
      assert forall y :: y in m ==> RenAll(ps, y) == y;
    } else {
      var q, e := ps[0], RenKey(ps[0].o, ps[0].n, m);
      PairingRest(m.Keys, ps);
      RenKeyKeys(q.o, q.n, m);
      RenAllKeysAt(ps[1..], e);
      assert RenAllKeys(ps, m) == RenAllKeys(ps[1..], e);
      hide Pairing, RenAllKeys;
      forall x | x in m ensures Ren(q.o, q.n, x) in e && e[Ren(q.o, q.n, x)] == m[x] {}
      forall y | y in RenAllKeys(ps[1..], e) ensures exists x :: x in m && RenAll(ps, x) == y {
        var z :| z in e && RenAll(ps[1..], z) == y;
        var x := if z == q.n then q.o else z;
        assert x in m && Ren(q.o, q.n, x) == z;
      }
    }
  }
}
