/** Which rename directives a plan refuses, and with which error. */
module SchemaRefusals {
  import opened Common
  import opened SortedNames
  import opened SchemaModel
  import opened SchemaSpec
  import opened SchemaRename
  import opened SchemaPureRename

  /* ----- when a directive is wrong ----- */

  // Two entries claim one source.
  ghost predicate Contested(keys: seq<string>, from: map<string, string>) {
    exists k, h :: k in keys && h in keys && k != h && k in from && h in from && from[k] != "" && from[k] == from[h]
  }

  // What is wrong with the directive of entry k. The source must not be declared as well, and exactly one of the old
  // and the new name must exist: the old one, or the new one if the rename has been applied before.
  ghost predicate Fault(names: set<string>, keys: seq<string>, from: map<string, string>, k: string, e: RenameError) {
    k in from && from[k] != "" && from[k] != k &&
    match e
    case DuplicateSource => false
    case SourceDeclared => from[k] in keys
    case SourceMissing => from[k] !in keys && from[k] !in names && k !in names
    case DestinationExists => from[k] !in keys && from[k] in names && k in names
  }

  ghost predicate Faultless(names: set<string>, keys: seq<string>, from: map<string, string>, k: string) {
    forall e: RenameError :: !Fault(names, keys, from, k, e)
  }

  // The first wrong entry from position i on is j, with error e.
  ghost predicate FirstFault(
    names: set<string>, keys: seq<string>, from: map<string, string>, i: nat, j: nat, e: RenameError) {
    i <= j < |keys| && Fault(names, keys, from, keys[j], e) &&
    forall h :: i <= h < j ==> Faultless(names, keys, from, keys[h])
  }

  ghost predicate Answers(names: set<string>, keys: seq<string>, from: map<string, string>, i: nat, e: RenameError) {
    exists j: nat :: FirstFault(names, keys, from, i, j, e)
  }

  // The directives are refused with e: a contested source comes first, then the first wrong entry.
  ghost predicate Refused(names: set<string>, keys: seq<string>, from: map<string, string>, e: RenameError) {
    if Contested(keys, from) then e == DuplicateSource else Answers(names, keys, from, 0, e)
  }

  ghost predicate Clean(names: set<string>, keys: seq<string>, from: map<string, string>) {
    !Contested(keys, from) && forall k :: k in keys ==> Faultless(names, keys, from, k)
  }

  lemma ContestedIs(keys: seq<string>, from: map<string, string>)
    requires Distinct(keys)
    ensures SharesSource(keys, from) <==> Contested(keys, from)
  {
    if Contested(keys, from) {
      var k, h :| k in keys && h in keys && k != h && k in from && h in from && from[k] != "" && from[k] == from[h];
      var i :| 0 <= i < |keys| && keys[i] == k;
      var j :| 0 <= j < |keys| && keys[j] == h;
      var a, b := if i < j then i else j, if i < j then j else i;
      assert From(from, keys[a]) == From(from, keys[b]) != "";
    }
  }

  // A rename carried out makes no later directive right or wrong.
  lemma FaultsStay(
    names: set<string>, keys: seq<string>, from: map<string, string>, n: string, k: string, e: RenameError)
    requires !Contested(keys, from) && n in keys && k in keys && k != n
    requires n in from && from[n] != "" && from[n] != n && from[n] !in keys
    ensures Fault(names - {from[n]} + {n}, keys, from, k, e) <==> Fault(names, keys, from, k, e)
  {
  }

  lemma FirstFaultSkip(
    names: set<string>, keys: seq<string>, from: map<string, string>, i: nat, j: nat, e: RenameError)
    requires i < |keys| && Faultless(names, keys, from, keys[i])
    ensures FirstFault(names, keys, from, i, j, e) <==> FirstFault(names, keys, from, i + 1, j, e)
  {
    hide Fault;
  }

  lemma AnswersSkip(names: set<string>, keys: seq<string>, from: map<string, string>, i: nat, e: RenameError)
    requires i < |keys| && Faultless(names, keys, from, keys[i])
    ensures Answers(names, keys, from, i, e) <==> Answers(names, keys, from, i + 1, e)
  {
    hide FirstFault, Faultless;
    forall j: nat ensures FirstFault(names, keys, from, i, j, e) <==> FirstFault(names, keys, from, i + 1, j, e) {
      FirstFaultSkip(names, keys, from, i, j, e);
    }
    if Answers(names, keys, from, i, e) {
      var j: nat :| FirstFault(names, keys, from, i, j, e);
      assert FirstFault(names, keys, from, i + 1, j, e);
    }
    if Answers(names, keys, from, i + 1, e) {
      var j: nat :| FirstFault(names, keys, from, i + 1, j, e);
      assert FirstFault(names, keys, from, i, j, e);
    }
  }

  lemma AnswersStay(names: set<string>, keys: seq<string>, from: map<string, string>, i: nat, e: RenameError)
    requires Distinct(keys) && !Contested(keys, from) && i < |keys|
    requires var n := keys[i]; n in from && from[n] != "" && from[n] != n && from[n] !in keys
    ensures var n := keys[i];
      Answers(names - {from[n]} + {n}, keys, from, i + 1, e) <==> Answers(names, keys, from, i + 1, e)
  {
    hide FirstFault, Contested, Distinct;
    var after, next := names - {from[keys[i]]} + {keys[i]}, i + 1;
    forall j: nat
      ensures FirstFault(after, keys, from, next, j, e) <==> FirstFault(names, keys, from, next, j, e) {
      FirstFaultStays(names, keys, from, i, j, e);
    }
    if Answers(after, keys, from, next, e) {
      var j: nat :| FirstFault(after, keys, from, next, j, e);
      assert FirstFault(names, keys, from, next, j, e);
    }
    if Answers(names, keys, from, next, e) {
      var j: nat :| FirstFault(names, keys, from, next, j, e);
      assert FirstFault(after, keys, from, next, j, e);
    }
  }

  lemma FirstFaultStays(
    names: set<string>, keys: seq<string>, from: map<string, string>, i: nat, j: nat, e: RenameError)
    requires Distinct(keys) && !Contested(keys, from) && i < |keys|
    requires var n := keys[i]; n in from && from[n] != "" && from[n] != n && from[n] !in keys
    ensures var n := keys[i];
      FirstFault(names - {from[n]} + {n}, keys, from, i + 1, j, e) <==> FirstFault(names, keys, from, i + 1, j, e)
  {
    var n := keys[i];
    forall h, x | i < h < |keys|
      ensures Fault(names - {from[n]} + {n}, keys, from, keys[h], x) <==> Fault(names, keys, from, keys[h], x) {
      FaultsStay(names, keys, from, n, keys[h], x);
    }
    hide Fault, Contested;
  }

  lemma FaultAtOnce(names: set<string>, keys: seq<string>, from: map<string, string>, i: nat, e: RenameError)
    requires i < |keys| && Fault(names, keys, from, keys[i], e)
    ensures forall x :: Answers(names, keys, from, i, x) <==> x == e
  {
    assert FirstFault(names, keys, from, i, i, e);
    forall x | Answers(names, keys, from, i, x) ensures x == e {
      var j: nat :| FirstFault(names, keys, from, i, j, x);
      assert !Faultless(names, keys, from, keys[i]);
    }
  }

  // Each check is made when its entry's turn comes, on names that have changed by then; the verdict is that of the
  // names at the start.
  lemma {:induction false} LoopRefuses(
    names: set<string>, keys: seq<string>, from: map<string, string>, i: nat, e: RenameError)
    requires i <= |keys| && Distinct(keys) && !Contested(keys, from)
    ensures var r := RenameLoop(names, keys, from, i);
      r.Err? && r.error == e <==> Answers(names, keys, from, i, e)
    decreases |keys| - i
  {
    if i < |keys| {
      var n := keys[i];
      var o := From(from, n);
      if o == "" || o == n || (o !in keys && o !in names && n in names) {
        LoopRefuses(names, keys, from, i + 1, e);
        AnswersSkip(names, keys, from, i, e);
      } else if o !in keys && o in names && n !in names {
        LoopRefuses(names - {o} + {n}, keys, from, i + 1, e);
        AnswersSkip(names, keys, from, i, e);
        AnswersStay(names, keys, from, i, e);
      } else {
        var x := RenameLoop(names, keys, from, i).error;
        assert Fault(names, keys, from, n, x);
        FaultAtOnce(names, keys, from, i, x);
      }
    }
  }

  lemma {:induction false} GuardRefuses(
    names: set<string>, keys: seq<string>, from: map<string, string>, i: nat, e: RenameError)
    requires i <= |keys|
    ensures var r := GuardLoop(names, keys, from, i);
      r.Err? && r.error == e <==> Answers(names, keys, from, i, e)
    decreases |keys| - i
  {
    if i < |keys| {
      var n := keys[i];
      var o := From(from, n);
      if o == "" || o == n || (o !in keys && (o in names <==> n !in names)) {
        GuardRefuses(names, keys, from, i + 1, e);
        AnswersSkip(names, keys, from, i, e);
      } else {
        var x := GuardLoop(names, keys, from, i).error;
        assert Fault(names, keys, from, n, x);
        FaultAtOnce(names, keys, from, i, x);
      }
    }
  }

  // Table, column and index directives are refused with e, and foreign key directives by the guard with e, exactly
  // when a source is contested or else the first wrong entry is wrong that way.
  lemma RefusalIs(names: set<string>, keys: seq<string>, from: map<string, string>, e: RenameError)
    requires Distinct(keys)
    ensures var r := RenamePairs(names, keys, from); r.Err? && r.error == e <==> Refused(names, keys, from, e)
    ensures var g := Guard(names, keys, from); g.Err? && g.error == e <==> Refused(names, keys, from, e)
  {
    ContestedIs(keys, from);
    if !Contested(keys, from) {
      LoopRefuses(names, keys, from, 0, e);
      GuardRefuses(names, keys, from, 0, e);
    }
    hide FirstFault, Contested, SharesSource;
  }

  // The directives are accepted exactly when no two entries name one source and each source that differs from its
  // entry's name is undeclared, with exactly one of the two names in use. The renames are then those whose source is.
  lemma RenamesAre(names: set<string>, keys: seq<string>, from: map<string, string>)
    requires Distinct(keys)
    ensures RenamePairs(names, keys, from).Ok? <==>
      (forall k, h :: k in keys && h in keys && k != h && k in from && h in from && from[k] != "" ==>
        from[k] != from[h]) &&
      (forall k :: k in keys && k in from && from[k] != "" && from[k] != k ==>
        from[k] !in keys && (from[k] in names <==> k !in names))
    ensures Guard(names, keys, from).Ok? <==> RenamePairs(names, keys, from).Ok?
    ensures RenamePairs(names, keys, from).Ok? ==>
      forall q :: q in RenamePairs(names, keys, from).value <==>
        q.n in keys && q.n in from && from[q.n] == q.o && q.o != "" && q.o != q.n && q.o in names
  {
    CleanIs(names, keys, from);
    CleanMeans(names, keys, from);
    if RenamePairs(names, keys, from).Ok? { RenamedAre(names, keys, from); }
    hide *;
  }

  lemma CleanMeans(names: set<string>, keys: seq<string>, from: map<string, string>)
    ensures Clean(names, keys, from) <==>
      (forall k, h :: k in keys && h in keys && k != h && k in from && h in from && from[k] != "" ==>
        from[k] != from[h]) &&
      (forall k :: k in keys && k in from && from[k] != "" && from[k] != k ==>
        from[k] !in keys && (from[k] in names <==> k !in names))
  {
    forall k | k in keys
      ensures Faultless(names, keys, from, k) <==> (k in from && from[k] != "" && from[k] != k ==>
        from[k] !in keys && (from[k] in names <==> k !in names)) {
      FaultlessMeans(names, keys, from, k);
    }
    hide Faultless;
  }

  lemma FaultlessMeans(names: set<string>, keys: seq<string>, from: map<string, string>, k: string)
    ensures Faultless(names, keys, from, k) <==> (k in from && from[k] != "" && from[k] != k ==>
      from[k] !in keys && (from[k] in names <==> k !in names))
  {
    if !(k in from && from[k] != "" && from[k] != k ==> from[k] !in keys && (from[k] in names <==> k !in names)) {
      var e := if from[k] in keys then SourceDeclared else if from[k] in names then DestinationExists
        else SourceMissing;
      assert Fault(names, keys, from, k, e);
    }
  }

  // No entry is the first wrong one when none is wrong.
  lemma {:induction false} NoneFirst(names: set<string>, keys: seq<string>, from: map<string, string>, i: nat)
    requires i <= |keys|
    ensures (forall e :: !Answers(names, keys, from, i, e)) <==>
      forall j :: i <= j < |keys| ==> Faultless(names, keys, from, keys[j])
    decreases |keys| - i
  {
    if i < |keys| {
      if Faultless(names, keys, from, keys[i]) {
        var next := i + 1;
        NoneFirst(names, keys, from, next);
        forall e ensures Answers(names, keys, from, i, e) <==> Answers(names, keys, from, next, e) {
          AnswersSkip(names, keys, from, i, e);
        }
        hide Answers, Faultless;
        assert (forall e :: !Answers(names, keys, from, i, e)) <==> forall e :: !Answers(names, keys, from, next, e);
        assert (forall j :: i <= j < |keys| ==> Faultless(names, keys, from, keys[j])) <==>
          forall j :: next <= j < |keys| ==> Faultless(names, keys, from, keys[j]);
      } else {
        var e :| Fault(names, keys, from, keys[i], e);
        FaultAtOnce(names, keys, from, i, e);
        assert Answers(names, keys, from, i, e);
      }
    }
  }

  lemma NoneRefused(names: set<string>, keys: seq<string>, from: map<string, string>)
    ensures Clean(names, keys, from) <==> forall e :: !Refused(names, keys, from, e)
  {
    NoneFirst(names, keys, from, 0);
    hide Contested, Faultless, Answers;
    if Contested(keys, from) {
      assert Refused(names, keys, from, DuplicateSource);
    } else {
      assert forall e :: Refused(names, keys, from, e) <==> Answers(names, keys, from, 0, e);
    }
  }

  lemma CleanIs(names: set<string>, keys: seq<string>, from: map<string, string>)
    requires Distinct(keys)
    ensures RenamePairs(names, keys, from).Ok? <==> Clean(names, keys, from)
    ensures Guard(names, keys, from).Ok? <==> Clean(names, keys, from)
  {
    hide *;
    NoneRefused(names, keys, from);
    var r, g := RenamePairs(names, keys, from), Guard(names, keys, from);
    forall e ensures r.Err? && r.error == e <==> Refused(names, keys, from, e)
      ensures g.Err? && g.error == e <==> Refused(names, keys, from, e) {
      RefusalIs(names, keys, from, e);
    }
    if r.Err? { assert Refused(names, keys, from, r.error); }
    if g.Err? { assert Refused(names, keys, from, g.error); }
  }

  lemma RenamedAre(names: set<string>, keys: seq<string>, from: map<string, string>)
    requires Distinct(keys) && RenamePairs(names, keys, from).Ok?
    ensures forall q :: q in RenamePairs(names, keys, from).value <==>
      q.n in keys && q.n in from && from[q.n] == q.o && q.o != "" && q.o != q.n && q.o in names
  {
    LoopAccepts(names, keys, from, 0);
    var ps := RenamePairs(names, keys, from).value;
    hide RenameLoop, SharesSource, Distinct;
    forall q ensures q in ps <==>
      q.n in keys && q.n in from && from[q.n] == q.o && q.o != "" && q.o != q.n && q.o in names {
      if q in ps {
        var i :| 0 <= i < |ps| && ps[i] == q;
        assert Directed(keys, from, 0, q);
      } else if q.n in keys {
        var j :| 0 <= j < |keys| && keys[j] == q.n;
        assert From(from, keys[j]) == q.o && q.o != "" && q.o != q.n && q.o in names ==> Pair(q.o, q.n) in ps;
      }
    }
  }

  /* ----- the whole diff ----- */

  // The current table that desired table k goes on from.
  ghost predicate GoesOnFrom(cur: OMap<Schema>, des: OMap<Desired>, k: string, t: string) {
    k in des.vals && t in cur.vals &&
    if k in cur.vals then t == k else des.vals[k].from != "" && t == des.vals[k].from
  }

  // Columns are checked first, then indexes, then foreign keys.
  ghost predicate TableRefused(c: Schema, d: Desired, e: RenameError) {
    Refused(c.cols.vals.Keys, d.schema.cols.keys, d.colFrom, e) ||
    (Clean(c.cols.vals.Keys, d.schema.cols.keys, d.colFrom) &&
     (Refused(c.indexes.vals.Keys, d.schema.indexes.keys, d.idxFrom, e) ||
      (Clean(c.indexes.vals.Keys, d.schema.indexes.keys, d.idxFrom) &&
       Refused(c.fks.vals.Keys, d.schema.fks.keys, d.fkFrom, e))))
  }

  ghost predicate RefusedAt(cur: OMap<Schema>, des: OMap<Desired>, i: nat, e: RenameError) {
    i < |des.keys| &&
    exists t ::
      GoesOnFrom(cur, des, des.keys[i], t) && TableRefused(cur.vals[t], des.vals[des.keys[i]], e)
  }

  // The first table from position i on whose own directives are refused is refused with e.
  ghost predicate SomeRefused(cur: OMap<Schema>, des: OMap<Desired>, i: nat, e: RenameError) {
    exists j: nat :: i <= j && RefusedAt(cur, des, j, e) &&
      forall h: nat, x: RenameError :: i <= h < j ==> !RefusedAt(cur, des, h, x)
  }

  ghost predicate Listed(d: Desired) {
    Distinct(d.schema.cols.keys) && Distinct(d.schema.indexes.keys) && Distinct(d.schema.fks.keys)
  }

  lemma WithinRefuses(cur: map<string, Schema>, des: OMap<Desired>, k: string, e: RenameError)
    requires k in cur && k in des.vals && Listed(des.vals[k])
    ensures RenameWithin(cur, des, k) == Err(e) <==> TableRefused(cur[k], des.vals[k], e)
  {
    var c, d := cur[k], des.vals[k];
    RefusalIs(c.cols.vals.Keys, d.schema.cols.keys, d.colFrom, e);
    RefusalIs(c.indexes.vals.Keys, d.schema.indexes.keys, d.idxFrom, e);
    RefusalIs(c.fks.vals.Keys, d.schema.fks.keys, d.fkFrom, e);
    CleanIs(c.cols.vals.Keys, d.schema.cols.keys, d.colFrom);
    CleanIs(c.indexes.vals.Keys, d.schema.indexes.keys, d.idxFrom);
    hide RenamePairs, Guard, Refused, Clean, Distinct;
  }

  // The renamed tables are looked at under their new names, with columns, indexes and keys named as before.
  lemma RenamedTables(cur: OMap<Schema>, des: OMap<Desired>, k: string)
    requires des.Ok() && RenamePairs(cur.vals.Keys, des.keys, TableFrom(des)).Ok? && k in des.vals
    ensures var c := RenameTables(cur, RenamePairs(cur.vals.Keys, des.keys, TableFrom(des)).value).vals;
      (k in c <==> exists t :: GoesOnFrom(cur, des, k, t)) &&
      forall t :: GoesOnFrom(cur, des, k, t) ==>
        k in c && c[k].cols == cur.vals[t].cols && c[k].indexes == cur.vals[t].indexes &&
        c[k].fks.vals.Keys == cur.vals[t].fks.vals.Keys
  {
    var from := TableFrom(des);
    var ps := RenamePairs(cur.vals.Keys, des.keys, from).value;
    AcceptedArePairing(cur.vals.Keys, des.keys, from);
    RenamedAre(cur.vals.Keys, des.keys, from);
    RenameTablesAt(cur, ps);
    assert k in Elems(des.keys);
    forall t | t in cur.vals ensures RenAll(ps, t) == k <==> GoesOnFrom(cur, des, k, t) {
      SequentialIsSimultaneous(cur.vals.Keys, ps, t);
      RenamedIsFrom(cur, des, ps, k, t);
    }
    hide RenamePairs, RenameTables, RenAll, Pairing, TableFrom, GoesOnFrom;
  }

  lemma RenamedIsFrom(cur: OMap<Schema>, des: OMap<Desired>, ps: seq<Pair>, k: string, t: string)
    requires t in cur.vals && k in des.vals && k in des.keys && Pairing(cur.vals.Keys, ps)
    requires forall q :: q in ps ==> q.o !in des.keys
    requires forall q :: q in ps <==>
      q.n in des.keys && q.n in TableFrom(des) && TableFrom(des)[q.n] == q.o && q.o != "" && q.o != q.n &&
      q.o in cur.vals
    requires forall q :: q in ps && q.o == t ==> RenAll(ps, t) == q.n
    requires (forall q :: q in ps ==> q.o != t) ==> RenAll(ps, t) == t
    ensures RenAll(ps, t) == k <==> GoesOnFrom(cur, des, k, t)
  {
    if exists q :: q in ps && q.o == t {
      var q :| q in ps && q.o == t;
      assert TableFrom(des)[q.n] == t && q.n in des.vals;
      assert q.n !in cur.vals by { var i :| 0 <= i < |ps| && ps[i] == q; }
      assert GoesOnFrom(cur, des, k, t) ==> k != t && Pair(t, k) in ps;
    } else {
      assert GoesOnFrom(cur, des, k, t) && k != t ==> Pair(t, k) in ps;
    }
  }

  lemma {:induction false} ChangedRefuses(
    cur: OMap<Schema>, c: map<string, Schema>, des: OMap<Desired>, p: Policy, i: nat, e: RenameError)
    requires i <= |des.keys| && (forall k :: k in des.keys ==> k in des.vals && Listed(des.vals[k]))
    requires forall j, x :: 0 <= j < |des.keys| ==>
      (RefusedAt(cur, des, j, x) <==> des.keys[j] in c && TableRefused(c[des.keys[j]], des.vals[des.keys[j]], x))
    ensures ChangedTables(c, des, p, i) == Err(e) <==> SomeRefused(cur, des, i, e)
    decreases |des.keys| - i
  {
    if i < |des.keys| {
      ChangedRefuses(cur, c, des, p, i + 1, e);
      var k := des.keys[i];
      if k in c {
        forall x ensures RenameWithin(c, des, k) == Err(x) <==> TableRefused(c[k], des.vals[k], x) {
          WithinRefuses(c, des, k, x);
        }
      }
      SomeRefusedStep(cur, des, i, e);
      hide TableRefused, RefusedAt, SomeRefused, RenameWithin, Listed;
      if k in c && RenameWithin(c, des, k).Err? {
        assert RefusedAt(cur, des, i, RenameWithin(c, des, k).error);
      }
    } else {
      hide TableRefused;
    }
  }

  lemma SomeRefusedStep(cur: OMap<Schema>, des: OMap<Desired>, i: nat, e: RenameError)
    ensures SomeRefused(cur, des, i, e) <==>
      RefusedAt(cur, des, i, e) ||
      ((forall x :: !RefusedAt(cur, des, i, x)) && SomeRefused(cur, des, i + 1, e))
  {
    hide RefusedAt;
  }

  // The diff is refused with e exactly when the table directives are, or, these being clean, when the first table
  // with a refused directive of its own is. Nothing else makes it fail, and no drop policy matters.
  lemma DiffRefuses(cur: OMap<Schema>, des: OMap<Desired>, p: Policy, e: RenameError)
    requires des.Ok() && forall k :: k in des.vals ==> Listed(des.vals[k])
    ensures var from := map k | k in des.vals :: des.vals[k].from;
      DiffTables(cur, des, p) == Err(e) <==>
        Refused(cur.vals.Keys, des.keys, from, e) ||
        (Clean(cur.vals.Keys, des.keys, from) && SomeRefused(cur, des, 0, e))
  {
    var from := TableFrom(des);
    RefusalIs(cur.vals.Keys, des.keys, from, e);
    CleanIs(cur.vals.Keys, des.keys, from);
    if RenamePairs(cur.vals.Keys, des.keys, from).Ok? {
      var c := RenameTables(cur, RenamePairs(cur.vals.Keys, des.keys, from).value).vals;
      forall k | k in des.keys ensures k in des.vals { assert k in Elems(des.keys); }
      forall j, x | 0 <= j < |des.keys|
        ensures RefusedAt(cur, des, j, x) <==>
          des.keys[j] in c && TableRefused(c[des.keys[j]], des.vals[des.keys[j]], x) {
        RenamedTables(cur, des, des.keys[j]);
        hide Refused, Clean, RenamePairs, RenameTables, GoesOnFrom;
      }
      ChangedRefuses(cur, c, des, p, 0, e);
    }
    hide RenamePairs, RenameTables, Refused, Clean, SomeRefused, ChangedTables, Listed, OMap<Desired>.Ok;
  }

  // A misspelt source never turns into an added and a dropped column: the diff is refused.
  lemma MisspeltColumnIsRefused(cur: OMap<Schema>, des: OMap<Desired>, p: Policy, k: string, n: string)
    requires des.Ok() && (forall t :: t in des.vals ==> Listed(des.vals[t]))
    requires k in cur.vals && k in des.vals && n in des.vals[k].schema.cols.keys && n in des.vals[k].colFrom
    requires var o := des.vals[k].colFrom[n]; o != "" && o != n && o !in cur.vals[k].cols.vals
    requires n !in cur.vals[k].cols.vals
    ensures DiffTables(cur, des, p).Err?
  {
    var from := TableFrom(des);
    RenamesAre(cur.vals[k].cols.vals.Keys, des.vals[k].schema.cols.keys, des.vals[k].colFrom);
    if RenamePairs(cur.vals.Keys, des.keys, from).Ok? {
      RenamedTables(cur, des, k);
      var c := RenameTables(cur, RenamePairs(cur.vals.Keys, des.keys, from).value).vals;
      assert GoesOnFrom(cur, des, k, k);
      assert RenameWithin(c, des, k).Err?;
      assert k in Elems(des.keys);
      var j :| 0 <= j < |des.keys| && des.keys[j] == k;
      ErrsAt(c, des, p, 0, j);
    }
    hide RenamePairs, RenameTables, GoesOnFrom, ChangedTables;
  }

  lemma {:induction false} ErrsAt(c: map<string, Schema>, des: OMap<Desired>, p: Policy, i: nat, j: nat)
    requires i <= j < |des.keys| && des.keys[j] in c && des.keys[j] in des.vals &&
      RenameWithin(c, des, des.keys[j]).Err?
    ensures ChangedTables(c, des, p, i).Err?
    decreases j - i
  {
    hide RenameWithin, TablePlan;
    if i < j { ErrsAt(c, des, p, i + 1, j); }
  }
}
