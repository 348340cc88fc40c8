/** One ALTER TABLE with several specs: every name in it is read against the table as it was. */
module SchemaFold {
  import opened Common
  import opened SortedNames
  import opened SchemaModel
  import opened SchemaSpec
  import opened SchemaLocal
  import opened SchemaLegal
  import opened SchemaRename
  import opened SchemaRenamed
  import opened SchemaStages
  import opened SchemaOrder

  /* ----- what MySQL does with the specs of one ALTER ----- */

  // The object a spec names must be there before the ALTER starts.
  predicate Resolves(t: Table, s: Stmt) {
    match s
    case ModifyColumn(_, n, _) => n in t.attrs
    case DropColumn(_, n) => n in t.attrs
    case DropPrimaryKey(_) => t.pk != []
    case DropIndex(_, n) => n in t.indexes
    case RenameColumn(_, o, _) => o in t.attrs
    case RenameIndex(_, o, _) => o in t.indexes
    case AddColumn(_, _, _, _) => true
    case AddPrimaryKey(_, _) => true
    case _ => false
  }

  predicate AllResolve(t: Table, ss: seq<Stmt>) {
    forall i :: 0 <= i < |ss| ==> Resolves(t, ss[i])
  }

  function ColumnsOut(ss: seq<Stmt>): seq<string> {
    if ss == [] then [] else (if ss[0].DropColumn? then [ss[0].name] else []) + ColumnsOut(ss[1..])
  }

  function IndexesOut(ss: seq<Stmt>): seq<string> {
    if ss == [] then [] else (if ss[0].DropIndex? then [ss[0].name] else []) + IndexesOut(ss[1..])
  }

  function Changes(ss: seq<Stmt>): map<string, string> {
    if ss == [] then map[]
    else (if ss[0].ModifyColumn? then map[ss[0].name := ss[0].attr] else map[]) + Changes(ss[1..])
  }

  predicate KeyOut(ss: seq<Stmt>) {
    exists i :: 0 <= i < |ss| && ss[i].DropPrimaryKey?
  }

  function ColumnPairs(ss: seq<Stmt>): seq<Pair> {
    if ss == [] then []
    else (if ss[0].RenameColumn? then [Pair(ss[0].source, ss[0].target)] else []) + ColumnPairs(ss[1..])
  }

  function IndexPairs(ss: seq<Stmt>): seq<Pair> {
    if ss == [] then []
    else (if ss[0].RenameIndex? then [Pair(ss[0].source, ss[0].target)] else []) + IndexPairs(ss[1..])
  }

  // The old columns, key and indexes that stay, changed and renamed.
  function Base(t: Table, ss: seq<Stmt>): Table {
    var gone, ps := ColumnsOut(ss), ColumnPairs(ss);
    Table(
      RenAllNames(ps, WithoutAll(t.cols, gone)), RenAllKeys(ps, (t.attrs + Changes(ss)) - Elems(gone)),
      if KeyOut(ss) then [] else RenAllParts(ps, StripParts(Elems(gone), t.pk)),
      RenAllKeys(IndexPairs(ss), RenAllIndexes(ps, StripIndexes(Elems(gone), t.indexes - Elems(IndexesOut(ss))))),
        t.fks)
  }

  // New columns in their order, each placed in the list built so far.
  ghost function PlaceColumns(t: Table, ss: seq<Stmt>): Option<Table>
    decreases |ss|
  {
    if ss == [] then Some(t)
    else if !ss[0].AddColumn? then PlaceColumns(t, ss[1..])
    else match ExecLocal(t, ss[0])
      case None => None
      case Some(u) => PlaceColumns(u, ss[1..])
  }

  ghost function PlaceKeys(t: Table, ss: seq<Stmt>): Option<Table>
    decreases |ss|
  {
    if ss == [] then Some(t)
    else if !ss[0].AddPrimaryKey? then PlaceKeys(t, ss[1..])
    else match ExecLocal(t, ss[0])
      case None => None
      case Some(u) => PlaceKeys(u, ss[1..])
  }

  // None: MySQL refuses the statement.
  ghost function ExecFolded(t: Table, ss: seq<Stmt>): Option<Table> {
    if !AllResolve(t, ss) then None
    else match PlaceColumns(Base(t, ss), ss)
      case None => None
      case Some(u) => if u.cols == [] then None else PlaceKeys(u, ss)
  }

  /* ----- the specs of one table, as the diff emits them ----- */

  // The statements --bulk-alter folds: everything between a table's renames and its CREATE INDEXes.
  function AlterStmts(k: string, c: Schema, d: Schema, p: Policy): seq<Stmt> {
    ColumnAdds(k, c.cols.vals, d.cols, 0)
    + (if p.column then ColumnDrops(k, Gone<string, string>(c.cols.keys, d.cols.vals)) else [])
    + KeyDrop(k, c.pk, d.pk, p.constraint) + KeyAdd(k, c.pk, d.pk)
    + IndexDrops(k, c.indexes, d.indexes, p.index, GoneCols(c, d, p), 0)
  }

  // The table after them.
  function AlteredTable(t: Table, c: Schema, d: Schema, p: Policy): Table {
    FinalTable(t, c, d, p).(indexes :=
      StripIndexes(GoneCols(c, d, p), c.indexes.vals) -
        DropsUpTo(c.indexes, d.indexes.vals, p.index, GoneCols(c, d, p), |c.indexes.keys|))
  }

  // Which specs a list holds.
  datatype Kind = Columns | Drops | Keys | Indexes

  predicate OfKind(s: Stmt, kind: Kind) {
    match kind
    case Columns => s.AddColumn? || s.ModifyColumn?
    case Drops => s.DropColumn?
    case Keys => s.AddPrimaryKey? || s.DropPrimaryKey?
    case Indexes => s.DropIndex?
  }

  predicate AllOf(ss: seq<Stmt>, kind: Kind) {
    forall i :: 0 <= i < |ss| ==> OfKind(ss[i], kind)
  }

  lemma {:induction false} Silent(ss: seq<Stmt>, kind: Kind)
    requires AllOf(ss, kind)
    ensures ColumnPairs(ss) == [] && IndexPairs(ss) == []
    ensures !kind.Drops? ==> ColumnsOut(ss) == []
    ensures !kind.Indexes? ==> IndexesOut(ss) == []
    ensures !kind.Columns? ==> Changes(ss) == map[]
    ensures !kind.Keys? ==> !KeyOut(ss)
  {
    if ss != [] { Silent(ss[1..], kind); }
  }

  lemma {:induction false} SilentPlaces(t: Table, ss: seq<Stmt>, kind: Kind)
    requires AllOf(ss, kind)
    ensures !kind.Columns? ==> PlaceColumns(t, ss) == Some(t)
    ensures !kind.Keys? ==> PlaceKeys(t, ss) == Some(t)
  {
    hide ExecLocal;
    if ss != [] { SilentPlaces(t, ss[1..], kind); }
  }

  lemma ColumnsOutCons(s: Stmt, rest: seq<Stmt>)
    ensures ColumnsOut([s] + rest) == (if s.DropColumn? then [s.name] else []) + ColumnsOut(rest)
    ensures IndexesOut([s] + rest) == (if s.DropIndex? then [s.name] else []) + IndexesOut(rest)
    ensures ColumnPairs([s] + rest) == (if s.RenameColumn? then [Pair(s.source, s.target)] else []) + ColumnPairs(rest)
    ensures IndexPairs([s] + rest) == (if s.RenameIndex? then [Pair(s.source, s.target)] else []) + IndexPairs(rest)
  {
    assert ([s] + rest)[0] == s && ([s] + rest)[1..] == rest;
  }

  lemma NoneOut()
    ensures ColumnsOut([]) == [] && IndexesOut([]) == [] && ColumnPairs([]) == [] && IndexPairs([]) == []
  {
  }

  lemma SeqThree<T>(a: seq<T>, b: seq<T>, c: seq<T>)
    ensures (a + b) + c == a + (b + c) && [] + c == c
  {
  }

  lemma {:induction false} ListsAppend(a: seq<Stmt>, b: seq<Stmt>)
    ensures ColumnsOut(a + b) == ColumnsOut(a) + ColumnsOut(b) && IndexesOut(a + b) == IndexesOut(a) + IndexesOut(b)
    ensures ColumnPairs(a + b) == ColumnPairs(a) + ColumnPairs(b) && IndexPairs(a + b) == IndexPairs(a) + IndexPairs(b)
    decreases |a|
  {
    hide *;
    if a == [] {
      assert a + b == b;
      NoneOut();
      SeqThree([], [], ColumnsOut(b));
      SeqThree([], [], IndexesOut(b));
      SeqThree([], [], ColumnPairs(b));
      SeqThree([], [], IndexPairs(b));
    } else {
      var h, r := a[0], a[1..];
      assert a == [h] + r && a + b == [h] + (r + b);
      ColumnsOutCons(h, r);
      ColumnsOutCons(h, r + b);
      ListsAppend(r, b);
      SeqThree(if h.DropColumn? then [h.name] else [], ColumnsOut(r), ColumnsOut(b));
      SeqThree(if h.DropIndex? then [h.name] else [], IndexesOut(r), IndexesOut(b));
      SeqThree(if h.RenameColumn? then [Pair(h.source, h.target)] else [], ColumnPairs(r), ColumnPairs(b));
      SeqThree(if h.RenameIndex? then [Pair(h.source, h.target)] else [], IndexPairs(r), IndexPairs(b));
    }
  }

  lemma MergeThree(a: map<string, string>, b: map<string, string>, c: map<string, string>)
    ensures (a + b) + c == a + (b + c) && map[] + c == c
  {
  }

  lemma {:induction false} ChangesAppend(a: seq<Stmt>, b: seq<Stmt>)
    ensures Changes(a + b) == Changes(a) + Changes(b)
    decreases |a|
  {
    if a == [] {
      assert a + b == b;
      MergeThree(map[], map[], Changes(b));
    } else {
      var h, r := a[0], a[1..];
      assert a == [h] + r && a + b == [h] + (r + b);
      ConsOut(h, r);
      ConsOut(h, r + b);
      ChangesAppend(r, b);
      hide Changes;
      MergeThree(if h.ModifyColumn? then map[h.name := h.attr] else map[], Changes(r), Changes(b));
    }
  }

  lemma OutAppend(a: seq<Stmt>, b: seq<Stmt>)
    ensures ColumnsOut(a + b) == ColumnsOut(a) + ColumnsOut(b) && IndexesOut(a + b) == IndexesOut(a) + IndexesOut(b)
    ensures Changes(a + b) == Changes(a) + Changes(b) && (KeyOut(a + b) <==> KeyOut(a) || KeyOut(b))
    ensures ColumnPairs(a + b) == ColumnPairs(a) + ColumnPairs(b) && IndexPairs(a + b) == IndexPairs(a) + IndexPairs(b)
  {
    hide *;
    ListsAppend(a, b);
    ChangesAppend(a, b);
    KeyOutAppend(a, b);
  }

  lemma KeyOutAppend(a: seq<Stmt>, b: seq<Stmt>)
    ensures KeyOut(a + b) <==> KeyOut(a) || KeyOut(b)
  {
    if i :| 0 <= i < |a| && a[i].DropPrimaryKey? { assert (a + b)[i] == a[i]; }
    if i :| 0 <= i < |b| && b[i].DropPrimaryKey? { assert (a + b)[|a| + i] == b[i]; }
  }

  lemma {:induction false} PlaceAppend(t: Table, a: seq<Stmt>, b: seq<Stmt>)
    ensures PlaceColumns(t, a + b) == match PlaceColumns(t, a) case None => None case Some(u) => PlaceColumns(u, b)
    ensures PlaceKeys(t, a + b) == match PlaceKeys(t, a) case None => None case Some(u) => PlaceKeys(u, b)
    decreases |a|
  {
    hide ExecLocal;
    if a == [] {
      assert a + b == b;
    } else {
      assert (a + b)[0] == a[0] && (a + b)[1..] == a[1..] + b;
      PlaceAppend(t, a[1..], b);
      var r := ExecLocal(t, a[0]);
      if r.Some? { PlaceAppend(r.value, a[1..], b); }
    }
  }

  lemma ResolveAppend(t: Table, a: seq<Stmt>, b: seq<Stmt>)
    ensures AllResolve(t, a + b) <==> AllResolve(t, a) && AllResolve(t, b)
  {
    hide Resolves;
    if AllResolve(t, a + b) {
      forall i | 0 <= i < |a| ensures Resolves(t, a[i]) { assert (a + b)[i] == a[i]; }
      forall i | 0 <= i < |b| ensures Resolves(t, b[i]) { assert (a + b)[|a| + i] == b[i]; }
    }
  }

  /* ----- columns ----- */

  // What the changes and what the additions set.
  function ChangesFrom(cur: map<string, string>, des: OMap<string>, i: nat): map<string, string>
    requires i <= |des.keys|
  {
    map n | n in Elems(des.keys[i..]) && n in des.vals && n in cur && cur[n] != des.vals[n] :: des.vals[n]
  }

  lemma ColumnAddsUnfold(k: string, cur: map<string, string>, des: OMap<string>, i: nat)
    requires des.Ok() && i < |des.keys|
    ensures var n, rest := des.keys[i], ColumnAdds(k, cur, des, i + 1);
      n in des.vals &&
      ColumnAdds(k, cur, des, i) ==
        if n !in cur then [AddColumn(k, n, des.vals[n], if i == 0 then "" else des.keys[i - 1])] + rest
        else if cur[n] != des.vals[n] then [ModifyColumn(k, n, des.vals[n])] + rest
        else rest
  {
    assert des.keys[i] in Elems(des.keys);
  }

  lemma ColumnAddsEnd(t: Table, k: string, cur: map<string, string>, des: OMap<string>)
    ensures ColumnAdds(k, cur, des, |des.keys|) == [] && ChangesFrom(cur, des, |des.keys|) == map[]
    ensures AllOf([], Columns) && AllResolve(t, []) && Changes([]) == map[]
  {
    assert des.keys[|des.keys|..] == [];
  }

  lemma ConsIs(t: Table, s: Stmt, rest: seq<Stmt>, kind: Kind)
    requires OfKind(s, kind) && Resolves(t, s) && AllOf(rest, kind) && AllResolve(t, rest)
    ensures AllOf([s] + rest, kind) && AllResolve(t, [s] + rest)
  {
    hide OfKind, Resolves;
  }

  lemma {:induction false} AddsAre(t: Table, k: string, cur: map<string, string>, des: OMap<string>, i: nat)
    requires des.Ok() && i <= |des.keys| && cur.Keys <= t.attrs.Keys
    ensures AllOf(ColumnAdds(k, cur, des, i), Columns) && AllResolve(t, ColumnAdds(k, cur, des, i))
    ensures Changes(ColumnAdds(k, cur, des, i)) == ChangesFrom(cur, des, i)
    decreases |des.keys| - i
  {
    hide *;
    if i == |des.keys| {
      ColumnAddsEnd(t, k, cur, des);
    } else {
      ColumnAddsUnfold(k, cur, des, i);
      AddsAre(t, k, cur, des, i + 1);
      ChangesStep(cur, des, i);
      var n, rest := des.keys[i], ColumnAdds(k, cur, des, i + 1);
      var s := if n !in cur then AddColumn(k, n, des.vals[n], if i == 0 then "" else des.keys[i - 1])
        else ModifyColumn(k, n, des.vals[n]);
      if n !in cur || cur[n] != des.vals[n] {
        ConsOut(s, rest);
        KindOf(t, s);
        assert n in cur ==> n in t.attrs.Keys;
        ConsIs(t, s, rest, Columns);
        assert map[] + Changes(rest) == Changes(rest);
      }
    }
  }

  lemma KindOf(t: Table, s: Stmt)
    ensures s.AddColumn? || (s.ModifyColumn? && s.name in t.attrs) ==> OfKind(s, Columns) && Resolves(t, s)
  {
  }

  lemma ConsOut(s: Stmt, rest: seq<Stmt>)
    ensures Changes([s] + rest) == (if s.ModifyColumn? then map[s.name := s.attr] else map[]) + Changes(rest)
  {
    assert ([s] + rest)[0] == s && ([s] + rest)[1..] == rest;
  }

  lemma ChangesAt(cur: map<string, string>, des: OMap<string>, i: nat, x: string)
    requires i <= |des.keys|
    ensures x in ChangesFrom(cur, des, i) <==>
      x in Elems(des.keys[i..]) && x in des.vals && x in cur && cur[x] != des.vals[x]
    ensures x in ChangesFrom(cur, des, i) ==> ChangesFrom(cur, des, i)[x] == des.vals[x]
  {
  }

  lemma ChangesStep(cur: map<string, string>, des: OMap<string>, i: nat)
    requires des.Ok() && i < |des.keys|
    ensures var n, a, b := des.keys[i], ChangesFrom(cur, des, i), ChangesFrom(cur, des, i + 1);
      n in des.vals && n !in b &&
      a == if n in cur && cur[n] != des.vals[n] then map[n := des.vals[n]] + b else b
  {
    SuffixStep(des.keys, i);
    assert des.keys[i] in Elems(des.keys);
    hide Distinct, Elems, ChangesFrom;
    var n, a, b := des.keys[i], ChangesFrom(cur, des, i), ChangesFrom(cur, des, i + 1);
    ChangesAt(cur, des, i + 1, n);
    var r := if n in cur && cur[n] != des.vals[n] then map[n := des.vals[n]] + b else b;
    forall x ensures (x in a <==> x in r) && (x in r ==> a[x] == r[x]) {
      ChangesAt(cur, des, i, x);
      ChangesAt(cur, des, i + 1, x);
    }
    MapsAgree(a, r);
  }

  lemma {:induction false} DropsAre(t: Table, k: string, gone: seq<string>)
    requires Elems(gone) <= t.attrs.Keys
    ensures AllOf(ColumnDrops(k, gone), Drops) && AllResolve(t, ColumnDrops(k, gone)) &&
      ColumnsOut(ColumnDrops(k, gone)) == gone
    decreases |gone|
  {
    forall i | 0 <= i < |gone| ensures gone[i] in t.attrs { assert gone[i] in Elems(gone); }
    OutOfDrops(k, gone);
  }

  lemma {:induction false} OutOfDrops(k: string, gone: seq<string>)
    ensures ColumnsOut(ColumnDrops(k, gone)) == gone
    decreases |gone|
  {
    if gone != [] {
      OutOfDrops(k, gone[1..]);
      assert gone == [gone[0]] + gone[1..];
      ColumnDropsCons(k, gone[0], gone[1..]);
      var ss := ColumnDrops(k, gone);
      assert ss[0] == DropColumn(k, gone[0]) && ss[1..] == ColumnDrops(k, gone[1..]);
    }
  }

  // Taking a column out and placing another one after a third do not disturb each other.
  lemma {:induction false} InsertWithout(s: seq<string>, n: string, after: string, x: string)
    requires x != n && x != after && (after == "" || after in s)
    ensures Without(InsertAfter(s, n, after), x) == InsertAfter(Without(s, x), n, after)
  {
    if after == "" {
      WithoutHead(n, s, x);
    } else {
      var h, r := s[0], s[1..];
      assert s == [h] + r;
      hide InsertAfter, Without;
      InsertHead(h, r, n, after);
      WithoutHead(h, r, x);
      NothingBefore(Without(r, x));
      if h == after {
        WithoutHead(h, [n] + r, x);
        WithoutHead(n, r, x);
        InsertHead(h, Without(r, x), n, after);
      } else {
        InsertWithout(r, n, after, x);
        WithoutHead(h, InsertAfter(r, n, after), x);
        NothingBefore(Without(InsertAfter(r, n, after), x));
        InsertHead(h, Without(r, x), n, after);
      }
    }
  }

  lemma WithoutHead(h: string, r: seq<string>, x: string)
    ensures Without([h] + r, x) == (if h == x then [] else [h]) + Without(r, x)
  {
    assert ([h] + r)[0] == h && ([h] + r)[1..] == r;
  }

  lemma {:induction false} InsertWithoutAll(s: seq<string>, n: string, after: string, gone: seq<string>)
    requires n !in gone && after !in gone && (after == "" || after in s)
    ensures WithoutAll(InsertAfter(s, n, after), gone) == InsertAfter(WithoutAll(s, gone), n, after)
    ensures after == "" || after in WithoutAll(s, gone)
    decreases |gone|
  {
    if gone != [] {
      var x := gone[0];
      assert gone == [x] + gone[1..];
      hide InsertAfter, Without;
      InsertWithout(s, n, after, x);
      WithoutLeaves(s, x, after);
      InsertWithoutAll(Without(s, x), n, after, gone[1..]);
    }
  }

  // The table once the old columns are settled: the desired columns of the first i positions carry their definitions.
  ghost predicate Settling(t: Table, cur: map<string, string>, des: OMap<string>, gone: seq<string>, i: nat)
    requires i <= |des.keys|
  {
    ColsOk(t) && t.attrs == ((cur + ChangesFrom(cur, des, 0)) - Elems(gone)) + NewFirst(cur, des, i)
  }

  // The new columns among the first i desired ones.
  function NewFirst(cur: map<string, string>, des: OMap<string>, i: nat): map<string, string>
    requires i <= |des.keys|
  {
    map n | n in Elems(des.keys[..i]) && n in des.vals && n !in cur :: des.vals[n]
  }

  lemma NewFirstAt(cur: map<string, string>, des: OMap<string>, i: nat, x: string)
    requires i <= |des.keys|
    ensures x in NewFirst(cur, des, i) <==> x in Elems(des.keys[..i]) && x in des.vals && x !in cur
    ensures x in NewFirst(cur, des, i) ==> NewFirst(cur, des, i)[x] == des.vals[x]
  {
  }

  lemma NewFirstStep(cur: map<string, string>, des: OMap<string>, i: nat)
    requires des.Ok() && i < |des.keys|
    ensures var n, a, b := des.keys[i], NewFirst(cur, des, i), NewFirst(cur, des, i + 1);
      n in des.vals && n !in a && b == if n in cur then a else a[n := des.vals[n]]
  {
    PrefixStep(des.keys, i);
    assert des.keys[i] in Elems(des.keys);
    hide Distinct, Elems, NewFirst;
    var n, a, b := des.keys[i], NewFirst(cur, des, i), NewFirst(cur, des, i + 1);
    NewFirstAt(cur, des, i, n);
    var r := if n in cur then a else a[n := des.vals[n]];
    forall x ensures (x in b <==> x in r) && (x in r ==> b[x] == r[x]) {
      NewFirstAt(cur, des, i, x);
      NewFirstAt(cur, des, i + 1, x);
    }
    MapsAgree(b, r);
  }

  // What is there while the first i desired columns are in place, and that the next one's anchor is.
  lemma SettlingHas(t: Table, cur: map<string, string>, des: OMap<string>, gone: seq<string>, i: nat)
    requires des.Ok() && 0 < i <= |des.keys| && Settling(t, cur, des, gone, i)
    requires forall x :: x in gone ==> x !in des.vals
    ensures des.keys[i - 1] in t.attrs && des.keys[i - 1] in t.cols && des.keys[i - 1] in des.vals
  {
    var n := des.keys[i - 1];
    assert n in Elems(des.keys) && des.keys[..i][i - 1] == n;
    assert n in Elems(des.keys[..i]);
    assert n in t.attrs;
    assert n in Elems(t.cols);
  }

  lemma OnePlaced(k: string, t: Table, cur: map<string, string>, des: OMap<string>, gone: seq<string>, i: nat)
    requires des.Ok() && "" !in des.vals && i < |des.keys| && des.keys[i] in des.vals && des.keys[i] !in cur
    requires Settling(t, cur, des, gone, i) && forall x :: x in gone ==> x !in des.vals
    ensures var n, after := des.keys[i], if i == 0 then "" else des.keys[i - 1];
      var u := t.(cols := InsertAfter(t.cols, n, after), attrs := t.attrs[n := des.vals[n]]);
      ExecLocal(t, AddColumn(k, n, des.vals[n], after)) == Some(u) && Settling(u, cur, des, gone, i + 1)
  {
    var n, after := des.keys[i], if i == 0 then "" else des.keys[i - 1];
    if i > 0 { SettlingHas(t, cur, des, gone, i); }
    NewFirstStep(cur, des, i);
    NotThere(t, cur, des, gone, i);
    hide NewFirst, ChangesFrom, Distinct, Elems, InsertAfter, ColsOk, ExecLocal;
    AddNew(k, t, n, des.vals[n], after);
    MergePut((cur + ChangesFrom(cur, des, 0)) - Elems(gone), NewFirst(cur, des, i), n, des.vals[n]);
  }

  lemma NotThere(t: Table, cur: map<string, string>, des: OMap<string>, gone: seq<string>, i: nat)
    requires des.Ok() && i < |des.keys| && Settling(t, cur, des, gone, i) && des.keys[i] !in cur
    ensures des.keys[i] !in t.attrs
  {
    PrefixStep(des.keys, i);
    hide Distinct, ColsOk;
  }

  lemma AnchorPlaced(cols: seq<string>, cur: map<string, string>, des: OMap<string>, i: nat)
    requires 0 < i <= |des.keys| && Holds(cols, cur, des, i)
    ensures des.keys[i - 1] in cols
  {
    assert des.keys[..i][i - 1] == des.keys[i - 1];
  }

  lemma AddedColsUnfold(cols: seq<string>, cur: map<string, string>, des: OMap<string>, i: nat)
    requires i < |des.keys| && des.keys[i] in des.vals
    ensures var n, after := des.keys[i], if i == 0 then "" else des.keys[i - 1];
      AddedCols(cols, cur, des, i) == AddedCols(if n in cur then cols else InsertAfter(cols, n, after), cur, des, i + 1)
  {
    hide InsertAfter;
  }

  // The additions give the same columns whether the drops come before or after them.
  ghost predicate Placed(k: string, t: Table, cols: seq<string>, cur: map<string, string>, des: OMap<string>,
    gone: seq<string>, i: nat)
    requires i <= |des.keys|
  {
    var u := PlaceColumns(t, ColumnAdds(k, cur, des, i));
    u.Some? && u.value.cols == WithoutAll(AddedCols(cols, cur, des, i), gone) &&
    Settling(u.value, cur, des, gone, |des.keys|) && u.value == t.(cols := u.value.cols, attrs := u.value.attrs)
  }

  lemma PlacedEnd(k: string, t: Table, cols: seq<string>, cur: map<string, string>, des: OMap<string>,
    gone: seq<string>)
    requires Settling(t, cur, des, gone, |des.keys|) && t.cols == WithoutAll(cols, gone)
    ensures Placed(k, t, cols, cur, des, gone, |des.keys|)
  {
    hide Settling, WithoutAll;
  }

  lemma PlacedNew(k: string, t: Table, u: Table, cols: seq<string>, cur: map<string, string>, des: OMap<string>,
    gone: seq<string>, i: nat)
    requires des.Ok() && i < |des.keys| && des.keys[i] in des.vals && des.keys[i] !in cur
    requires var n, after := des.keys[i], if i == 0 then "" else des.keys[i - 1];
      ExecLocal(t, AddColumn(k, n, des.vals[n], after)) == Some(u) && u == t.(cols := u.cols, attrs := u.attrs) &&
      Placed(k, u, InsertAfter(cols, n, after), cur, des, gone, i + 1)
    ensures Placed(k, t, cols, cur, des, gone, i)
  {
    var n, after := des.keys[i], if i == 0 then "" else des.keys[i - 1];
    ColumnAddsUnfold(k, cur, des, i);
    ConsPlaces(t, AddColumn(k, n, des.vals[n], after), ColumnAdds(k, cur, des, i + 1));
    AddedColsUnfold(cols, cur, des, i);
    hide ColumnAdds, ExecLocal, AddedCols, InsertAfter, Settling, WithoutAll, PlaceColumns, OMap<string>.Ok;
  }

  lemma PlacedOld(k: string, t: Table, cols: seq<string>, cur: map<string, string>, des: OMap<string>,
    gone: seq<string>, i: nat)
    requires des.Ok() && i < |des.keys| && des.keys[i] in des.vals && des.keys[i] in cur &&
      Placed(k, t, cols, cur, des, gone, i + 1)
    ensures Placed(k, t, cols, cur, des, gone, i)
  {
    var n := des.keys[i];
    ColumnAddsUnfold(k, cur, des, i);
    ConsPlaces(t, ModifyColumn(k, n, des.vals[n]), ColumnAdds(k, cur, des, i + 1));
    AddedColsUnfold(cols, cur, des, i);
    hide ColumnAdds, ExecLocal, AddedCols, InsertAfter, Settling, WithoutAll, PlaceColumns, OMap<string>.Ok;
  }

  lemma {:induction false} AddsPlaced(k: string, t: Table, cols: seq<string>, cur: map<string, string>,
    des: OMap<string>, gone: seq<string>, i: nat)
    requires des.Ok() && "" !in des.vals && "" !in gone && i <= |des.keys| && Settling(t, cur, des, gone, i)
    requires forall x :: x in gone ==> x !in des.vals
    requires t.cols == WithoutAll(cols, gone) && Holds(cols, cur, des, i)
    ensures Placed(k, t, cols, cur, des, gone, i)
    decreases |des.keys| - i
  {
    hide *;
    if i == |des.keys| {
      PlacedEnd(k, t, cols, cur, des, gone);
    } else {
      var n, after := des.keys[i], if i == 0 then "" else des.keys[i - 1];
      NewFirstStep(cur, des, i);
      HoldsStep(cols, cur, des, i);
      if i > 0 {
        SettlingHas(t, cur, des, gone, i);
        AnchorPlaced(cols, cur, des, i);
      }
      if n !in cur {
        OnePlaced(k, t, cur, des, gone, i);
        var u := t.(cols := InsertAfter(t.cols, n, after), attrs := t.attrs[n := des.vals[n]]);
        InsertWithoutAll(cols, n, after, gone);
        AddsPlaced(k, u, InsertAfter(cols, n, after), cur, des, gone, i + 1);
        PlacedNew(k, t, u, cols, cur, des, gone, i);
      } else {
        SettlingSkip(t, cur, des, gone, i);
        AddsPlaced(k, t, cols, cur, des, gone, i + 1);
        PlacedOld(k, t, cols, cur, des, gone, i);
      }
    }
  }

  lemma SettlingSkip(t: Table, cur: map<string, string>, des: OMap<string>, gone: seq<string>, i: nat)
    requires des.Ok() && i < |des.keys| && des.keys[i] in cur && Settling(t, cur, des, gone, i)
    ensures Settling(t, cur, des, gone, i + 1)
  {
    NewFirstStep(cur, des, i);
    hide NewFirst, ColsOk;
  }

  lemma ConsPlaces(t: Table, s: Stmt, rest: seq<Stmt>)
    ensures PlaceColumns(t, [s] + rest) ==
      if !s.AddColumn? then PlaceColumns(t, rest)
      else match ExecLocal(t, s) case None => None case Some(u) => PlaceColumns(u, rest)
  {
    hide ExecLocal;
    assert ([s] + rest)[0] == s && ([s] + rest)[1..] == rest;
  }

  /* ----- indexes and the key ----- */

  function DropsFrom(cur: OMap<Index>, des: map<string, Index>, allowed: bool, gone: set<string>, i: nat): set<string>
    requires i <= |cur.keys|
  {
    set n | n in Elems(cur.keys[i..]) && DropNow(cur.vals, des, allowed, gone, n)
  }

  lemma DropsFromStep(cur: OMap<Index>, des: map<string, Index>, allowed: bool, gone: set<string>, i: nat)
    requires cur.Ok() && i < |cur.keys|
    ensures var n, rest := cur.keys[i], DropsFrom(cur, des, allowed, gone, i + 1);
      n in cur.vals && DropsFrom(cur, des, allowed, gone, i) ==
        if DropNow(cur.vals, des, allowed, gone, n) then {n} + rest else rest
  {
    SuffixStep(cur.keys, i);
    assert cur.keys[i] in Elems(cur.keys);
    hide Distinct, Elems, DropNow;
  }

  lemma DropsFromAll(cur: OMap<Index>, des: map<string, Index>, allowed: bool, gone: set<string>)
    ensures DropsFrom(cur, des, allowed, gone, 0) == DropsUpTo(cur, des, allowed, gone, |cur.keys|)
    ensures DropsFrom(cur, des, allowed, gone, |cur.keys|) == {}
  {
    assert cur.keys[0..] == cur.keys && cur.keys[..|cur.keys|] == cur.keys;
    hide DropNow;
  }

  lemma IndexDropsUnfold(k: string, cur: OMap<Index>, des: OMap<Index>, allowed: bool, gone: set<string>, i: nat)
    requires cur.Ok() && i < |cur.keys|
    ensures var n, rest := cur.keys[i], IndexDrops(k, cur, des, allowed, gone, i + 1);
      IndexDrops(k, cur, des, allowed, gone, i) ==
        if DropNow(cur.vals, des.vals, allowed, gone, n) then [DropIndex(k, n)] + rest else rest
  {
    assert cur.keys[i] in Elems(cur.keys);
    hide AllPartsDropped, SameIndex;
  }

  lemma IndexDropsEnd(t: Table, k: string, cur: OMap<Index>, des: OMap<Index>, allowed: bool, gone: set<string>)
    ensures IndexDrops(k, cur, des, allowed, gone, |cur.keys|) == [] && IndexesOut([]) == [] && Elems<string>([]) == {}
    ensures AllOf([], Indexes) && AllResolve(t, [])
  {
  }

  lemma ConsIndexOut(s: Stmt, rest: seq<Stmt>)
    requires s.DropIndex?
    ensures IndexesOut([s] + rest) == [s.name] + IndexesOut(rest) && OfKind(s, Indexes)
    ensures Elems([s.name] + IndexesOut(rest)) == {s.name} + Elems(IndexesOut(rest))
  {
    assert ([s] + rest)[0] == s && ([s] + rest)[1..] == rest;
    ElemsCons(s.name, IndexesOut(rest));
  }

  lemma DropNowIsCurrent(t: Table, k: string, cur: map<string, Index>, des: map<string, Index>, allowed: bool,
    gone: set<string>, n: string)
    requires t.indexes == cur
    ensures DropNow(cur, des, allowed, gone, n) ==> Resolves(t, DropIndex(k, n))
  {
  }

  lemma {:induction false} IndexDropsAre(t: Table, k: string, cur: OMap<Index>, des: OMap<Index>, allowed: bool,
    gone: set<string>, i: nat)
    requires cur.Ok() && i <= |cur.keys| && t.indexes == cur.vals
    ensures var ss := IndexDrops(k, cur, des, allowed, gone, i);
      AllOf(ss, Indexes) && AllResolve(t, ss) && Elems(IndexesOut(ss)) == DropsFrom(cur, des.vals, allowed, gone, i)
    decreases |cur.keys| - i
  {
    hide *;
    if i == |cur.keys| {
      IndexDropsEnd(t, k, cur, des, allowed, gone);
      DropsFromAll(cur, des.vals, allowed, gone);
    } else {
      var n, rest := cur.keys[i], IndexDrops(k, cur, des, allowed, gone, i + 1);
      IndexDropsAre(t, k, cur, des, allowed, gone, i + 1);
      IndexDropsUnfold(k, cur, des, allowed, gone, i);
      DropsFromStep(cur, des.vals, allowed, gone, i);
      if DropNow(cur.vals, des.vals, allowed, gone, n) {
        DropNowIsCurrent(t, k, cur.vals, des.vals, allowed, gone, n);
        ConsIndexOut(DropIndex(k, n), rest);
        ConsIs(t, DropIndex(k, n), rest, Indexes);
      }
    }
  }

  lemma StripThenDrop(gone: set<string>, m: map<string, Index>, out: set<string>)
    ensures StripIndexes(gone, m - out) == StripIndexes(gone, m) - out
  {
    hide StripParts;
  }

  lemma KeysAre(t: Table, k: string, cur: seq<Part>, des: seq<Part>, allowed: bool)
    requires t.pk == cur
    ensures var ss := KeyDrop(k, cur, des, allowed) + KeyAdd(k, cur, des);
      AllOf(ss, Keys) && AllResolve(t, ss) && (KeyOut(ss) <==> cur != [] && cur != des && (des != [] || allowed))
  {
    var a := KeyDrop(k, cur, des, allowed);
    if a != [] { assert (a + KeyAdd(k, cur, des))[0].DropPrimaryKey?; }
  }

  // The key a folded statement leaves: none to be trapped, because DROP PRIMARY KEY reads the key as it was.
  lemma FoldedKey(t: Table, k: string, c: Schema, d: Schema, p: Policy)
    requires SchemaOk(c) && SchemaOk(d) && PartsIn(d.pk, t.attrs)
    requires var out := c.pk != [] && c.pk != d.pk && (d.pk != [] || p.constraint);
      t.pk == if out then [] else StripParts(GoneCols(c, d, p), c.pk)
    ensures PlaceKeys(t, KeyDrop(k, c.pk, d.pk, p.constraint) + KeyAdd(k, c.pk, d.pk)) ==
      Some(t.(pk := FinalKey(c, d, p)))
  {
    var gone := GoneCols(c, d, p);
    GoneColsAre(c, d, p);
    if c.pk == d.pk { StripsNothing(gone, c.pk); } else if c.pk == [] { StripNothing(gone); }
    hide StripParts, GoneCols, SchemaOk, PartsIn;
    var a, b := KeyDrop(k, c.pk, d.pk, p.constraint), KeyAdd(k, c.pk, d.pk);
    PlaceAppend(t, a, b);
    if a != [] { assert a == [DropPrimaryKey(k)] && a[1..] == []; }
    if b != [] { assert b == [AddPrimaryKey(k, d.pk)] && b[1..] == []; }
    assert t.(pk := t.pk) == t;
  }

  /* ----- folding the specs of one table ----- */

  // The dropped columns, in the order of their statements.
  function DroppedList(c: Schema, d: Schema, p: Policy): seq<string> {
    if p.column then Gone<string, string>(c.cols.keys, d.cols.vals) else []
  }

  lemma DroppedListIs(c: Schema, d: Schema, p: Policy)
    requires SchemaOk(c) && SchemaOk(d)
    ensures Elems(DroppedList(c, d, p)) == GoneCols(c, d, p) && Distinct(DroppedList(c, d, p))
    ensures Elems(DroppedList(c, d, p)) <= c.cols.vals.Keys && "" !in DroppedList(c, d, p)
    ensures forall x :: x in DroppedList(c, d, p) ==> x !in d.cols.vals
  {
    GoneIs(c.cols.keys, d.cols.vals);
    assert forall x :: x in c.cols.keys <==> x in Elems(c.cols.keys);
    assert Elems<string>([]) == {};
    hide Gone, PartsIn;
  }

  lemma AlterStmtsAre(k: string, c: Schema, d: Schema, p: Policy)
    ensures AlterStmts(k, c, d, p) ==
      (ColumnAdds(k, c.cols.vals, d.cols, 0) + ColumnDrops(k, DroppedList(c, d, p)))
      + ((KeyDrop(k, c.pk, d.pk, p.constraint) + KeyAdd(k, c.pk, d.pk)) +
        IndexDrops(k, c.indexes, d.indexes, p.index, GoneCols(c, d, p), 0))
  {
    hide Gone, ColumnAdds, KeyDrop, KeyAdd, IndexDrops, GoneCols;
  }

  // What the specs say, read off one list after the other.
  ghost predicate SpecsSay(t: Table, ss: seq<Stmt>, gone: seq<string>, changes: map<string, string>, key: bool,
    out: set<string>) {
    AllResolve(t, ss) && ColumnsOut(ss) == gone && Changes(ss) == changes && (KeyOut(ss) <==> key) &&
      Elems(IndexesOut(ss)) == out &&
    ColumnPairs(ss) == [] && IndexPairs(ss) == []
  }

  lemma FourLists(t: Table, a: seq<Stmt>, b: seq<Stmt>, c: seq<Stmt>, d: seq<Stmt>, gone: seq<string>,
    changes: map<string, string>, key: bool, out: set<string>)
    requires AllOf(a, Columns) && AllOf(b, Drops) && AllOf(c, Keys) && AllOf(d, Indexes)
    requires AllResolve(t, a) && AllResolve(t, b) && AllResolve(t, c) && AllResolve(t, d)
    requires ColumnsOut(b) == gone && Changes(a) == changes && (KeyOut(c) <==> key) && Elems(IndexesOut(d)) == out
    ensures SpecsSay(t, (a + b) + (c + d), gone, changes, key, out)
  {
    hide *;
    Silent(a, Columns);
    Silent(b, Drops);
    Silent(c, Keys);
    Silent(d, Indexes);
    OutAppend(a, b);
    OutAppend(c, d);
    OutAppend(a + b, c + d);
    ResolveAppend(t, a, b);
    ResolveAppend(t, c, d);
    ResolveAppend(t, a + b, c + d);
    NothingElse(gone, IndexesOut(d), changes);
    SpecsSayIs(t, (a + b) + (c + d), gone, changes, key, out);
  }

  lemma NothingElse(gone: seq<string>, out: seq<string>, changes: map<string, string>)
    ensures ([] + gone) + ([] + []) == gone && ([] + []) + ([] + out) == out &&
      (changes + map[]) + (map[] + map[]) == changes
    ensures var no: seq<Pair> := []; (no + no) + (no + no) == no
  {
  }

  lemma SpecsSayIs(t: Table, ss: seq<Stmt>, gone: seq<string>, changes: map<string, string>, key: bool,
    out: set<string>)
    requires AllResolve(t, ss) && ColumnsOut(ss) == gone && Changes(ss) == changes && (KeyOut(ss) <==> key) &&
      Elems(IndexesOut(ss)) == out
    requires ColumnPairs(ss) == [] && IndexPairs(ss) == []
    ensures SpecsSay(t, ss, gone, changes, key, out)
  {
    hide AllResolve, ColumnsOut, Changes, KeyOut, IndexesOut, ColumnPairs, IndexPairs, Elems;
  }

  lemma PlacesFour(t: Table, a: seq<Stmt>, b: seq<Stmt>, c: seq<Stmt>, d: seq<Stmt>)
    requires AllOf(a, Columns) && AllOf(b, Drops) && AllOf(c, Keys) && AllOf(d, Indexes)
    ensures PlaceColumns(t, (a + b) + (c + d)) == PlaceColumns(t, a)
    ensures PlaceKeys(t, (a + b) + (c + d)) == PlaceKeys(t, c)
  {
    hide PlaceColumns, PlaceKeys, AllOf;
    PlaceAppend(t, a + b, c + d);
    PlaceAppend(t, a, b);
    SilentPlaces(t, a, Columns);
    SilentPlaces(t, b, Drops);
    PlaceAppend(t, c, d);
    SilentPlaces(t, d, Indexes);
    var r := PlaceColumns(t, a);
    if r.Some? {
      SilentPlaces(r.value, b, Drops);
      PlaceAppend(r.value, c, d);
      SilentPlaces(r.value, c, Keys);
      SilentPlaces(r.value, d, Indexes);
    }
    var q := PlaceKeys(t, c);
    if q.Some? { SilentPlaces(q.value, d, Indexes); }
  }

  lemma FourKinds(k: string, t: Table, c: Schema, d: Schema, p: Policy)
    requires Shows(t, c) && ColsOk(t) && SchemaOk(c) && SchemaOk(d)
    ensures var s1, s2 := ColumnAdds(k, c.cols.vals, d.cols, 0), ColumnDrops(k, DroppedList(c, d, p));
      AllOf(s1, Columns) && AllResolve(t, s1) && Changes(s1) == ChangesFrom(c.cols.vals, d.cols, 0) &&
      AllOf(s2, Drops) && AllResolve(t, s2) && ColumnsOut(s2) == DroppedList(c, d, p)
    ensures var s3 := KeyDrop(k, c.pk, d.pk, p.constraint) + KeyAdd(k, c.pk, d.pk);
      AllOf(s3, Keys) && AllResolve(t, s3) &&
        (KeyOut(s3) <==> c.pk != [] && c.pk != d.pk && (d.pk != [] || p.constraint))
    ensures var s4 := IndexDrops(k, c.indexes, d.indexes, p.index, GoneCols(c, d, p), 0);
      AllOf(s4, Indexes) && AllResolve(t, s4) &&
      Elems(IndexesOut(s4)) == DropsUpTo(c.indexes, d.indexes.vals, p.index, GoneCols(c, d, p), |c.indexes.keys|)
  {
    ShownParts(t, c, d);
    hide *;
    DroppedListIs(c, d, p);
    AddsAre(t, k, c.cols.vals, d.cols, 0);
    DropsAre(t, k, DroppedList(c, d, p));
    KeysAre(t, k, c.pk, d.pk, p.constraint);
    IndexDropsAre(t, k, c.indexes, d.indexes, p.index, GoneCols(c, d, p), 0);
    DropsFromAll(c.indexes, d.indexes.vals, p.index, GoneCols(c, d, p));
  }

  lemma StmtsSay(k: string, t: Table, c: Schema, d: Schema, p: Policy)
    requires Shows(t, c) && ColsOk(t) && SchemaOk(c) && SchemaOk(d)
    ensures SpecsSay(t, AlterStmts(k, c, d, p), DroppedList(c, d, p), ChangesFrom(c.cols.vals, d.cols, 0),
      c.pk != [] && c.pk != d.pk && (d.pk != [] || p.constraint),
      DropsUpTo(c.indexes, d.indexes.vals, p.index, GoneCols(c, d, p), |c.indexes.keys|))
  {
    hide *;
    AlterStmtsAre(k, c, d, p);
    FourKinds(k, t, c, d, p);
    FourLists(t, ColumnAdds(k, c.cols.vals, d.cols, 0), ColumnDrops(k, DroppedList(c, d, p)),
      KeyDrop(k, c.pk, d.pk, p.constraint) + KeyAdd(k, c.pk, d.pk),
        IndexDrops(k, c.indexes, d.indexes, p.index, GoneCols(c, d, p), 0),
      DroppedList(c, d, p), ChangesFrom(c.cols.vals, d.cols, 0),
      c.pk != [] && c.pk != d.pk && (d.pk != [] || p.constraint),
      DropsUpTo(c.indexes, d.indexes.vals, p.index, GoneCols(c, d, p), |c.indexes.keys|));
  }

  // Which statements place columns, and which place keys.
  lemma StmtsPlace(k: string, u: Table, t: Table, c: Schema, d: Schema, p: Policy)
    requires Shows(t, c) && ColsOk(t) && SchemaOk(c) && SchemaOk(d)
    ensures PlaceColumns(u, AlterStmts(k, c, d, p)) == PlaceColumns(u, ColumnAdds(k, c.cols.vals, d.cols, 0))
    ensures PlaceKeys(u, AlterStmts(k, c, d, p)) ==
      PlaceKeys(u, KeyDrop(k, c.pk, d.pk, p.constraint) + KeyAdd(k, c.pk, d.pk))
  {
    hide *;
    AlterStmtsAre(k, c, d, p);
    FourKinds(k, t, c, d, p);
    PlacesFour(u, ColumnAdds(k, c.cols.vals, d.cols, 0), ColumnDrops(k, DroppedList(c, d, p)),
      KeyDrop(k, c.pk, d.pk, p.constraint) + KeyAdd(k, c.pk, d.pk),
        IndexDrops(k, c.indexes, d.indexes, p.index, GoneCols(c, d, p), 0));
  }

  lemma ShownParts(t: Table, c: Schema, d: Schema)
    requires Shows(t, c) && ColsOk(t) && SchemaOk(c) && SchemaOk(d)
    ensures t.attrs == c.cols.vals && t.pk == c.pk && t.indexes == c.indexes.vals && c.indexes.Ok() &&
      d.cols.Ok() && c.cols.Ok()
    ensures "" !in d.cols.vals && d.cols.keys != [] && (forall x :: x in t.cols <==> x in c.cols.vals)
  {
    assert forall x :: x in t.cols <==> x in Elems(t.cols);
    hide PartsIn;
  }

  // What the folded statement starts from.
  lemma BaseIs(t: Table, ss: seq<Stmt>, gone: seq<string>, changes: map<string, string>, key: bool, out: set<string>)
    requires SpecsSay(t, ss, gone, changes, key, out)
    ensures AllResolve(t, ss)
    ensures Base(t, ss) == Table(WithoutAll(t.cols, gone), (t.attrs + changes) - Elems(gone),
      if key then [] else StripParts(Elems(gone), t.pk),
      StripIndexes(Elems(gone), t.indexes - out), t.fks)
  {
    hide AllResolve, ColumnsOut, Changes, KeyOut, IndexesOut, ColumnPairs, IndexPairs, WithoutAll, StripParts,
      StripIndexes, Elems;
    NoPairs(WithoutAll(t.cols, gone), StripParts(Elems(gone), t.pk), StripIndexes(Elems(gone), t.indexes - out));
  }

  lemma NoPairs(names: seq<string>, parts: seq<Part>, indexes: map<string, Index>)
    ensures RenAllNames([], names) == names && RenAllParts([], parts) == parts && RenAllIndexes([], indexes) == indexes
    ensures forall m: map<string, string> :: RenAllKeys([], m) == m
    ensures forall m: map<string, Index> :: RenAllKeys([], m) == m
  {
    assert forall s :: RenAllParts([], s) == s;
  }

  lemma BaseSettles(t: Table, c: Schema, d: Schema, p: Policy, base: Table)
    requires Shows(t, c) && ColsOk(t) && SchemaOk(c) && SchemaOk(d)
    requires base.cols == WithoutAll(t.cols, DroppedList(c, d, p))
    requires base.attrs == (t.attrs + ChangesFrom(c.cols.vals, d.cols, 0)) - Elems(DroppedList(c, d, p))
    ensures Settling(base, c.cols.vals, d.cols, DroppedList(c, d, p), 0)
  {
    ShownParts(t, c, d);
    hide *;
    var gone := DroppedList(c, d, p);
    DroppedListIs(c, d, p);
    ColsOkIs(t);
    ColsOkIs(base);
    WithoutAllElems(t.cols, gone);
    forall x ensures x in ChangesFrom(c.cols.vals, d.cols, 0) ==> x in c.cols.vals {
      ChangesAt(c.cols.vals, d.cols, 0, x);
    }
    SameKeys(t.attrs, ChangesFrom(c.cols.vals, d.cols, 0), Elems(gone));
    SettlingIs(base, c.cols.vals, d.cols, gone);
  }

  lemma ColsOkIs(t: Table)
    ensures ColsOk(t) <==> Distinct(t.cols) && Elems(t.cols) == t.attrs.Keys
  {
    hide Distinct, Elems;
  }

  lemma SameKeys(a: map<string, string>, b: map<string, string>, gone: set<string>)
    requires forall x :: x in b ==> x in a
    ensures ((a + b) - gone).Keys == a.Keys - gone
  {
  }

  lemma SettlingIs(t: Table, cur: map<string, string>, des: OMap<string>, gone: seq<string>)
    requires ColsOk(t) && t.attrs == (cur + ChangesFrom(cur, des, 0)) - Elems(gone)
    ensures Settling(t, cur, des, gone, 0)
  {
    assert NewFirst(cur, des, 0) == map[];
    hide ColsOk, ChangesFrom, Elems, NewFirst;
    assert t.attrs + map[] == t.attrs;
  }

  lemma {:induction false} WithoutAllElems(s: seq<string>, gone: seq<string>)
    requires Distinct(s)
    ensures Distinct(WithoutAll(s, gone)) && Elems(WithoutAll(s, gone)) == Elems(s) - Elems(gone)
    decreases |gone|
  {
    if gone == [] {
      assert Elems<string>([]) == {};
    } else {
      assert gone == [gone[0]] + gone[1..];
      ElemsCons(gone[0], gone[1..]);
      WithoutElems(s, gone[0]);
      hide Distinct, Elems, Without;
      WithoutAllElems(Without(s, gone[0]), gone[1..]);
    }
  }

  lemma SettledIs(t: Table, c: Schema, d: Schema, p: Policy)
    requires SchemaOk(c) && SchemaOk(d) && Settling(t, c.cols.vals, d.cols, DroppedList(c, d, p), |d.cols.keys|)
    ensures t.attrs == FinalAttrs(c, d, p) && t.cols != []
  {
    DroppedListIs(c, d, p);
    GoneColsAre(c, d, p);
    var cur, des, gone := c.cols.vals, d.cols.vals, Elems(DroppedList(c, d, p));
    assert d.cols.keys[..|d.cols.keys|] == d.cols.keys && d.cols.keys[0..] == d.cols.keys;
    assert d.cols.keys[0] in Elems(d.cols.keys);
    hide DroppedList, Distinct, PartsIn, GoneCols;
    forall x
      ensures (x in t.attrs <==> x in FinalAttrs(c, d, p)) && (x in t.attrs ==> t.attrs[x] == FinalAttrs(c, d, p)[x])
    {
      ChangesAt(cur, d.cols, 0, x);
    }
    MapsAgree(t.attrs, FinalAttrs(c, d, p));
    assert d.cols.keys[0] in t.attrs;
    assert d.cols.keys[0] in Elems(t.cols);
  }

  lemma FoldedBase(k: string, t: Table, c: Schema, d: Schema, p: Policy)
    requires Shows(t, c) && ColsOk(t) && SchemaOk(c) && SchemaOk(d)
    ensures var ss, gone, final := AlterStmts(k, c, d, p), DroppedList(c, d, p), AlteredTable(t, c, d, p);
      var base := Base(t, ss);
      AllResolve(t, ss) && base == Table(WithoutAll(t.cols, gone), base.attrs, base.pk, final.indexes, t.fks) &&
      base.pk == (if c.pk != [] && c.pk != d.pk && (d.pk != [] || p.constraint) then []
        else StripParts(GoneCols(c, d, p), c.pk)) &&
      Settling(base, c.cols.vals, d.cols, gone, 0)
  {
    ShownParts(t, c, d);
    hide *;
    var ss, gone := AlterStmts(k, c, d, p), DroppedList(c, d, p);
    var out := DropsUpTo(c.indexes, d.indexes.vals, p.index, GoneCols(c, d, p), |c.indexes.keys|);
    StmtsSay(k, t, c, d, p);
    DroppedListIs(c, d, p);
    BaseIs(t, ss, gone, ChangesFrom(c.cols.vals, d.cols, 0),
      c.pk != [] && c.pk != d.pk && (d.pk != [] || p.constraint), out);
    BaseSettles(t, c, d, p, Base(t, ss));
    StripThenDrop(GoneCols(c, d, p), t.indexes, out);
    AlteredFields(t, c, d, p);
  }

  // The table once the folded statement has settled its columns.
  lemma FoldedColumns(k: string, t: Table, c: Schema, d: Schema, p: Policy)
    requires Shows(t, c) && ColsOk(t) && SchemaOk(c) && SchemaOk(d)
    ensures var base, final := Base(t, AlterStmts(k, c, d, p)), AlteredTable(t, c, d, p);
      PlaceColumns(base, AlterStmts(k, c, d, p)) ==
        Some(Table(final.cols, FinalAttrs(c, d, p), base.pk, final.indexes, t.fks)) && final.cols != []
  {
    ShownParts(t, c, d);
    NoneFirst(c.cols.vals, d.cols, t.cols);
    hide *;
    var base, gone := Base(t, AlterStmts(k, c, d, p)), DroppedList(c, d, p);
    FoldedBase(k, t, c, d, p);
    DroppedListIs(c, d, p);
    AddsPlaced(k, base, t.cols, c.cols.vals, d.cols, gone, 0);
    PlacedIs(k, base, t.cols, c.cols.vals, d.cols, gone);
    StmtsPlace(k, base, t, c, d, p);
    SettledIs(PlaceColumns(base, ColumnAdds(k, c.cols.vals, d.cols, 0)).value, c, d, p);
    AlteredIs(t, c, d, p, gone);
  }

  // The folded statement always runs, and leaves the table the single statements lead to.
  lemma FoldedRuns(k: string, t: Table, c: Schema, d: Schema, p: Policy)
    requires Shows(t, c) && ColsOk(t) && SchemaOk(c) && SchemaOk(d)
    ensures ExecFolded(t, AlterStmts(k, c, d, p)) == Some(AlteredTable(t, c, d, p))
  {
    hide *;
    var ss := AlterStmts(k, c, d, p);
    var base := Base(t, ss);
    FoldedBase(k, t, c, d, p);
    FoldedColumns(k, t, c, d, p);
    FinalParts(t, c, d, p);
    var u := PlaceColumns(base, ss).value;
    FoldedKey(u, k, c, d, p);
    StmtsPlace(k, u, t, c, d, p);
    AlteredFields(t, c, d, p);
    FinalFields(t, c, d, p);
    ExecFoldedIs(t, ss, base, u);
  }

  lemma NoneFirst(cur: map<string, string>, des: OMap<string>, cols: seq<string>)
    requires forall x :: x in cols <==> x in cur
    ensures Holds(cols, cur, des, 0)
  {
  }

  lemma PlacedIs(k: string, t: Table, cols: seq<string>, cur: map<string, string>, des: OMap<string>, gone: seq<string>)
    requires Placed(k, t, cols, cur, des, gone, 0)
    ensures var u := PlaceColumns(t, ColumnAdds(k, cur, des, 0));
      u.Some? && u.value.cols == WithoutAll(AddedCols(cols, cur, des, 0), gone) &&
      Settling(u.value, cur, des, gone, |des.keys|) && u.value == t.(cols := u.value.cols, attrs := u.value.attrs)
  {
    hide PlaceColumns, ColumnAdds, Settling, WithoutAll, AddedCols;
  }

  lemma AlteredIs(t: Table, c: Schema, d: Schema, p: Policy, gone: seq<string>)
    requires gone == DroppedList(c, d, p)
    ensures AlteredTable(t, c, d, p) == Table(WithoutAll(AddedCols(t.cols, c.cols.vals, d.cols, 0), gone),
      FinalAttrs(c, d, p), FinalKey(c, d, p),
      StripIndexes(GoneCols(c, d, p), c.indexes.vals) -
        DropsUpTo(c.indexes, d.indexes.vals, p.index, GoneCols(c, d, p), |c.indexes.keys|), t.fks)
  {
    hide AddedCols, Gone, FinalAttrs, FinalKey, StripIndexes, DropsUpTo, GoneCols;
  }

  lemma ExecFoldedIs(t: Table, ss: seq<Stmt>, base: Table, u: Table)
    requires AllResolve(t, ss) && base == Base(t, ss) && PlaceColumns(base, ss) == Some(u) && u.cols != []
    ensures ExecFolded(t, ss) == PlaceKeys(u, ss)
  {
    hide AllResolve, Base, PlaceColumns, PlaceKeys;
  }

  lemma AlteredFields(t: Table, c: Schema, d: Schema, p: Policy)
    ensures var a, f := AlteredTable(t, c, d, p), FinalTable(t, c, d, p);
      a.cols == f.cols && a.attrs == f.attrs && a.pk == FinalKey(c, d, p) && a.fks == t.fks && a.indexes ==
      StripIndexes(GoneCols(c, d, p), c.indexes.vals) -
        DropsUpTo(c.indexes, d.indexes.vals, p.index, GoneCols(c, d, p), |c.indexes.keys|)
  {
    hide AddedCols, Gone, FinalAttrs, FinalKey, StripIndexes, DropsUpTo, GoneCols, FinalIndexes, WithoutAll;
  }

  // One by one the statements run exactly when the key is not trapped, and leave the same table.
  lemma OneByOne(k: string, t: Table, c: Schema, d: Schema, p: Policy)
    requires Shows(t, c) && ColsOk(t) && SchemaOk(c) && SchemaOk(d)
    ensures RunLocal(t, AlterStmts(k, c, d, p)) == if KeyTrap(c, d, p) then None else Some(AlteredTable(t, c, d, p))
  {
    ShownParts(t, c, d);
    hide *;
    AlterGroups(k, c, d, p);
    ColumnsRun(k, t, c, d, p);
    FinalParts(t, c, d, p);
    FinalFields(t, c, d, p);
    GoneColsAre(c, d, p);
    AlteredFields(t, c, d, p);
    NothingYet(c.indexes, d.indexes, p.index, GoneCols(c, d, p));
    var gone, final := Gone<string, string>(c.cols.keys, d.cols.vals), FinalTable(t, c, d, p);
    var u := Table(final.cols, final.attrs, StripParts(GoneCols(c, d, p), c.pk),
      StripIndexes(GoneCols(c, d, p), c.indexes.vals), t.fks);
    var v := u.(pk := FinalKey(c, d, p));
    KeyRuns(k, u, c, d, p);
    IndexDropsRun(k, v, c.indexes, d.indexes, p.index, GoneCols(c, d, p), 0);
    var s1 := ColumnAdds(k, c.cols.vals, d.cols, 0) + if p.column then ColumnDrops(k, gone) else [];
    var s2 := KeyDrop(k, c.pk, d.pk, p.constraint) + KeyAdd(k, c.pk, d.pk);
    var s3 := IndexDrops(k, c.indexes, d.indexes, p.index, GoneCols(c, d, p), 0);
    var mid := if KeyTrap(c, d, p) then None else Some(v);
    GroupsAre(t, AlterStmts(k, c, d, p), s1, s2, s3, u, mid, AlteredTable(t, c, d, p));
    ThreeGroupsRun(t, AlterStmts(k, c, d, p), s1, s2, s3, u, mid, AlteredTable(t, c, d, p));
  }

  lemma AlterGroups(k: string, c: Schema, d: Schema, p: Policy)
    ensures var gone := Gone<string, string>(c.cols.keys, d.cols.vals);
      AlterStmts(k, c, d, p) ==
        (ColumnAdds(k, c.cols.vals, d.cols, 0) + (if p.column then ColumnDrops(k, gone) else []))
        + ((KeyDrop(k, c.pk, d.pk, p.constraint) + KeyAdd(k, c.pk, d.pk)) +
          IndexDrops(k, c.indexes, d.indexes, p.index, GoneCols(c, d, p), 0))
    ensures LocalStmts(k, c, d, p) == AlterStmts(k, c, d, p) + IndexCreates(k, c.indexes.vals, d.indexes, 0)
  {
    LocalStmtsAre(k, c, d, p);
    hide Gone, ColumnAdds, KeyDrop, KeyAdd, IndexDrops, GoneCols, IndexCreates, LocalStmts;
  }

  // Folding keeps the meaning: whenever the single statements run, the folded one leaves the same table.
  lemma FoldingKeepsMeaning(k: string, t: Table, c: Schema, d: Schema, p: Policy)
    requires Shows(t, c) && ColsOk(t) && SchemaOk(c) && SchemaOk(d)
    ensures var ss := AlterStmts(k, c, d, p);
      (RunLocal(t, ss).Some? ==> ExecFolded(t, ss) == RunLocal(t, ss)) &&
        (RunLocal(t, ss).Some? <==> !KeyTrap(c, d, p)) && ExecFolded(t, ss).Some?
  {
    hide *;
    FoldedRuns(k, t, c, d, p);
    OneByOne(k, t, c, d, p);
  }

  // Renames must stay apart: a later spec that reads the new name runs after the rename, and not beside it.
  lemma RenameDoesNotFold(db: DB, k: string, o: string, n: string, a: string)
    requires k in db && o in db[k].attrs && n !in db[k].attrs && n != ""
    ensures var ss := [RenameColumn(k, o, n), ModifyColumn(k, n, a)];
      Run(db, ss).Some? && ExecFolded(db[k], ss) == None
  {
    var s1, s2 := RenameColumn(k, o, n), ModifyColumn(k, n, a);
    RenameColumnDoes(db, k, o, n);
    var e := map t | t in db :: RenColumn(k, o, n, t, db[t]);
    RenColumnAttrs(k, o, n, db[k]);
    assert n in e[k].attrs.Keys;
    assert [s1, s2] == [s1] + [s2] && [s2] == [s2] + [];
    assert !Resolves(db[k], [s1, s2][1]);
    hide RenColumn, Exec, Run, Resolves, Base, PlaceColumns, PlaceKeys;
    RunStep(db, s1, [s2]);
    RunStep(e, s2, []);
    LocalExecIs(e, s2);
    ModifyRuns(e[k], k, n, a);
    RunNothing(e[k := e[k].(attrs := e[k].attrs[n := a])]);
  }

  lemma ModifyRuns(t: Table, k: string, n: string, a: string)
    requires n in t.attrs
    ensures ExecLocal(t, ModifyColumn(k, n, a)) == Some(t.(attrs := t.attrs[n := a]))
  {
  }

  lemma IndexRenameDoesNotFold(t: Table, k: string, o: string, n: string)
    requires o in t.indexes && n !in t.indexes
    ensures var ss := [RenameIndex(k, o, n), DropIndex(k, n)];
      RunLocal(t, ss).Some? && ExecFolded(t, ss) == None
  {
    var s1, s2 := RenameIndex(k, o, n), DropIndex(k, n);
    assert [s1, s2] == [s1] + ([s2] + []);
    RunCons(t, s1, [s2] + []);
    RunCons(t.(indexes := RenKey(o, n, t.indexes)), s2, []);
    assert !Resolves(t, [s1, s2][1]);
    hide Base, PlaceColumns, PlaceKeys;
  }
}
