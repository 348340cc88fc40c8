/** Partition definitions, and what MySQL does when a partition statement runs. */
module PartitionModel {
  import opened Common

  // The formatted text of one VALUES IN constant (a whole tuple for LIST COLUMNS).
  type Value = s: string | s != "" witness "0"

  // A VALUES LESS THAN bound: an integer literal, MAXVALUE, or the text of anything else.
  datatype Bound = Int(value: int) | Form(text: string) | MaxValue

  datatype ValueRange = NoRange | LessThan(bound: Bound) | In(values: seq<Value>)

  datatype PartDef = PartDef(name: string, range: ValueRange, options: string)

  datatype Strategy = RangeType | ListType | HashType | KeyType

  datatype PartOption = PartOption(
    kind: Strategy, linear: bool, keyAlgorithm: int,
    columns: seq<string>, expr: string, partitions: int, defs: seq<PartDef>)

  datatype Stmt =
    | Reorganize(oldNames: seq<string>, into: seq<PartDef>)
    | AddPartition(defs: seq<PartDef>)
    | DropPartition(names: seq<string>)
    | AddPartitions(count: int)
    | Coalesce(count: int)

  /* ----- comparing definitions ----- */

  // VALUES IN is a set to MySQL: the order of its constants does not count.
  predicate SameRange(a: ValueRange, b: ValueRange) {
    if a.In? && b.In? then multiset(a.values) == multiset(b.values) else a == b
  }

  predicate DefEqual(a: PartDef, b: PartDef) {
    EqualFold(a.name, b.name) && SameRange(a.range, b.range) && a.options == b.options
  }

  ghost predicate SameLayout(a: seq<PartDef>, b: seq<PartDef>) {
    |a| == |b| && forall i :: 0 <= i < |a| ==> DefEqual(a[i], b[i])
  }

  /* ----- legal layouts ----- */

  // A bound as MySQL orders it. `ev` gives the integer a non-literal bound evaluates to.
  datatype Rank = Fin(value: int) | Infinite

  type Eval = string -> int

  function RankOf(ev: Eval, b: Bound): Rank {
    match b
    case Int(v) => Fin(v)
    case Form(t) => Fin(ev(t))
    case MaxValue => Infinite
  }

  predicate Below(a: Rank, b: Rank) {
    a.Fin? && (b.Infinite? || a.value < b.value)
  }

  ghost predicate UniqueNames(l: seq<PartDef>) {
    forall i, j :: 0 <= i < j < |l| ==> Fold(l[i].name) != Fold(l[j].name)
  }

  ghost predicate AllLessThan(l: seq<PartDef>) {
    forall i :: 0 <= i < |l| ==> l[i].range.LessThan?
  }

  ghost predicate AllIn(l: seq<PartDef>) {
    forall i :: 0 <= i < |l| ==> l[i].range.In?
  }

  function RankAt(ev: Eval, d: PartDef): Rank
    requires d.range.LessThan?
  {
    RankOf(ev, d.range.bound)
  }

  // VALUES LESS THAN is strictly increasing, with MAXVALUE as infinity.
  ghost predicate Increasing(ev: Eval, l: seq<PartDef>) {
    AllLessThan(l) &&
    forall i, j :: 0 <= i < j < |l| ==> Below(RankAt(ev, l[i]), RankAt(ev, l[j]))
  }

  ghost predicate NoRepeats<T(!new)>(s: seq<T>) {
    forall i, j :: 0 <= i < j < |s| ==> s[i] != s[j]
  }

  // No constant is listed twice, in one partition or in two (Error 1495).
  ghost predicate ValuesDisjoint(l: seq<PartDef>) {
    AllIn(l) &&
    (forall i :: 0 <= i < |l| ==> NoRepeats(l[i].range.values)) &&
    forall i, j, v :: 0 <= i < j < |l| && v in l[i].range.values ==> v !in l[j].range.values
  }

  ghost predicate Legal(ev: Eval, kind: Strategy, l: seq<PartDef>) {
    l != [] && UniqueNames(l) &&
    match kind
    case RangeType => Increasing(ev, l)
    case ListType => ValuesDisjoint(l)
    case _ => false
  }

  /* ----- rows ----- */

  // What decides a row's partition: a number (RANGE) or a constant (LIST).
  datatype Key = Num(n: int) | Const(v: Value)

  predicate Accepts(ev: Eval, d: PartDef, k: Key) {
    match d.range
    case NoRange => false
    case LessThan(b) => k.Num? && Below(Fin(k.n), RankOf(ev, b))
    case In(vs) => k.Const? && k.v in vs
  }

  // The partition that stores a key: the first one that accepts it; |l| when none does.
  function Home(ev: Eval, l: seq<PartDef>, k: Key): (h: nat)
    ensures h <= |l|
    ensures h < |l| ==> Accepts(ev, l[h], k)
    ensures forall i :: 0 <= i < h ==> !Accepts(ev, l[i], k)
  {
    if l == [] then 0
    else if Accepts(ev, l[0], k) then 0
    else
      var h := Home(ev, l[1..], k);
      assert forall i :: 0 < i < h + 1 ==> l[i] == l[1..][i - 1];
      h + 1
  }

  // A table: its partitions and the keys that have rows.
  datatype Table = Table(layout: seq<PartDef>, rows: set<Key>)

  ghost predicate Stored(ev: Eval, t: Table) {
    forall k :: k in t.rows ==> Home(ev, t.layout, k) < |t.layout|
  }

  /* ----- running a statement ----- */

  function IndexOfName(l: seq<PartDef>, name: string): (i: nat)
    ensures i <= |l|
    ensures i < |l| ==> EqualFold(l[i].name, name)
    ensures forall j :: 0 <= j < i ==> !EqualFold(l[j].name, name)
  {
    if l == [] then 0
    else if EqualFold(l[0].name, name) then 0
    else
      var i := IndexOfName(l[1..], name);
      assert forall j :: 0 < j < i + 1 ==> l[j] == l[1..][j - 1];
      i + 1
  }

  ghost predicate Consecutive(l: seq<PartDef>, first: nat, names: seq<string>) {
    names != [] && first + |names| <= |l| &&
    forall j :: 0 <= j < |names| ==> EqualFold(l[first + j].name, names[j])
  }

  // REORGANIZE of RANGE partitions may not change the range they cover together,
  // except that the table's last bound may grow (Error 1520).
  ghost predicate KeepsUpperEdge(ev: Eval, l: seq<PartDef>, next: nat, into: seq<PartDef>)
    requires AllLessThan(l) && AllLessThan(into) && into != [] && 0 < next <= |l|
  {
    var before := RankAt(ev, l[next - 1]);
    var after := RankAt(ev, into[|into| - 1]);
    if next < |l| then after == before else !Below(after, before)
  }

  function Replace(l: seq<PartDef>, first: nat, next: nat, into: seq<PartDef>): seq<PartDef>
    requires first <= next <= |l|
  {
    l[..first] + into + l[next..]
  }

  ghost predicate Names(names: seq<string>, d: PartDef) {
    exists j :: 0 <= j < |names| && EqualFold(d.name, names[j])
  }

  ghost function Without(l: seq<PartDef>, names: seq<string>): seq<PartDef> {
    if l == [] then []
    else (if Names(names, l[0]) then [] else [l[0]]) + Without(l[1..], names)
  }

  // Only the rows of the reorganized partitions move, and only into the new ones;
  // a row that fits in none of them is silently lost.
  ghost function RowsKept(ev: Eval, t: Table, first: nat, next: nat, into: seq<PartDef>): set<Key> {
    set k | k in t.rows && (first <= Home(ev, t.layout, k) < next ==> Home(ev, into, k) < |into|)
  }

  // The rows of dropped partitions go with them.
  ghost function RowsOutside(ev: Eval, t: Table, names: seq<string>): set<Key> {
    set k | k in t.rows && (Home(ev, t.layout, k) < |t.layout| ==> !Names(names, t.layout[Home(ev, t.layout, k)]))
  }

  ghost function Exec(ev: Eval, kind: Strategy, t: Table, s: Stmt): Option<Table> {
    var l := t.layout;
    match s
    case Reorganize(names, into) =>
      if names == [] then None else
      var first := IndexOfName(l, names[0]);
      if !Consecutive(l, first, names) || into == [] then None else
      var next := first + |names|;
      var l' := Replace(l, first, next, into);
      if !Legal(ev, kind, l') then None else
      if kind == RangeType && !(AllLessThan(l) && AllLessThan(into) && KeepsUpperEdge(ev, l, next, into)) then None else
      Some(Table(l', RowsKept(ev, t, first, next, into)))
    case AddPartition(defs) =>
      if defs == [] || !Legal(ev, kind, l + defs) then None else Some(Table(l + defs, t.rows))
    case DropPartition(names) =>
      if names == [] || !(forall j :: 0 <= j < |names| ==> IndexOfName(l, names[j]) < |l|) then None else
      var l' := Without(l, names);
      if l' == [] then None else
      Some(Table(l', RowsOutside(ev, t, names)))
    // PARTITIONS n and COALESCE are for HASH and KEY tables, which have no layout here.
    case AddPartitions(_) => None
    case Coalesce(_) => None
  }

  ghost function Run(ev: Eval, kind: Strategy, t: Table, ss: seq<Stmt>): Option<Table>
    decreases |ss|
  {
    if ss == [] then Some(t) else
    match Exec(ev, kind, t, ss[0])
    case None => None
    case Some(t') => Run(ev, kind, t', ss[1..])
  }

  lemma {:induction false} RunAppend(ev: Eval, kind: Strategy, t: Table, a: seq<Stmt>, b: seq<Stmt>)
    ensures Run(ev, kind, t, a + b) ==
      match Run(ev, kind, t, a)
      case None => None
      case Some(t') => Run(ev, kind, t', b)
    decreases |a|
  {
    if a == [] {
      assert a + b == b;
    } else {
      assert (a + b)[0] == a[0] && (a + b)[1..] == a[1..] + b;
      match Exec(ev, kind, t, a[0]) {
        case None =>
        case Some(t') => RunAppend(ev, kind, t', a[1..], b);
      }
    }
  }
}
