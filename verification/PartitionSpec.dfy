/** What a partition diff should contain, written without loops. */
module PartitionSpec {
  import opened Common
  import opened PartitionModel

  // The stored PARTITION BY text of a table together with its parse.
  datatype Clause = Clause(text: string, option: PartOption)

  datatype Reason =
    | FirstTimePartitioning | RemovePartitioning
    | DuplicateValue | NotIncreasing | SchemeDiffers | DiscardsValue | UnsupportedShape

  datatype Outcome = Planned(stmts: seq<Stmt>, skipped: seq<Stmt>) | Rejected(reason: Reason)

  /* ----- validation of the desired side ----- */

  // One VALUES IN constant and the partition it is written in.
  datatype Listing = Listing(value: Value, slot: string)

  function ListingsOf(d: PartDef): seq<Listing> {
    if d.range.In? then
      seq(|d.range.values|, p requires 0 <= p < |d.range.values| => Listing(d.range.values[p], d.name))
    else []
  }

  // All VALUES IN constants, partition by partition.
  function Listings(l: seq<PartDef>): seq<Listing> {
    if l == [] then [] else Listings(l[..|l| - 1]) + ListingsOf(l[|l| - 1])
  }

  ghost predicate DistinctValues(ls: seq<Listing>) {
    forall a, b :: 0 <= a < b < |ls| ==> ls[a].value != ls[b].value
  }

  // The VALUES LESS THAN bounds, in order.
  function Bounds(l: seq<PartDef>): seq<Bound> {
    if l == [] then []
    else
      var d := l[|l| - 1];
      Bounds(l[..|l| - 1]) + if d.range.LessThan? then [d.range.bound] else []
  }

  // Adjacent bounds the planner can compare are in order, and MAXVALUE is last.
  predicate Ascends(p: Bound, c: Bound) {
    !p.MaxValue? && (c.MaxValue? || if p.Int? && c.Int? then p.value < c.value else p != c)
  }

  predicate AdjacentAscend(bs: seq<Bound>) {
    forall i :: 0 < i < |bs| ==> Ascends(bs[i - 1], bs[i])
  }

  /* ----- headers and names ----- */

  predicate SameColumns(a: seq<string>, b: seq<string>) {
    |a| == |b| && forall i :: 0 <= i < |a| ==> EqualFold(a[i], b[i])
  }

  predicate SameHeader(a: PartOption, b: PartOption) {
    a.kind == b.kind && a.linear == b.linear && a.keyAlgorithm == b.keyAlgorithm &&
    SameColumns(a.columns, b.columns) && a.expr == b.expr
  }

  predicate SameNames(a: seq<PartDef>, b: seq<PartDef>) {
    |a| == |b| && forall i :: 0 <= i < |a| ==> EqualFold(a[i].name, b[i].name)
  }

  /* ----- the REORGANIZE branch: same names, slot by slot ----- */

  // The last slot of the run of changed slots that starts at i.
  function RunLast(cur: seq<PartDef>, des: seq<PartDef>, i: nat): (last: nat)
    requires i < |cur| == |des|
    ensures i <= last < |cur|
    ensures forall k :: i < k <= last ==> !DefEqual(cur[k], des[k])
    ensures last + 1 < |cur| ==> DefEqual(cur[last + 1], des[last + 1])
    decreases |cur| - i
  {
    if i + 1 < |cur| && !DefEqual(cur[i + 1], des[i + 1]) then RunLast(cur, des, i + 1) else i
  }

  // RANGE: a moved upper bound is also the next slot's lower bound, so that slot joins the run.
  function CascadeLast(cur: seq<PartDef>, des: seq<PartDef>, last: nat): (r: nat)
    requires last < |cur| == |des|
    ensures last <= r < |cur|
  {
    if last + 1 < |cur| && !SameRange(cur[last].range, des[last].range) then last + 1 else last
  }

  // The definition a REORGANIZE states for a slot: the catalog's own when nothing changed.
  function SlotDef(cur: seq<PartDef>, des: seq<PartDef>, i: nat): PartDef
    requires i < |cur| == |des|
  {
    if DefEqual(cur[i], des[i]) then cur[i] else des[i]
  }

  function Slots(cur: seq<PartDef>, des: seq<PartDef>, first: nat, next: nat): (s: seq<PartDef>)
    requires first <= next <= |cur| == |des|
    ensures |s| == next - first
    ensures forall i :: 0 <= i < |s| ==> s[i] == SlotDef(cur, des, first + i)
  {
    seq(next - first, i requires 0 <= i < next - first => SlotDef(cur, des, first + i))
  }

  function NamesOf(l: seq<PartDef>): seq<string> {
    seq(|l|, i requires 0 <= i < |l| => l[i].name)
  }

  function ReorganizeRun(cur: seq<PartDef>, des: seq<PartDef>, first: nat, last: nat): Stmt
    requires first <= last < |cur| == |des|
  {
    Reorganize(NamesOf(cur[first..last + 1]), Slots(cur, des, first, last + 1))
  }

  function RangeScript(cur: seq<PartDef>, des: seq<PartDef>, i: nat): seq<Stmt>
    requires i <= |cur| == |des|
    decreases |cur| - i
  {
    if i == |cur| then []
    else if DefEqual(cur[i], des[i]) then RangeScript(cur, des, i + 1)
    else
      var last := CascadeLast(cur, des, RunLast(cur, des, i));
      [ReorganizeRun(cur, des, i, last)] + RangeScript(cur, des, last + 1)
  }

  function ListScript(cur: seq<PartDef>, des: seq<PartDef>, i: nat): seq<Stmt>
    requires i <= |cur| == |des|
    decreases |cur| - i
  {
    if i == |cur| then []
    else if DefEqual(cur[i], des[i]) then ListScript(cur, des, i + 1)
    else
      var last := RunLast(cur, des, i);
      [ReorganizeRun(cur, des, i, last)] + ListScript(cur, des, last + 1)
  }

  // No value leaves any changed slot.
  predicate Grows(before: ValueRange, after: ValueRange) {
    before.In? ==> after.In? && forall v :: v in before.values ==> v in after.values
  }

  predicate ChangedSlotsGrow(cur: seq<PartDef>, des: seq<PartDef>)
    requires |cur| == |des|
  {
    forall i :: 0 <= i < |cur| && !DefEqual(cur[i], des[i]) ==> Grows(cur[i].range, des[i].range)
  }

  // Some value of the catalog has no partition at all in the desired layout.
  predicate Owned(l: seq<PartDef>, v: Value) {
    exists i :: 0 <= i < |l| && l[i].range.In? && v in l[i].range.values
  }

  ghost predicate Discards(cur: seq<PartDef>, des: seq<PartDef>) {
    exists v: Value :: Owned(cur, v) && !Owned(des, v)
  }

  function FirstChanged(cur: seq<PartDef>, des: seq<PartDef>, i: nat): (f: nat)
    requires i <= |cur| == |des|
    ensures i <= f <= |cur|
    ensures f < |cur| ==> !DefEqual(cur[f], des[f])
    ensures forall k :: i <= k < f ==> DefEqual(cur[k], des[k])
    decreases |cur| - i
  {
    if i == |cur| then i else if !DefEqual(cur[i], des[i]) then i else FirstChanged(cur, des, i + 1)
  }

  function LastChanged(cur: seq<PartDef>, des: seq<PartDef>, n: nat): (l: nat)
    requires n <= |cur| == |des|
    requires exists k :: 0 <= k < n && !DefEqual(cur[k], des[k])
    ensures l < n && !DefEqual(cur[l], des[l])
    ensures forall k :: l < k < n ==> DefEqual(cur[k], des[k])
  {
    if !DefEqual(cur[n - 1], des[n - 1]) then n - 1 else LastChanged(cur, des, n - 1)
  }

  ghost function RewritePlan(kind: Strategy, cur: seq<PartDef>, des: seq<PartDef>, allowDrop: bool): Outcome
    requires |cur| == |des|
  {
    var first := FirstChanged(cur, des, 0);
    if first == |cur| then Planned([], [])
    else if kind == ListType && Discards(cur, des) && !allowDrop then Rejected(DiscardsValue)
    else if kind == RangeType then Planned(RangeScript(cur, des, 0), [])
    else if ChangedSlotsGrow(cur, des) then Planned(ListScript(cur, des, 0), [])
    else Planned([ReorganizeRun(cur, des, first, LastChanged(cur, des, |cur|))], [])
  }

  /* ----- slicing a MAXVALUE catch-all ----- */

  predicate IsMaxvalue(d: PartDef) {
    d.range.LessThan? && d.range.bound.MaxValue?
  }

  // The names are new to the catalog and differ from each other.
  ghost predicate NewNames(cur: seq<PartDef>, extras: seq<PartDef>) {
    UniqueNames(extras) &&
    forall i, j :: 0 <= i < |cur| && 0 <= j < |extras| ==> Fold(cur[i].name) != Fold(extras[j].name)
  }

  // Desired is the catalog with newly named partitions put just before its MAXVALUE one.
  ghost predicate CatchAllInsert(cur: PartOption, des: PartOption) {
    var c, d := cur.defs, des.defs;
    cur.kind == RangeType && cur.columns == [] && 0 < |c| < |d| &&
    IsMaxvalue(c[|c| - 1]) && IsMaxvalue(d[|d| - 1]) && DefEqual(c[|c| - 1], d[|d| - 1]) &&
    (forall i :: 0 <= i < |c| - 1 ==> DefEqual(c[i], d[i])) &&
    NewNames(c, d[|c| - 1..|d| - 1])
  }

  function CatchAllStmt(c: seq<PartDef>, d: seq<PartDef>): Stmt
    requires 0 < |c| < |d|
  {
    var catchAll := c[|c| - 1];
    Reorganize([catchAll.name], d[|c| - 1..|d| - 1] + [catchAll])
  }

  /* ----- ADD and DROP: the greedy order-preserving match ----- */

  // How many desired partitions the walk over the catalog matches.
  function MatchCount(cur: seq<PartDef>, des: seq<PartDef>): (m: nat)
    ensures m <= |des|
  {
    if cur == [] || des == [] then 0
    else if DefEqual(cur[0], des[0]) then 1 + MatchCount(cur[1..], des[1..])
    else MatchCount(cur[1..], des)
  }

  function Unmatched(cur: seq<PartDef>, des: seq<PartDef>): seq<PartDef> {
    if cur == [] then []
    else if des != [] && DefEqual(cur[0], des[0]) then Unmatched(cur[1..], des[1..])
    else [cur[0]] + Unmatched(cur[1..], des)
  }

  function AddDropPlan(cur: seq<PartDef>, des: seq<PartDef>, allowDrop: bool): Outcome {
    var drops, adds := Unmatched(cur, des), des[MatchCount(cur, des)..];
    if drops != [] && adds != [] then Rejected(UnsupportedShape)
    else if adds != [] then Planned([AddPartition(adds)], [])
    else if drops == [] then Planned([], [])
    else if allowDrop then Planned([DropPartition(NamesOf(drops))], [])
    else Planned([], [DropPartition(NamesOf(drops))])
  }

  function CountPlan(cur: int, des: int, allowDrop: bool): Outcome {
    if cur == des then Planned([], [])
    else if des > cur then Planned([AddPartitions(des - cur)], [])
    else if allowDrop then Planned([Coalesce(cur - des)], [])
    else Planned([], [Coalesce(cur - des)])
  }

  /* ----- the whole diff ----- */

  ghost function Plan(current: Option<Clause>, desired: Option<Clause>, allowDrop: bool): Outcome {
    if current.None? && desired.None? then Planned([], [])
    else if current.None? then Rejected(FirstTimePartitioning)
    else if desired.None? then Rejected(RemovePartitioning)
    else if current.value.text == desired.value.text then Planned([], [])
    else PlanOptions(current.value.option, desired.value.option, allowDrop)
  }

  ghost function PlanOptions(cur: PartOption, des: PartOption, allowDrop: bool): Outcome {
    if !DistinctValues(Listings(des.defs)) then Rejected(DuplicateValue)
    else if !AdjacentAscend(Bounds(des.defs)) then Rejected(NotIncreasing)
    else if !SameHeader(cur, des) then Rejected(SchemeDiffers)
    else if cur.kind != RangeType && cur.kind != ListType then
      CountPlan(cur.partitions, des.partitions, allowDrop)
    else if SameNames(cur.defs, des.defs) then RewritePlan(cur.kind, cur.defs, des.defs, allowDrop)
    else if CatchAllInsert(cur, des) then Planned([CatchAllStmt(cur.defs, des.defs)], [])
    else AddDropPlan(cur.defs, des.defs, allowDrop)
  }
}
