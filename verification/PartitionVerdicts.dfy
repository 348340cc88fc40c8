/**
 * What the partition planner decides, in terms of the partitions alone: which pairs of layouts it refuses and why,
 * which it plans for, and which partitions its statements touch.
 */
module PartitionVerdicts {
  import opened Common
  import opened PartitionModel
  import opened PartitionSpec
  import opened PartitionRewrite
  import opened PartitionChecks
  import opened PartitionMatch
  import opened PartitionPlan

  /* ----- what counts as the same ----- */

  // Two definitions that mean one partition: name in any letter case, options, bound, and each constant equally often.
  ghost predicate Alike(a: PartDef, b: PartDef) {
    Fold(a.name) == Fold(b.name) && a.options == b.options &&
    match a.range
    case NoRange => b.range.NoRange?
    case LessThan(bound) => b.range.LessThan? && b.range.bound == bound
    case In(values) => b.range.In? && forall v :: multiset(values)[v] == multiset(b.range.values)[v]
  }

  lemma AlikeIs(a: PartDef, b: PartDef)
    ensures DefEqual(a, b) <==> Alike(a, b)
  {
    if a.range.In? && b.range.In? && Alike(a, b) {
      var x, y := multiset(a.range.values), multiset(b.range.values);
      assert forall v :: x[v] == y[v];
      assert x == y;
    }
  }

  /* ----- the desired side on its own ----- */

  // Two places that hold one constant.
  ghost predicate ConstantTwice(l: seq<PartDef>) {
    exists i, p, j, q ::
      0 <= i < |l| && 0 <= j < |l| && (i != j || p != q) && l[i].range.In? && l[j].range.In? &&
      0 <= p < |l[i].range.values| && 0 <= q < |l[j].range.values| && l[i].range.values[p] == l[j].range.values[q]
  }

  // A neighbour that does not ascend: anything behind MAXVALUE, a smaller or equal integer, the same text again.
  ghost predicate Descends(a: Bound, b: Bound) {
    a.MaxValue? || (a.Int? && b.Int? && b.value <= a.value) || (a.Form? && b.Form? && a.text == b.text)
  }

  ghost predicate OutOfOrder(l: seq<PartDef>) {
    exists i :: 0 <= i && i + 1 < |l| && l[i].range.LessThan? && l[i + 1].range.LessThan? &&
      Descends(l[i].range.bound, l[i + 1].range.bound)
  }

  // The partitions of one clause all have the same kind of values, or none.
  ghost predicate Uniform(l: seq<PartDef>) {
    AllLessThan(l) || AllIn(l) || forall i :: 0 <= i < |l| ==> l[i].range.NoRange?
  }

  lemma {:induction false} NoBounds(l: seq<PartDef>)
    requires forall i :: 0 <= i < |l| ==> !l[i].range.LessThan?
    ensures Bounds(l) == []
  {
    if l != [] { NoBounds(l[..|l| - 1]); }
  }

  lemma {:induction false} NoListings(l: seq<PartDef>)
    requires forall i :: 0 <= i < |l| ==> !l[i].range.In?
    ensures Listings(l) == []
  {
    if l != [] { NoListings(l[..|l| - 1]); }
  }

  lemma OrderIs(l: seq<PartDef>)
    requires Uniform(l)
    ensures AdjacentAscend(Bounds(l)) <==> !OutOfOrder(l)
  {
    if AllLessThan(l) {
      BoundsOfRange(l);
      var bs := Bounds(l);
      forall i | 0 <= i && i + 1 < |l| ensures Ascends(bs[i], bs[i + 1]) <==>
        !Descends(l[i].range.bound, l[i + 1].range.bound) {
        assert bs[i] == l[i].range.bound && bs[i + 1] == l[i + 1].range.bound;
      }
    } else {
      NoBounds(l);
    }
  }

  lemma ConstantsAre(l: seq<PartDef>)
    requires Uniform(l)
    ensures DistinctValues(Listings(l)) <==> !ConstantTwice(l)
  {
    if AllIn(l) {
      DuplicateCheckIsExact(l);
      DisjointIs(l);
    } else {
      NoListings(l);
    }
  }

  lemma DisjointIs(l: seq<PartDef>)
    requires AllIn(l)
    ensures ValuesDisjoint(l) <==> !ConstantTwice(l)
  {
    if ConstantTwice(l) {
      var i, p, j, q :| 0 <= i < |l| && 0 <= j < |l| && (i != j || p != q) &&
        0 <= p < |l[i].range.values| && 0 <= q < |l[j].range.values| && l[i].range.values[p] == l[j].range.values[q];
      assert l[i].range.values[p] in l[i].range.values && l[j].range.values[q] in l[j].range.values;
      if i == j { assert ValuesDisjoint(l) ==> NoRepeats(l[i].range.values); }
    }
    if !ConstantTwice(l) {
      forall i, j, v | 0 <= i < j < |l| && v in l[i].range.values ensures v !in l[j].range.values {
        var p :| 0 <= p < |l[i].range.values| && l[i].range.values[p] == v;
      }
    }
  }

  /* ----- current against desired ----- */

  ghost predicate NamesLineUp(cur: seq<PartDef>, des: seq<PartDef>) {
    |cur| == |des| && forall i :: 0 <= i < |cur| ==> Fold(cur[i].name) == Fold(des[i].name)
  }

  ghost predicate PrefixOf(cur: seq<PartDef>, des: seq<PartDef>) {
    |cur| <= |des| && forall i :: 0 <= i < |cur| ==> Alike(cur[i], des[i])
  }

  ghost predicate Picks(des: seq<PartDef>, cur: seq<PartDef>, at: seq<int>) {
    |at| == |des| && (forall i :: 0 <= i < |des| ==> 0 <= at[i] < |cur| && Alike(cur[at[i]], des[i])) &&
    forall i, j :: 0 <= i < j < |des| ==> at[i] < at[j]
  }

  ghost predicate SubsequenceOf(des: seq<PartDef>, cur: seq<PartDef>) {
    exists at: seq<int> :: Picks(des, cur, at)
  }

  ghost predicate EndsAtMaxvalue(l: seq<PartDef>) {
    l != [] && l[|l| - 1].range == LessThan(MaxValue)
  }

  // Plain RANGE whose last partition takes everything: desired keeps all partitions and puts new ones, with names
  // not used yet, just before the last.
  ghost predicate SlicesLast(cur: PartOption, des: PartOption) {
    var c, d := cur.defs, des.defs;
    cur.kind == RangeType && cur.columns == [] && |c| < |d| && EndsAtMaxvalue(c) && EndsAtMaxvalue(d) &&
    Alike(c[|c| - 1], d[|d| - 1]) && PrefixOf(c[..|c| - 1], d) &&
    (forall i, j :: |c| - 1 <= i < j < |d| - 1 ==> Fold(d[i].name) != Fold(d[j].name)) &&
    forall i, j :: 0 <= i < |c| && |c| - 1 <= j < |d| - 1 ==> Fold(c[i].name) != Fold(d[j].name)
  }

  ghost predicate Homeless(l: seq<PartDef>, v: Value) {
    forall j :: 0 <= j < |l| && l[j].range.In? ==> v !in l[j].range.values
  }

  // Some constant loses its partition.
  ghost predicate LosesConstant(cur: seq<PartDef>, des: seq<PartDef>) {
    exists i, p ::
      0 <= i < |cur| && cur[i].range.In? && 0 <= p < |cur[i].range.values| && Homeless(des, cur[i].range.values[p])
  }

  lemma PrefixIs(cur: seq<PartDef>, des: seq<PartDef>)
    ensures Unmatched(cur, des) == [] <==> PrefixOf(cur, des)
  {
    NoDropsIffPrefix(cur, des);
    forall a, b ensures DefEqual(a, b) <==> Alike(a, b) { AlikeIs(a, b); }
    hide DefEqual, Alike, Unmatched;
    if |cur| <= |des| {
      assert forall i :: 0 <= i < |cur| ==> des[..|cur|][i] == des[i];
    }
  }

  lemma SubsequenceIs(cur: seq<PartDef>, des: seq<PartDef>)
    ensures des[MatchCount(cur, des)..] == [] <==> SubsequenceOf(des, cur)
  {
    NoAddsIffSubsequence(cur, des);
    forall a, b ensures DefEqual(a, b) <==> Alike(a, b) { AlikeIs(a, b); }
    hide DefEqual, Alike, MatchCount;
    forall at: seq<int> ensures PlacedAt(des, cur, at) <==> Picks(des, cur, at) {
    }
  }

  lemma SliceIs(cur: PartOption, des: PartOption)
    ensures CatchAllInsert(cur, des) <==> SlicesLast(cur, des)
  {
    var c, d := cur.defs, des.defs;
    if 0 < |c| < |d| {
      AlikeIs(c[|c| - 1], d[|d| - 1]);
      FrontIs(c, d);
      NewNamesAre(c, d);
    }
    hide DefEqual, Alike, NewNames, PrefixOf;
  }

  lemma FrontIs(c: seq<PartDef>, d: seq<PartDef>)
    requires 0 < |c| < |d|
    ensures (forall i :: 0 <= i < |c| - 1 ==> DefEqual(c[i], d[i])) <==> PrefixOf(c[..|c| - 1], d)
  {
    var front := c[..|c| - 1];
    forall i | 0 <= i < |c| - 1 ensures DefEqual(c[i], d[i]) <==> Alike(front[i], d[i]) { AlikeIs(c[i], d[i]); }
    hide DefEqual, Alike;
  }

  lemma NewNamesAre(c: seq<PartDef>, d: seq<PartDef>)
    requires 0 < |c| < |d|
    ensures NewNames(c, d[|c| - 1..|d| - 1]) <==>
      (forall i, j :: |c| - 1 <= i < j < |d| - 1 ==> Fold(d[i].name) != Fold(d[j].name)) &&
      forall i, j :: 0 <= i < |c| && |c| - 1 <= j < |d| - 1 ==> Fold(c[i].name) != Fold(d[j].name)
  {
    var n := |c| - 1;
    var extras := d[n..|d| - 1];
    assert forall i :: n <= i < |d| - 1 ==> extras[i - n] == d[i];
    assert forall i :: 0 <= i < |extras| ==> extras[i] == d[n + i];
  }

  lemma LossIs(cur: seq<PartDef>, des: seq<PartDef>)
    ensures Discards(cur, des) <==> LosesConstant(cur, des)
  {
    forall v: Value ensures Owned(des, v) <==> !Homeless(des, v) {
    }
    hide Homeless;
    if v: Value :| Owned(cur, v) && !Owned(des, v) {
      var i :| 0 <= i < |cur| && cur[i].range.In? && v in cur[i].range.values;
      var p :| 0 <= p < |cur[i].range.values| && cur[i].range.values[p] == v;
      assert LosesConstant(cur, des);
    }
    if LosesConstant(cur, des) {
      var i, p :| 0 <= i < |cur| && cur[i].range.In? && 0 <= p < |cur[i].range.values| &&
        Homeless(des, cur[i].range.values[p]);
      assert Owned(cur, cur[i].range.values[p]);
    }
  }

  /* ----- the verdict ----- */

  // Which pairs of clauses are refused, and why. A desired side that is invalid on its own comes first, then a change
  // of scheme; with lined-up names only a LIST constant that would be discarded without permission is refused, and
  // otherwise only a mixture that neither appends, nor drops, nor slices the last partition.
  lemma RefusalIs(cur: PartOption, des: PartOption, allowDrop: bool)
    requires Uniform(des.defs)
    ensures var r, c, d := PlanOptions(cur, des, allowDrop), cur.defs, des.defs;
      var valid := !ConstantTwice(d) && !OutOfOrder(d);
      var listed := valid && OneScheme(cur, des) && (cur.kind == RangeType || cur.kind == ListType);
      (r == Rejected(DuplicateValue) <==> ConstantTwice(d)) &&
      (r == Rejected(NotIncreasing) <==> !ConstantTwice(d) && OutOfOrder(d)) &&
      (r == Rejected(SchemeDiffers) <==> valid && !OneScheme(cur, des)) &&
      (r == Rejected(DiscardsValue) <==>
        listed && cur.kind == ListType && NamesLineUp(c, d) && !PrefixOf(c, d) && LosesConstant(c, d) && !allowDrop) &&
      (r == Rejected(UnsupportedShape) <==>
        listed && !NamesLineUp(c, d) && !SlicesLast(cur, des) && !PrefixOf(c, d) && !SubsequenceOf(d, c)) &&
      (r.Rejected? ==> r.reason != FirstTimePartitioning && r.reason != RemovePartitioning)
  {
    hide *;
    var c, d := cur.defs, des.defs;
    OrderIs(d);
    ConstantsAre(d);
    SchemeIs(cur, des);
    NamesAre(c, d);
    SliceIs(cur, des);
    if NamesLineUp(c, d) { RewriteVerdict(cur.kind, c, d, allowDrop); }
    AddDropVerdict(c, d, allowDrop);
    CountVerdict(cur.partitions, des.partitions, allowDrop);
    PlanOptionsAre(cur, des, allowDrop);
  }

  lemma PlanOptionsAre(cur: PartOption, des: PartOption, allowDrop: bool)
    requires SameNames(cur.defs, des.defs) ==> |cur.defs| == |des.defs|
    ensures CatchAllInsert(cur, des) ==> 0 < |cur.defs| < |des.defs|
    ensures PlanOptions(cur, des, allowDrop) ==
      if !DistinctValues(Listings(des.defs)) then Rejected(DuplicateValue)
      else if !AdjacentAscend(Bounds(des.defs)) then Rejected(NotIncreasing)
      else if !SameHeader(cur, des) then Rejected(SchemeDiffers)
      else if cur.kind != RangeType && cur.kind != ListType then CountPlan(cur.partitions, des.partitions, allowDrop)
      else if SameNames(cur.defs, des.defs) then RewritePlan(cur.kind, cur.defs, des.defs, allowDrop)
      else if CatchAllInsert(cur, des) then Planned([CatchAllStmt(cur.defs, des.defs)], [])
      else AddDropPlan(cur.defs, des.defs, allowDrop)
  {
    hide DistinctValues, AdjacentAscend, SameHeader, Bounds, Listings, RewritePlan, AddDropPlan, CountPlan, SameNames,
      CatchAllStmt, DefEqual, IsMaxvalue, NewNames;
  }

  lemma RewriteVerdict(kind: Strategy, c: seq<PartDef>, d: seq<PartDef>, allowDrop: bool)
    requires |c| == |d|
    ensures RewritePlan(kind, c, d, allowDrop).Rejected? <==>
      kind == ListType && !PrefixOf(c, d) && LosesConstant(c, d) && !allowDrop
    ensures var r := RewritePlan(kind, c, d, allowDrop); r.Rejected? ==> r.reason == DiscardsValue
  {
    AllAlike(c, d);
    LossIs(c, d);
    hide PrefixOf, LosesConstant, Discards, FirstChanged, LastChanged, RangeScript, ListScript, ChangedSlotsGrow;
  }

  lemma AddDropVerdict(c: seq<PartDef>, d: seq<PartDef>, allowDrop: bool)
    ensures AddDropPlan(c, d, allowDrop).Rejected? <==> !PrefixOf(c, d) && !SubsequenceOf(d, c)
    ensures var r := AddDropPlan(c, d, allowDrop); r.Rejected? ==> r.reason == UnsupportedShape
  {
    PrefixIs(c, d);
    SubsequenceIs(c, d);
    hide PrefixOf, SubsequenceOf, Unmatched, MatchCount;
  }

  lemma CountVerdict(cur: int, des: int, allowDrop: bool)
    ensures CountPlan(cur, des, allowDrop).Planned?
  {
  }

  lemma NamesAre(c: seq<PartDef>, d: seq<PartDef>)
    ensures SameNames(c, d) <==> NamesLineUp(c, d)
    ensures NamesLineUp(c, d) ==> |c| == |d|
  {
  }

  lemma AllAlike(c: seq<PartDef>, d: seq<PartDef>)
    requires |c| == |d|
    ensures FirstChanged(c, d, 0) == |c| <==> PrefixOf(c, d)
  {
    forall a, b ensures DefEqual(a, b) <==> Alike(a, b) { AlikeIs(a, b); }
    hide DefEqual, Alike;
  }

  // A clause on one side only, and the same text on both.
  lemma ClauseVerdict(current: Option<Clause>, desired: Option<Clause>, allowDrop: bool)
    requires desired.Some? ==> Uniform(desired.value.option.defs)
    ensures var r := Plan(current, desired, allowDrop);
      (r == Rejected(FirstTimePartitioning) <==> current.None? && desired.Some?) &&
      (r == Rejected(RemovePartitioning) <==> current.Some? && desired.None?) &&
      (current.Some? && desired.Some? && current.value.text != desired.value.text ==>
        r == PlanOptions(current.value.option, desired.value.option, allowDrop)) &&
      (current.None? && desired.None? ==> r == Planned([], [])) &&
      (current.Some? && desired.Some? && current.value.text == desired.value.text ==> r == Planned([], []))
  {
    if current.Some? && desired.Some? {
      RefusalIs(current.value.option, desired.value.option, allowDrop);
    }
    hide PlanOptions, Uniform;
  }

  /* ----- what a plan that runs leaves behind ----- */

  // Name in any letter case, options, bound, and the same set of constants.
  ghost predicate ReadsAs(a: PartDef, b: PartDef) {
    Fold(a.name) == Fold(b.name) && a.options == b.options &&
    (a.range.LessThan? ==> b.range.LessThan? && a.range.bound == b.range.bound) &&
    (a.range.In? ==> b.range.In? && forall v :: v in a.range.values <==> v in b.range.values)
  }

  lemma AlikeReads(a: PartDef, b: PartDef)
    requires DefEqual(a, b)
    ensures ReadsAs(a, b)
  {
    if a.range.In? {
      assert multiset(a.range.values) == multiset(b.range.values);
      forall v ensures v in a.range.values <==> v in b.range.values {
        assert v in a.range.values <==> v in multiset(a.range.values);
        assert v in b.range.values <==> v in multiset(b.range.values);
      }
    }
  }

  // When the statements of a plan have run, the table's clause is desired's: the scheme, which no statement touches,
  // and partition by partition name, bound or constants, and options.
  lemma EndsAsDesired(ev: Eval, cur: PartOption, des: PartOption, allowDrop: bool, t: Table, stmts: seq<Stmt>)
    requires (cur.kind == RangeType || cur.kind == ListType) && t.layout == cur.defs
    requires Legal(ev, cur.kind, t.layout) && Stored(ev, t) && Comparable(ev, cur.kind, des.defs)
    requires PlanOptions(cur, des, allowDrop) == Planned(stmts, []) && Run(ev, cur.kind, t, stmts).Some?
    ensures var end := cur.(defs := Run(ev, cur.kind, t, stmts).value.layout);
      end.kind == des.kind && end.linear == des.linear && end.keyAlgorithm == des.keyAlgorithm &&
      end.expr == des.expr &&
      |end.columns| == |des.columns| &&
      (forall i :: 0 <= i < |end.columns| ==> Fold(end.columns[i]) == Fold(des.columns[i])) &&
      |end.defs| == |des.defs| && forall i :: 0 <= i < |end.defs| ==> ReadsAs(end.defs[i], des.defs[i])
  {
    PlanDelivers(ev, cur, des, allowDrop, t, stmts, []);
    SchemeIs(cur, des);
    var end := Run(ev, cur.kind, t, stmts).value.layout;
    assert SameLayout(end, des.defs);
    hide Run, ReadsAs, DefEqual, Legal, Stored, Comparable, RewritePlan, AddDropPlan, CatchAllInsert, SameNames;
    forall i | 0 <= i < |end| ensures ReadsAs(end[i], des.defs[i]) { AlikeReads(end[i], des.defs[i]); }
  }

  /* ----- HASH and KEY: only the number of partitions ----- */

  // ADD PARTITION PARTITIONS n and COALESCE PARTITION n; the last partition cannot go (Error 1508).
  ghost function CountAfter(n: int, ss: seq<Stmt>): Option<int>
    decreases |ss|
  {
    if ss == [] then Some(n) else
    match ss[0]
    case AddPartitions(m) => if m < 1 then None else CountAfter(n + m, ss[1..])
    case Coalesce(m) => if m < 1 || n - m < 1 then None else CountAfter(n - m, ss[1..])
    case _ => None
  }

  // A clause without a count has one partition, and is parsed as a number below one.
  function CountOf(n: int): int {
    if n >= 1 then n else 1
  }

  // The count ends as desired exactly when both sides state it, or both leave it out in the same way.
  lemma CountPlanDelivers(cur: PartOption, des: PartOption)
    requires (cur.kind == HashType || cur.kind == KeyType) && PlanOptions(cur, des, true).Planned?
    ensures var plan := PlanOptions(cur, des, true);
      plan.skipped == [] &&
      (CountAfter(CountOf(cur.partitions), plan.stmts) == Some(CountOf(des.partitions)) <==>
       (cur.partitions >= 1 && des.partitions >= 1) || cur.partitions == des.partitions)
    ensures var free, held := PlanOptions(cur, des, true), PlanOptions(cur, des, false);
      if des.partitions < cur.partitions then held == Planned([], free.stmts) else held == free
  {
    hide DistinctValues, AdjacentAscend, SameHeader, Bounds, Listings;
    var n, plan := CountOf(cur.partitions), PlanOptions(cur, des, true);
    assert CountAfter(n, []) == Some(n);
    if plan.stmts != [] {
      assert plan.stmts[1..] == [];
      var m := des.partitions - cur.partitions;
      assert CountAfter(n + m, []) == Some(n + m);
    }
  }

  // Four partitions are to replace the one a clause without a count has: too many are added.
  lemma UnstatedCountIsMisread(cur: PartOption, des: PartOption)
    requires cur.kind == HashType && cur.partitions < 1 && des == cur.(partitions := 4) && cur.defs == []
    ensures var plan := PlanOptions(cur, des, true);
      plan.Planned? && CountAfter(1, plan.stmts).Some? && CountAfter(1, plan.stmts).value > 4
  {
    SchemeIs(cur, des);
    assert Bounds(des.defs) == [] && Listings(des.defs) == [];
    var m := 4 - cur.partitions;
    assert CountAfter(1 + m, []) == Some(1 + m);
    assert [AddPartitions(m)][1..] == [];
  }

  /* ----- which partitions are rewritten ----- */

  // REORGANIZE names the catalog's partitions from..to and states, for each, desired's definition where the two differ
  // and the catalog's own where they do not.
  ghost predicate Restates(cur: seq<PartDef>, des: seq<PartDef>, from: nat, to: nat, s: Stmt)
    requires from <= to < |cur| == |des|
  {
    s.Reorganize? && |s.oldNames| == |s.into| == to + 1 - from &&
    forall k :: 0 <= k < |s.into| ==>
      s.oldNames[k] == cur[from + k].name &&
      (Alike(cur[from + k], des[from + k]) ==> s.into[k] == cur[from + k]) &&
      (!Alike(cur[from + k], des[from + k]) ==> s.into[k] == des[from + k])
  }

  lemma RunRestates(cur: seq<PartDef>, des: seq<PartDef>, from: nat, to: nat)
    requires from <= to < |cur| == |des|
    ensures Restates(cur, des, from, to, ReorganizeRun(cur, des, from, to))
  {
    forall k | from <= k <= to ensures DefEqual(cur[k], des[k]) <==> Alike(cur[k], des[k]) {
      AlikeIs(cur[k], des[k]);
    }
    hide DefEqual, Alike;
  }

  // One REORGANIZE of the neighbouring partitions from..to: each is changed, but for the last one, which may be there
  // because the bound below it has moved.
  ghost predicate Rewrites(cur: seq<PartDef>, des: seq<PartDef>, from: nat, to: nat, cascade: bool, s: Stmt)
    requires |cur| == |des|
  {
    from <= to < |cur| && Restates(cur, des, from, to, s) &&
    (forall k :: from <= k < to ==> !Alike(cur[k], des[k])) &&
    (!Alike(cur[to], des[to]) || (cascade && from < to && !SameRange(cur[to - 1].range, des[to - 1].range)))
  }

  lemma RewritesIs(cur: seq<PartDef>, des: seq<PartDef>, i: nat, to: nat, cascade: bool)
    requires i <= to < |cur| == |des| && forall k :: i <= k < to ==> !DefEqual(cur[k], des[k])
    requires !DefEqual(cur[to], des[to]) || (cascade && i < to && !SameRange(cur[to - 1].range, des[to - 1].range))
    ensures Rewrites(cur, des, i, to, cascade, ReorganizeRun(cur, des, i, to))
  {
    forall k | i <= k <= to ensures DefEqual(cur[k], des[k]) <==> Alike(cur[k], des[k]) { AlikeIs(cur[k], des[k]); }
    RunRestates(cur, des, i, to);
    hide DefEqual, Alike, SameRange, ReorganizeRun, Restates;
  }

  lemma RunIsChanged(cur: seq<PartDef>, des: seq<PartDef>, i: nat)
    requires i < |cur| == |des| && !DefEqual(cur[i], des[i])
    ensures var last := RunLast(cur, des, i); Rewrites(cur, des, i, last, false, ReorganizeRun(cur, des, i, last))
    ensures var last := CascadeLast(cur, des, RunLast(cur, des, i));
      Rewrites(cur, des, i, last, true, ReorganizeRun(cur, des, i, last))
  {
    hide DefEqual, Rewrites, RunLast, SameRange, ReorganizeRun;
    RewritesIs(cur, des, i, RunLast(cur, des, i), false);
    RewritesIs(cur, des, i, CascadeLast(cur, des, RunLast(cur, des, i)), true);
  }

  ghost predicate Rewritten(cur: seq<PartDef>, des: seq<PartDef>, cascade: bool, s: Stmt)
    requires |cur| == |des|
  {
    exists from: nat, to: nat :: Rewrites(cur, des, from, to, cascade, s)
  }

  // Nothing that may stay is rewritten: each statement of the RANGE script starts at a changed partition and holds
  // changed ones only, but for the one the cascade adds.
  lemma {:induction false} RangeRewritesChanged(cur: seq<PartDef>, des: seq<PartDef>, i: nat)
    requires i <= |cur| == |des|
    ensures forall s :: s in RangeScript(cur, des, i) ==> Rewritten(cur, des, true, s)
    decreases |cur| - i
  {
    hide DefEqual, Rewrites, ReorganizeRun, RangeScript;
    if i == |cur| {
      RangeScriptEnd(cur, des);
    } else if DefEqual(cur[i], des[i]) {
      RangeScriptSkip(cur, des, i);
      RangeRewritesChanged(cur, des, i + 1);
    } else {
      RangeScriptStep(cur, des, i);
      RunIsChanged(cur, des, i);
      RangeRewritesChanged(cur, des, CascadeLast(cur, des, RunLast(cur, des, i)) + 1);
    }
  }

  lemma {:induction false} ListRewritesChanged(cur: seq<PartDef>, des: seq<PartDef>, i: nat)
    requires i <= |cur| == |des|
    ensures forall s :: s in ListScript(cur, des, i) ==> Rewritten(cur, des, false, s)
    decreases |cur| - i
  {
    hide DefEqual, Rewrites, ReorganizeRun, ListScript;
    if i == |cur| {
      ListScriptEnd(cur, des);
    } else if DefEqual(cur[i], des[i]) {
      ListScriptSkip(cur, des, i);
      ListRewritesChanged(cur, des, i + 1);
    } else {
      ListScriptStep(cur, des, i);
      RunIsChanged(cur, des, i);
      ListRewritesChanged(cur, des, RunLast(cur, des, i) + 1);
    }
  }

  // Every changed partition keeps the constants it has.
  ghost predicate ConstantsStay(cur: seq<PartDef>, des: seq<PartDef>)
    requires |cur| == |des|
  {
    forall i :: 0 <= i < |cur| && !Alike(cur[i], des[i]) && cur[i].range.In? ==>
      des[i].range.In? && forall v :: v in cur[i].range.values ==> v in des[i].range.values
  }

  lemma GrowthIs(cur: seq<PartDef>, des: seq<PartDef>)
    requires |cur| == |des|
    ensures ChangedSlotsGrow(cur, des) <==> ConstantsStay(cur, des)
  {
    forall i | 0 <= i < |cur| ensures DefEqual(cur[i], des[i]) <==> Alike(cur[i], des[i]) { AlikeIs(cur[i], des[i]); }
    hide DefEqual, Alike;
  }

  // The one statement of a span, from the first changed partition to the last one.
  ghost predicate SpansChanges(cur: seq<PartDef>, des: seq<PartDef>, s: Stmt)
    requires |cur| == |des|
  {
    exists from: nat, to: nat ::
      from <= to < |cur| && Restates(cur, des, from, to, s) && !Alike(cur[from], des[from]) &&
      !Alike(cur[to], des[to]) &&
      forall k :: 0 <= k < |cur| && (k < from || to < k) ==> Alike(cur[k], des[k])
  }

  // With lined-up names RANGE partitions, and LIST partitions that keep their constants, are rewritten run by run;
  // only LIST constants on the move take one statement over everything between the first and the last change.
  lemma RewritesAreLocal(cur: PartOption, des: PartOption, allowDrop: bool, stmts: seq<Stmt>, skipped: seq<Stmt>)
    requires PlanOptions(cur, des, allowDrop) == Planned(stmts, skipped) && NamesLineUp(cur.defs, des.defs)
    requires cur.kind == RangeType || cur.kind == ListType
    ensures cur.kind == RangeType ==> forall s :: s in stmts ==> Rewritten(cur.defs, des.defs, true, s)
    ensures cur.kind == ListType && ConstantsStay(cur.defs, des.defs) ==>
      forall s :: s in stmts ==> Rewritten(cur.defs, des.defs, false, s)
    ensures cur.kind == ListType && !ConstantsStay(cur.defs, des.defs) ==>
      |stmts| == 1 && SpansChanges(cur.defs, des.defs, stmts[0])
  {
    var c, d := cur.defs, des.defs;
    hide *;
    NamesAre(c, d);
    PlanOptionsAre(cur, des, allowDrop);
    RangeRewritesChanged(c, d, 0);
    ListRewritesChanged(c, d, 0);
    GrowthIs(c, d);
    RewriteIs(cur.kind, c, d, allowDrop);
    if FirstChanged(c, d, 0) < |c| {
      SpanIs(c, d);
    } else {
      NothingChanged(c, d);
    }
  }

  lemma RewriteIs(kind: Strategy, c: seq<PartDef>, d: seq<PartDef>, allowDrop: bool)
    requires |c| == |d| && (kind == RangeType || kind == ListType)
    ensures var first, r := FirstChanged(c, d, 0), RewritePlan(kind, c, d, allowDrop);
      r.Planned? ==>
        r == Planned(
          if first == |c| then []
          else if kind == RangeType then RangeScript(c, d, 0)
          else if ChangedSlotsGrow(c, d) then ListScript(c, d, 0)
          else [ReorganizeRun(c, d, first, LastChanged(c, d, |c|))], [])
  {
    hide DefEqual, RangeScript, ListScript, ReorganizeRun, ChangedSlotsGrow, Discards;
  }

  lemma SpanIs(c: seq<PartDef>, d: seq<PartDef>)
    requires |c| == |d| && FirstChanged(c, d, 0) < |c|
    ensures SpansChanges(c, d, ReorganizeRun(c, d, FirstChanged(c, d, 0), LastChanged(c, d, |c|)))
  {
    var first, last := FirstChanged(c, d, 0), LastChanged(c, d, |c|);
    forall k | 0 <= k < |c| ensures DefEqual(c[k], d[k]) <==> Alike(c[k], d[k]) { AlikeIs(c[k], d[k]); }
    RunRestates(c, d, first, last);
    hide DefEqual, Alike, FirstChanged, LastChanged, ReorganizeRun, Restates;
  }

  lemma NothingChanged(c: seq<PartDef>, d: seq<PartDef>)
    requires |c| == |d| && FirstChanged(c, d, 0) == |c|
    ensures ConstantsStay(c, d)
  {
    forall k | 0 <= k < |c| ensures Alike(c[k], d[k]) {
      assert DefEqual(c[k], d[k]);
      AlikeIs(c[k], d[k]);
    }
    hide Alike, DefEqual;
  }

  // Appending adds desired's partitions behind the common ones as they are; slicing restates the catalog's own last
  // partition behind the new ones.
  lemma GrowthStates(cur: PartOption, des: PartOption, allowDrop: bool, stmts: seq<Stmt>, skipped: seq<Stmt>)
    requires PlanOptions(cur, des, allowDrop) == Planned(stmts, skipped)
    requires (cur.kind == RangeType || cur.kind == ListType) && !NamesLineUp(cur.defs, des.defs)
    ensures var c, d := cur.defs, des.defs;
      SlicesLast(cur, des) ==>
        0 < |c| < |d| &&
        stmts == [Reorganize([c[|c| - 1].name], d[|c| - 1..|d| - 1] + [c[|c| - 1]])] && skipped == []
    ensures var c, d := cur.defs, des.defs;
      !SlicesLast(cur, des) && PrefixOf(c, d) && |c| < |d| ==> stmts == [AddPartition(d[|c|..])] && skipped == []
  {
    hide *;
    var c, d := cur.defs, des.defs;
    NamesAre(c, d);
    SliceIs(cur, des);
    SliceNeedsMore(cur, des);
    PlanOptionsAre(cur, des, allowDrop);
    if 0 < |c| < |d| { CatchAllStates(c, d); }
    if PrefixOf(c, d) && |c| < |d| { AddStates(c, d, allowDrop); }
  }

  lemma CatchAllStates(c: seq<PartDef>, d: seq<PartDef>)
    requires 0 < |c| < |d|
    ensures CatchAllStmt(c, d) == Reorganize([c[|c| - 1].name], d[|c| - 1..|d| - 1] + [c[|c| - 1]])
  {
  }

  lemma AddStates(c: seq<PartDef>, d: seq<PartDef>, allowDrop: bool)
    requires PrefixOf(c, d) && |c| < |d|
    ensures AddDropPlan(c, d, allowDrop) == Planned([AddPartition(d[|c|..])], [])
  {
    PrefixIs(c, d);
    NoDropsIffPrefix(c, d);
    hide PrefixOf, SameLayout, Unmatched, MatchCount;
  }

  lemma SliceNeedsMore(cur: PartOption, des: PartOption)
    ensures SlicesLast(cur, des) ==> 0 < |cur.defs| < |des.defs|
    ensures PrefixOf(cur.defs, des.defs) ==> |cur.defs| <= |des.defs|
  {
  }
}
