/** The partition diff as the program computes it, loop by loop, proved against PartitionSpec. */
module PartitionDiff {
  import opened Common
  import opened PartitionModel
  import opened PartitionSpec

  datatype SharedValue = SharedValue(value: Value, slotA: string, slotB: string)

  ghost predicate ListedTwice(ls: seq<Listing>, s: SharedValue) {
    exists a, b :: 0 <= a < b < |ls| && ls[a] == Listing(s.value, s.slotA) && ls[b] == Listing(s.value, s.slotB)
  }

  // The scan's owner map: the constants seen so far, each with the partition it was seen in.
  ghost predicate OwnersOf(owner: map<Value, string>, ls: seq<Listing>) {
    (forall v :: v in owner ==> Listing(v, owner[v]) in ls) &&
    forall a :: 0 <= a < |ls| ==> ls[a].value in owner
  }

  lemma {:induction false} ListingsPrefix(l: seq<PartDef>, i: nat)
    requires i <= |l|
    ensures Listings(l[..i]) <= Listings(l)
    decreases |l| - i
  {
    if i == |l| {
      assert l[..i] == l;
    } else {
      assert l[..i + 1][..i] == l[..i];
      ListingsPrefix(l, i + 1);
    }
  }

  // Recording one more constant that is not owned yet.
  lemma OwnersStep(owner: map<Value, string>, ls: seq<Listing>, x: Listing)
    requires OwnersOf(owner, ls) && DistinctValues(ls) && x.value !in owner
    ensures OwnersOf(owner[x.value := x.slot], ls + [x]) && DistinctValues(ls + [x])
  {
    var owner' := owner[x.value := x.slot];
    forall v | v in owner' ensures Listing(v, owner'[v]) in ls + [x] {
      if v == x.value { assert (ls + [x])[|ls|] == x; } else { assert Listing(v, owner[v]) in ls; }
    }
  }

  // A constant that is owned already is listed twice.
  lemma OwnersClash(owner: map<Value, string>, ls: seq<Listing>, x: Listing, all: seq<Listing>)
    requires OwnersOf(owner, ls) && x.value in owner && ls + [x] <= all
    ensures ListedTwice(all, SharedValue(x.value, owner[x.value], x.slot)) && !DistinctValues(all)
  {
    var a :| 0 <= a < |ls| && ls[a] == Listing(x.value, owner[x.value]);
    assert all[a] == (ls + [x])[a] && all[|ls|] == (ls + [x])[|ls|];
  }

  // One constant more, as listed so far.
  lemma ListingStep(d: PartDef, before: seq<Listing>, all: seq<Listing>, p: nat)
    requires d.range.In? && p < |d.range.values| && before + ListingsOf(d) <= all
    ensures var mine, x := ListingsOf(d), Listing(d.range.values[p], d.name);
      p < |mine| && before + mine[..p + 1] == (before + mine[..p]) + [x] && (before + mine[..p]) + [x] <= all
  {
    var mine := ListingsOf(d);
    assert before + mine[..p + 1] <= before + mine;
  }

  // The scan of one partition's constants.
  method ScanSlot(d: PartDef, own: map<Value, string>, ghost before: seq<Listing>, ghost all: seq<Listing>)
    returns (owner: map<Value, string>, dup: Option<SharedValue>)
    requires OwnersOf(own, before) && DistinctValues(before)
    requires before + ListingsOf(d) <= all
    ensures dup.None? ==> OwnersOf(owner, before + ListingsOf(d)) && DistinctValues(before + ListingsOf(d))
    ensures dup.Some? ==> ListedTwice(all, dup.value) && !DistinctValues(all)
  {
    owner, dup := own, None;
    ghost var mine := ListingsOf(d);
    if !d.range.In? { assert before + mine == before; return; }
    var vs := d.range.values;
    assert before + mine[..0] == before;
    hide OwnersOf, DistinctValues, ListedTwice;
    for p := 0 to |vs|
      invariant OwnersOf(owner, before + mine[..p]) && DistinctValues(before + mine[..p])
    {
      var key := vs[p];
      ghost var x := Listing(key, d.name);
      ListingStep(d, before, all, p);
      if key in owner {
        OwnersClash(owner, before + mine[..p], x, all);
        return owner, Some(SharedValue(key, owner[key], d.name));
      }
      OwnersStep(owner, before + mine[..p], x);
      owner := owner[key := d.name];
    }
    assert mine[..|vs|] == mine;
  }

  method FindDuplicateListValue(defs: seq<PartDef>) returns (dup: Option<SharedValue>)
    ensures dup.None? <==> DistinctValues(Listings(defs))
    ensures dup.Some? ==> ListedTwice(Listings(defs), dup.value)
  {
    var owner: map<Value, string> := map[];
    for i := 0 to |defs|
      invariant OwnersOf(owner, Listings(defs[..i])) && DistinctValues(Listings(defs[..i]))
    {
      assert defs[..i + 1][..i] == defs[..i];
      ListingsPrefix(defs, i + 1);
      owner, dup := ScanSlot(defs[i], owner, Listings(defs[..i]), Listings(defs));
      if dup.Some? { return; }
    }
    assert defs[..|defs|] == defs;
    return None;
  }

  datatype RangeError =
    TwoMaxvalues(a: string, b: string) | AfterMaxvalue(a: string, b: string) | NotAscending(a: string, b: string)

  lemma BoundsStep(l: seq<PartDef>, i: nat)
    requires i < |l|
    ensures Bounds(l[..i + 1]) == Bounds(l[..i]) + if l[i].range.LessThan? then [l[i].range.bound] else []
  {
    assert l[..i + 1][..i] == l[..i];
  }

  lemma {:induction false} BoundsPrefix(l: seq<PartDef>, i: nat)
    requires i <= |l|
    ensures Bounds(l[..i]) <= Bounds(l)
    decreases |l| - i
  {
    if i == |l| {
      assert l[..i] == l;
    } else {
      BoundsStep(l, i);
      BoundsPrefix(l, i + 1);
    }
  }

  // One more bound keeps the order exactly when it ascends from the previous one.
  lemma AscendStep(bs: seq<Bound>, c: Bound, all: seq<Bound>)
    requires AdjacentAscend(bs) && bs + [c] <= all
    ensures bs == [] || Ascends(bs[|bs| - 1], c) ==> AdjacentAscend(bs + [c])
    ensures bs != [] && !Ascends(bs[|bs| - 1], c) ==> !AdjacentAscend(all)
  {
    if bs != [] && !Ascends(bs[|bs| - 1], c) {
      assert all[|bs| - 1] == (bs + [c])[|bs| - 1] && all[|bs|] == (bs + [c])[|bs|];
    }
  }

  method ValidateDesiredRangeMonotonic(defs: seq<PartDef>) returns (err: Option<RangeError>)
    ensures err.None? <==> AdjacentAscend(Bounds(defs))
  {
    var hasPrev, prevMax, prevIsInt := false, false, false;
    var prevName, prevForm, prevInt := "", MaxValue, 0;
    ghost var bs: seq<Bound> := [];
    for i := 0 to |defs|
      invariant bs == Bounds(defs[..i]) && AdjacentAscend(bs)
      invariant hasPrev == (bs != []) && (prevMax ==> hasPrev)
      invariant hasPrev ==> prevForm == bs[|bs| - 1] && prevMax == prevForm.MaxValue? && prevIsInt == prevForm.Int?
      invariant hasPrev && prevIsInt ==> prevInt == prevForm.value
    {
      BoundsStep(defs, i);
      if !defs[i].range.LessThan? { continue; }
      var curName, curForm := defs[i].name, defs[i].range.bound;
      BoundsPrefix(defs, i + 1);
      AscendStep(bs, curForm, Bounds(defs));
      bs := bs + [curForm];
      if curForm.MaxValue? {
        if prevMax { return Some(TwoMaxvalues(prevName, curName)); }
        prevName, prevForm, prevMax, prevIsInt, hasPrev := curName, MaxValue, true, false, true;
        continue;
      }
      if prevMax { return Some(AfterMaxvalue(curName, prevName)); }
      var curInt, curIsInt := if curForm.Int? then curForm.value else 0, curForm.Int?;
      if hasPrev {
        if prevIsInt && curIsInt {
          if curInt <= prevInt { return Some(NotAscending(curName, prevName)); }
        } else if curForm == prevForm {
          return Some(NotAscending(prevName, curName));
        }
      }
      prevName, prevForm, prevMax, prevInt, prevIsInt, hasPrev := curName, curForm, false, curInt, curIsInt, true;
    }
    assert defs[..|defs|] == defs;
    return None;
  }

  datatype DiscardedValue = DiscardedValue(value: Value, owner: string)

  method CollectListValues(defs: seq<PartDef>) returns (out: set<Value>)
    ensures forall v :: v in out <==> Owned(defs, v)
  {
    out := {};
    for i := 0 to |defs|
      invariant forall v :: v in out <==> Owned(defs[..i], v)
    {
      ghost var before := out;
      if defs[i].range.In? {
        var vs := defs[i].range.values;
        for p := 0 to |vs|
          invariant forall v :: v in out <==> v in before || v in vs[..p]
        {
          out := out + {vs[p]};
        }
        assert vs[..|vs|] == vs;
      }
      forall v ensures Owned(defs[..i + 1], v) <==>
        Owned(defs[..i], v) || (defs[i].range.In? && v in defs[i].range.values) {
        if Owned(defs[..i], v) {
          var k :| 0 <= k < i && defs[..i][k].range.In? && v in defs[..i][k].range.values;
          assert defs[..i + 1][k] == defs[..i][k];
        }
        if Owned(defs[..i + 1], v) {
          var k :| 0 <= k < i + 1 && defs[..i + 1][k].range.In? && v in defs[..i + 1][k].range.values;
          assert k < i ==> defs[..i][k] == defs[..i + 1][k];
        }
        if defs[i].range.In? && v in defs[i].range.values { assert defs[..i + 1][i] == defs[i]; }
      }
    }
    assert defs[..|defs|] == defs;
  }

  lemma ListingAt(l: seq<PartDef>, i: nat, p: nat)
    requires i < |l| && l[i].range.In? && p < |l[i].range.values|
    ensures Listing(l[i].range.values[p], l[i].name) in Listings(l)
    ensures Owned(l, l[i].range.values[p])
  {
    var x := Listing(l[i].range.values[p], l[i].name);
    ListingsPrefix(l, i + 1);
    assert l[..i + 1][..i] == l[..i];
    assert ListingsOf(l[i])[p] == x;
    assert Listings(l)[|Listings(l[..i])| + p] == Listings(l[..i + 1])[|Listings(l[..i])| + p] == x;
  }

  method FindDiscardedListValue(cur: seq<PartDef>, des: seq<PartDef>) returns (d: Option<DiscardedValue>)
    ensures d.Some? <==> Discards(cur, des)
    ensures d.Some? ==> !Owned(des, d.value.value)
    ensures d.Some? ==> Listing(d.value.value, d.value.owner) in Listings(cur)
  {
    var desValues := CollectListValues(des);
    for i := 0 to |cur|
      invariant forall k, q :: 0 <= k < i && cur[k].range.In? && 0 <= q < |cur[k].range.values| ==>
        cur[k].range.values[q] in desValues
    {
      if cur[i].range.In? {
        var vs := cur[i].range.values;
        for p := 0 to |vs|
          invariant forall q :: 0 <= q < p ==> vs[q] in desValues
        {
          if vs[p] !in desValues {
            ListingAt(cur, i, p);
            return Some(DiscardedValue(vs[p], cur[i].name));
          }
        }
      }
    }
    return None;
  }

  method ValueListIsSuperset(superset: PartDef, subset: PartDef) returns (r: bool)
    ensures r <==> Grows(subset.range, superset.range)
  {
    if !subset.range.In? { return true; }
    if !superset.range.In? { return false; }
    var have: set<Value> := {};
    var sup := superset.range.values;
    for p := 0 to |sup|
      invariant forall v :: v in have <==> v in sup[..p]
    {
      have := have + {sup[p]};
    }
    assert sup[..|sup|] == sup;
    var sub := subset.range.values;
    for p := 0 to |sub|
      invariant forall v :: v in sub[..p] ==> v in sup
    {
      if sub[p] !in have { return false; }
    }
    assert sub[..|sub|] == sub;
    return true;
  }

  method ListChangedSlotsAreSuperset(cur: seq<PartDef>, des: seq<PartDef>, matched: seq<bool>) returns (r: bool)
    requires |cur| == |des| == |matched|
    requires forall i :: 0 <= i < |cur| ==> matched[i] == DefEqual(cur[i], des[i])
    ensures r <==> ChangedSlotsGrow(cur, des)
  {
    for i := 0 to |cur|
      invariant forall k :: 0 <= k < i && !DefEqual(cur[k], des[k]) ==> Grows(cur[k].range, des[k].range)
    {
      if matched[i] { continue; }
      var grows := ValueListIsSuperset(des[i], cur[i]);
      if !grows { return false; }
    }
    return true;
  }

  method FormatReorganizeRun(cur: seq<PartDef>, des: seq<PartDef>, first: nat, last: nat, matched: seq<bool>)
    returns (s: Stmt)
    requires first <= last < |cur| == |des| == |matched|
    requires forall i :: 0 <= i < |cur| ==> matched[i] == DefEqual(cur[i], des[i])
    ensures s == ReorganizeRun(cur, des, first, last)
  {
    var names: seq<string>, into: seq<PartDef> := [], [];
    for i := first to last + 1
      invariant names == NamesOf(cur[first..i])
    {
      names := names + [cur[i].name];
    }
    for i := first to last + 1
      invariant into == Slots(cur, des, first, i)
    {
      var def := des[i];
      if matched[i] { def := cur[i]; }
      assert Slots(cur, des, first, i + 1) == Slots(cur, des, first, i) + [SlotDef(cur, des, i)];
      into := into + [def];
    }
    s := Reorganize(names, into);
  }

  method EndOfRun(cur: seq<PartDef>, des: seq<PartDef>, i: nat, matched: seq<bool>) returns (runLast: nat)
    requires i < |cur| == |des| == |matched|
    requires forall k :: 0 <= k < |cur| ==> matched[k] == DefEqual(cur[k], des[k])
    ensures i <= runLast < |cur| && runLast == RunLast(cur, des, i)
  {
    runLast := i;
    while runLast + 1 < |cur| && !matched[runLast + 1]
      invariant i <= runLast < |cur|
      invariant RunLast(cur, des, runLast) == RunLast(cur, des, i)
    {
      runLast := runLast + 1;
    }
  }

  method RangeRuns(cur: seq<PartDef>, des: seq<PartDef>, matched: seq<bool>) returns (stmts: seq<Stmt>)
    requires |cur| == |des| == |matched|
    requires forall i :: 0 <= i < |cur| ==> matched[i] == DefEqual(cur[i], des[i])
    ensures stmts == RangeScript(cur, des, 0)
  {
    hide DefEqual, SameRange, ReorganizeRun, RunLast;
    stmts := [];
    var i := 0;
    while i < |cur|
      invariant 0 <= i <= |cur|
      invariant stmts + RangeScript(cur, des, i) == RangeScript(cur, des, 0)
    {
      if matched[i] { i := i + 1; continue; }
      var runFirst := i;
      var runLast := EndOfRun(cur, des, i, matched);
      if runLast < |cur| - 1 && !SameRange(cur[runLast].range, des[runLast].range) {
        runLast := runLast + 1;
      }
      var s := FormatReorganizeRun(cur, des, runFirst, runLast, matched);
      ghost var rest := RangeScript(cur, des, runLast + 1);
      assert RangeScript(cur, des, i) == [s] + rest;
      assert stmts + ([s] + rest) == (stmts + [s]) + rest;
      stmts := stmts + [s];
      i := runLast + 1;
    }
  }

  method ListRuns(cur: seq<PartDef>, des: seq<PartDef>, matched: seq<bool>) returns (stmts: seq<Stmt>)
    requires |cur| == |des| == |matched|
    requires forall i :: 0 <= i < |cur| ==> matched[i] == DefEqual(cur[i], des[i])
    ensures stmts == ListScript(cur, des, 0)
  {
    hide DefEqual, SameRange, ReorganizeRun, RunLast;
    stmts := [];
    var i := 0;
    while i < |cur|
      invariant 0 <= i <= |cur|
      invariant stmts + ListScript(cur, des, i) == ListScript(cur, des, 0)
    {
      if matched[i] { i := i + 1; continue; }
      var runFirst := i;
      var runLast := EndOfRun(cur, des, i, matched);
      var s := FormatReorganizeRun(cur, des, runFirst, runLast, matched);
      ghost var rest := ListScript(cur, des, runLast + 1);
      assert ListScript(cur, des, i) == [s] + rest;
      assert stmts + ([s] + rest) == (stmts + [s]) + rest;
      stmts := stmts + [s];
      i := runLast + 1;
    }
  }

  lemma LastChangedUnique(cur: seq<PartDef>, des: seq<PartDef>, l: nat)
    requires l < |cur| == |des| && !DefEqual(cur[l], des[l])
    requires forall k :: l < k < |cur| ==> DefEqual(cur[k], des[k])
    ensures LastChanged(cur, des, |cur|) == l
  {
    var r := LastChanged(cur, des, |cur|);
    assert !(r < l) && !(l < r);
  }

  // The single walk that records matched slots and the first and last changed one (-1: none).
  method MatchSlots(cur: seq<PartDef>, des: seq<PartDef>) returns (matched: seq<bool>, first: int, last: int)
    requires |cur| == |des|
    ensures |matched| == |cur| && forall k :: 0 <= k < |cur| ==> matched[k] == DefEqual(cur[k], des[k])
    ensures first < 0 ==> FirstChanged(cur, des, 0) == |cur|
    ensures first >= 0 ==> first <= last < |cur| && !matched[first] && FirstChanged(cur, des, 0) == first
    ensures first >= 0 ==> LastChanged(cur, des, |cur|) == last
  {
    hide DefEqual;
    matched, first, last := [], -1, -1;
    for i := 0 to |cur|
      invariant |matched| == i && forall k :: 0 <= k < i ==> matched[k] == DefEqual(cur[k], des[k])
      invariant -1 <= first
      invariant first == -1 ==> forall k :: 0 <= k < i ==> matched[k]
      invariant first >= 0 ==> first <= last < i && !matched[first] && !matched[last]
      invariant first >= 0 ==> forall k :: 0 <= k < first || last < k < i ==> matched[k]
    {
      matched := matched + [DefEqual(cur[i], des[i])];
      if !matched[i] {
        if first < 0 { first := i; }
        last := i;
      }
    }
    if first >= 0 { LastChangedUnique(cur, des, last); }
  }

  method Rewrite(kind: Strategy, cur: seq<PartDef>, des: seq<PartDef>, allowDrop: bool) returns (r: Outcome)
    requires |cur| == |des|
    ensures r == RewritePlan(kind, cur, des, allowDrop)
  {
    hide DefEqual, Discards, ChangedSlotsGrow, RangeScript, ListScript, ReorganizeRun, FirstChanged, LastChanged;
    var matched, first, last := MatchSlots(cur, des);
    if first < 0 { return Planned([], []); }
    if kind == ListType {
      var dropped := FindDiscardedListValue(cur, des);
      if dropped.Some? && !allowDrop { return Rejected(DiscardsValue); }
    }
    var stmts: seq<Stmt>;
    if kind == RangeType {
      stmts := RangeRuns(cur, des, matched);
    } else {
      var grow := ListChangedSlotsAreSuperset(cur, des, matched);
      if grow {
        stmts := ListRuns(cur, des, matched);
      } else {
        var s := FormatReorganizeRun(cur, des, first, last, matched);
        stmts := [s];
      }
    }
    return Planned(stmts, []);
  }

  ghost function FoldedNames(l: seq<PartDef>): set<string> {
    set i | 0 <= i < |l| :: Fold(l[i].name)
  }

  // Adding one definition adds its folded name.
  lemma FoldedNamesStep(l: seq<PartDef>, i: nat)
    requires i < |l|
    ensures FoldedNames(l[..i + 1]) == FoldedNames(l[..i]) + {Fold(l[i].name)}
  {
    var a, b := FoldedNames(l[..i]), FoldedNames(l[..i + 1]);
    forall s ensures s in b <==> s in a || s == Fold(l[i].name) {
      if s in b {
        var k :| 0 <= k < i + 1 && s == Fold(l[..i + 1][k].name);
        assert k < i ==> l[..i][k] == l[..i + 1][k];
      }
      if s in a { var k :| 0 <= k < i && s == Fold(l[..i][k].name); assert l[..i][k] == l[..i + 1][k]; }
      if s == Fold(l[i].name) { assert l[..i + 1][i] == l[i]; }
    }
  }

  // The seenNames walk of the detector.
  method NamesAreNew(curDefs: seq<PartDef>, candidates: seq<PartDef>) returns (areNew: bool)
    ensures areNew <==> NewNames(curDefs, candidates)
  {
    var seenNames: set<string> := {};
    for i := 0 to |curDefs|
      invariant seenNames == FoldedNames(curDefs[..i])
    {
      FoldedNamesStep(curDefs, i);
      seenNames := seenNames + {Fold(curDefs[i].name)};
    }
    assert curDefs[..|curDefs|] == curDefs;
    for j := 0 to |candidates|
      invariant seenNames == FoldedNames(curDefs) + FoldedNames(candidates[..j])
      invariant NewNames(curDefs, candidates[..j])
    {
      var key := Fold(candidates[j].name);
      if key in seenNames { return false; }
      FoldedNamesStep(candidates, j);
      seenNames := seenNames + {key};
    }
    assert candidates[..|candidates|] == candidates;
    return true;
  }

  method DetectCatchAllInteriorInsert(cur: PartOption, des: PartOption)
    returns (found: bool, catchAll: PartDef, extras: seq<PartDef>)
    ensures found <==> CatchAllInsert(cur, des)
    ensures found ==> catchAll == cur.defs[|cur.defs| - 1] && extras == des.defs[|cur.defs| - 1..|des.defs| - 1]
  {
    found, catchAll, extras := false, PartDef("", NoRange, ""), [];
    if cur.kind != RangeType || |cur.columns| > 0 { return; }
    var curDefs, desDefs := cur.defs, des.defs;
    var n, m := |curDefs|, |desDefs|;
    if n == 0 || m <= n { return; }
    var catCatchAll, desCatchAll := curDefs[n - 1], desDefs[m - 1];
    if !IsMaxvalue(catCatchAll) || !IsMaxvalue(desCatchAll) { return; }
    if !DefEqual(catCatchAll, desCatchAll) { return; }
    for i := 0 to n - 1
      invariant forall k :: 0 <= k < i ==> DefEqual(curDefs[k], desDefs[k])
    {
      if !DefEqual(curDefs[i], desDefs[i]) { return; }
    }
    var candidates := desDefs[n - 1..m - 1];
    var areNew := NamesAreNew(curDefs, candidates);
    if !areNew { return; }
    return true, catCatchAll, candidates;
  }

  // One step of the walk.
  lemma MatchStep(cur: seq<PartDef>, des: seq<PartDef>, i: nat, di: nat)
    requires i < |cur| && di <= |des|
    ensures var rest := cur[i + 1..];
      if di < |des| && DefEqual(cur[i], des[di]) then
        MatchCount(cur[i..], des[di..]) == 1 + MatchCount(rest, des[di + 1..]) &&
        Unmatched(cur[i..], des[di..]) == Unmatched(rest, des[di + 1..])
      else
        MatchCount(cur[i..], des[di..]) == MatchCount(rest, des[di..]) &&
        Unmatched(cur[i..], des[di..]) == [cur[i]] + Unmatched(rest, des[di..])
  {
    var c, d := cur[i..], des[di..];
    assert c[0] == cur[i] && c[1..] == cur[i + 1..];
    if di < |des| { assert d[0] == des[di] && d[1..] == des[di + 1..]; }
    hide DefEqual;
  }

  lemma MatchEnds(cur: seq<PartDef>, des: seq<PartDef>, di: nat)
    requires di <= |des|
    ensures cur[0..] == cur && des[0..] == des
    ensures MatchCount(cur[|cur|..], des[di..]) == 0 && Unmatched(cur[|cur|..], des[di..]) == []
    ensures forall s: seq<PartDef> :: s + [] == s && [] + s == s
  {
  }

  method PartitionByNameOrderPreserving(cur: seq<PartDef>, des: seq<PartDef>)
    returns (drops: seq<PartDef>, adds: seq<PartDef>)
    ensures drops == Unmatched(cur, des) && adds == des[MatchCount(cur, des)..]
  {
    hide *;
    drops := [];
    var di := 0;
    MatchEnds(cur, des, 0);
    for i := 0 to |cur|
      invariant 0 <= di <= |des|
      invariant di + MatchCount(cur[i..], des[di..]) == MatchCount(cur, des)
      invariant drops + Unmatched(cur[i..], des[di..]) == Unmatched(cur, des)
    {
      MatchStep(cur, des, i, di);
      if di < |des| && DefEqual(cur[i], des[di]) {
        di := di + 1;
        continue;
      }
      ghost var rest := Unmatched(cur[i + 1..], des[di..]);
      assert drops + ([cur[i]] + rest) == (drops + [cur[i]]) + rest;
      drops := drops + [cur[i]];
    }
    MatchEnds(cur, des, di);
    adds := [];
    if di < |des| { adds := des[di..]; }
  }

  method AddsAndDrops(cur: seq<PartDef>, des: seq<PartDef>, allowDrop: bool) returns (r: Outcome)
    ensures r == AddDropPlan(cur, des, allowDrop)
  {
    var drops, adds := PartitionByNameOrderPreserving(cur, des);
    if |drops| > 0 && |adds| > 0 { return Rejected(UnsupportedShape); }
    var stmts, disallowed: seq<Stmt> := [], [];
    if |adds| > 0 { stmts := stmts + [AddPartition(adds)]; }
    if |drops| > 0 {
      var names: seq<string> := [];
      for i := 0 to |drops|
        invariant names == NamesOf(drops[..i])
      {
        names := names + [drops[i].name];
      }
      assert drops[..|drops|] == drops;
      var drop := DropPartition(names);
      if allowDrop { stmts := stmts + [drop]; } else { disallowed := disallowed + [drop]; }
    }
    return Planned(stmts, disallowed);
  }

  method DiffPartitions(current: Option<Clause>, desired: Option<Clause>, allowDrop: bool) returns (r: Outcome)
    ensures r == Plan(current, desired, allowDrop)
  {
    if current.None? && desired.None? { return Planned([], []); }
    if current.Some? && desired.Some? && current.value.text == desired.value.text { return Planned([], []); }
    if current.None? { return Rejected(FirstTimePartitioning); }
    if desired.None? { return Rejected(RemovePartitioning); }
    var cur, des := current.value.option, desired.value.option;
    var dup := FindDuplicateListValue(des.defs);
    if dup.Some? { return Rejected(DuplicateValue); }
    var err := ValidateDesiredRangeMonotonic(des.defs);
    if err.Some? { return Rejected(NotIncreasing); }
    if !SameHeader(cur, des) { return Rejected(SchemeDiffers); }
    if cur.kind != RangeType && cur.kind != ListType {
      if cur.partitions == des.partitions { return Planned([], []); }
      if des.partitions > cur.partitions { return Planned([AddPartitions(des.partitions - cur.partitions)], []); }
      var coalesce := Coalesce(cur.partitions - des.partitions);
      if allowDrop { return Planned([coalesce], []); }
      return Planned([], [coalesce]);
    }
    if SameNames(cur.defs, des.defs) {
      r := Rewrite(cur.kind, cur.defs, des.defs, allowDrop);
      return;
    }
    var found, catchAll, extras := DetectCatchAllInteriorInsert(cur, des);
    if found { return Planned([Reorganize([catchAll.name], extras + [catchAll])], []); }
    r := AddsAndDrops(cur.defs, des.defs, allowDrop);
  }
}
