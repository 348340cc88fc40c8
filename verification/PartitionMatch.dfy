/** The greedy order-preserving match behind ADD PARTITION and DROP PARTITION. */
module PartitionMatch {
  import opened Common
  import opened PartitionModel
  import opened PartitionSpec
  import opened PartitionRewrite

  /* ----- optimality ----- */

  // `at` places p's definitions at increasing positions of l.
  ghost predicate PlacedAt(p: seq<PartDef>, l: seq<PartDef>, at: seq<int>) {
    |at| == |p| &&
    (forall i :: 0 <= i < |p| ==> 0 <= at[i] < |l| && DefEqual(l[at[i]], p[i])) &&
    forall i, j :: 0 <= i < j < |p| ==> at[i] < at[j]
  }

  ghost predicate Embeds(p: seq<PartDef>, l: seq<PartDef>) {
    exists at: seq<int> :: PlacedAt(p, l, at)
  }

  function Shift(at: seq<int>, d: int): (r: seq<int>)
    ensures |r| == |at| && forall i :: 0 <= i < |at| ==> r[i] == at[i] + d
  {
    seq(|at|, i requires 0 <= i < |at| => at[i] + d)
  }

  lemma PlacedSkip(p: seq<PartDef>, l: seq<PartDef>, at: seq<int>, d: PartDef)
    requires PlacedAt(p, l, at)
    ensures PlacedAt(p, [d] + l, Shift(at, 1))
  {
    hide DefEqual;
  }

  lemma PlacedTake(p: seq<PartDef>, l: seq<PartDef>, at: seq<int>, d: PartDef, e: PartDef)
    requires PlacedAt(p, l, at) && DefEqual(d, e)
    ensures PlacedAt([e] + p, [d] + l, [0] + Shift(at, 1))
  {
    hide DefEqual;
  }

  lemma PrefixCons(l: seq<PartDef>, m: nat)
    requires l != [] && m < |l|
    ensures l[..m + 1] == [l[0]] + l[1..][..m]
  {
  }

  // The match is found: the first MatchCount desired partitions embed in the catalog.
  lemma {:induction false} MatchEmbeds(cur: seq<PartDef>, des: seq<PartDef>) returns (at: seq<int>)
    ensures PlacedAt(des[..MatchCount(cur, des)], cur, at)
  {
    if cur == [] || des == [] {
      at := [];
    } else {
      hide DefEqual, PlacedAt;
      assert cur == [cur[0]] + cur[1..];
      if DefEqual(cur[0], des[0]) {
        var a := MatchEmbeds(cur[1..], des[1..]);
        var m := MatchCount(cur[1..], des[1..]);
        PlacedTake(des[1..][..m], cur[1..], a, cur[0], des[0]);
        PrefixCons(des, m);
        at := [0] + Shift(a, 1);
      } else {
        var a := MatchEmbeds(cur[1..], des);
        PlacedSkip(des[..MatchCount(cur[1..], des)], cur[1..], a, cur[0]);
        at := Shift(a, 1);
      }
    }
  }

  // No longer prefix embeds: whatever the placement, it matches no more than the greedy walk.
  lemma {:induction false} MatchIsLongest(cur: seq<PartDef>, des: seq<PartDef>, m: nat, at: seq<int>)
    requires m <= |des| && PlacedAt(des[..m], cur, at)
    ensures m <= MatchCount(cur, des)
  {
    if m > 0 {
      assert 0 <= at[0] < |cur|;
      if DefEqual(cur[0], des[0]) {
        TailPlaced(cur, des[..m], at);
        assert des[..m][1..] == des[1..][..m - 1];
        MatchIsLongest(cur[1..], des[1..], m - 1, Shift(at[1..], -1));
      } else {
        forall i | 0 <= i < m ensures 0 < at[i] {
          if i > 0 { assert at[0] < at[i]; } else { assert DefEqual(cur[at[0]], des[..m][0]); }
        }
        var b := Shift(at, -1);
        forall i | 0 <= i < m ensures 0 <= b[i] < |cur[1..]| && DefEqual(cur[1..][b[i]], des[..m][i]) {
          assert cur[1..][b[i]] == cur[at[i]];
        }
        MatchIsLongest(cur[1..], des, m, b);
      }
    }
  }

  lemma TailPlaced(cur: seq<PartDef>, p: seq<PartDef>, at: seq<int>)
    requires p != [] && cur != [] && PlacedAt(p, cur, at)
    ensures PlacedAt(p[1..], cur[1..], Shift(at[1..], -1))
  {
    var b := Shift(at[1..], -1);
    forall i | 0 <= i < |p| - 1 ensures 0 <= b[i] < |cur[1..]| && DefEqual(cur[1..][b[i]], p[1..][i]) {
      assert 0 <= at[0] < at[i + 1] && DefEqual(cur[at[i + 1]], p[i + 1]);
      assert cur[1..][b[i]] == cur[at[i + 1]];
    }
  }

  // The greedy match is optimal: it finds the longest prefix of desired that embeds in the catalog.
  lemma GreedyIsOptimal(cur: seq<PartDef>, des: seq<PartDef>, m: nat)
    requires m <= |des|
    ensures Embeds(des[..m], cur) <==> m <= MatchCount(cur, des)
  {
    if Embeds(des[..m], cur) {
      var at :| PlacedAt(des[..m], cur, at);
      MatchIsLongest(cur, des, m, at);
    }
    if m <= MatchCount(cur, des) {
      var at := MatchEmbeds(cur, des);
      var p := des[..MatchCount(cur, des)];
      assert forall i :: 0 <= i < m ==> p[i] == des[..m][i];
      assert PlacedAt(des[..m], cur, at[..m]);
    }
  }

  // Nothing is dropped exactly when the catalog is a prefix of desired.
  lemma {:induction false} NoDropsIffPrefix(cur: seq<PartDef>, des: seq<PartDef>)
    ensures Unmatched(cur, des) == [] <==> |cur| <= |des| && SameLayout(cur, des[..|cur|])
    ensures Unmatched(cur, des) == [] ==> MatchCount(cur, des) == |cur|
  {
    if cur == [] {
    } else if des != [] && DefEqual(cur[0], des[0]) {
      NoDropsIffPrefix(cur[1..], des[1..]);
      if |cur| <= |des| {
        var c, d := cur[1..], des[1..][..|cur| - 1];
        assert des[..|cur|][1..] == d;
        if SameLayout(c, d) {
          forall i | 0 <= i < |cur| ensures DefEqual(cur[i], des[..|cur|][i]) {
            if i > 0 { assert DefEqual(c[i - 1], d[i - 1]); }
          }
        }
        if SameLayout(cur, des[..|cur|]) {
          forall i | 0 <= i < |c| ensures DefEqual(c[i], d[i]) { assert DefEqual(cur[i + 1], des[..|cur|][i + 1]); }
        }
      }
    }
  }

  // Nothing is added exactly when desired is a subsequence of the catalog.
  lemma NoAddsIffSubsequence(cur: seq<PartDef>, des: seq<PartDef>)
    ensures des[MatchCount(cur, des)..] == [] <==> Embeds(des, cur)
  {
    GreedyIsOptimal(cur, des, |des|);
    assert des[..|des|] == des;
  }

  /* ----- DROP PARTITION keeps exactly the matched partitions ----- */

  function Kept(cur: seq<PartDef>, des: seq<PartDef>): seq<PartDef> {
    if cur == [] || des == [] then []
    else if DefEqual(cur[0], des[0]) then [cur[0]] + Kept(cur[1..], des[1..])
    else Kept(cur[1..], des)
  }

  lemma {:induction false} KeptIsMatched(cur: seq<PartDef>, des: seq<PartDef>)
    ensures SameLayout(Kept(cur, des), des[..MatchCount(cur, des)])
  {
    if cur == [] || des == [] {
    } else if DefEqual(cur[0], des[0]) {
      KeptIsMatched(cur[1..], des[1..]);
      var k, d := Kept(cur, des), des[..MatchCount(cur, des)];
      assert d[1..] == des[1..][..MatchCount(cur[1..], des[1..])];
      assert k[1..] == Kept(cur[1..], des[1..]);
      forall i | 0 <= i < |k| ensures DefEqual(k[i], d[i]) {
        if i > 0 { assert DefEqual(k[1..][i - 1], d[1..][i - 1]); }
      }
    } else {
      KeptIsMatched(cur[1..], des);
    }
  }

  ghost predicate HasName(l: seq<PartDef>, name: string) {
    exists i :: 0 <= i < |l| && EqualFold(l[i].name, name)
  }

  lemma HasNameCons(d: PartDef, l: seq<PartDef>, name: string)
    ensures HasName([d] + l, name) <==> EqualFold(d.name, name) || HasName(l, name)
  {
    if EqualFold(d.name, name) { assert ([d] + l)[0] == d; }
    if i :| 0 <= i < |l| && EqualFold(l[i].name, name) { assert ([d] + l)[i + 1] == l[i]; }
    if i :| 0 <= i < |[d] + l| && EqualFold(([d] + l)[i].name, name) { assert i > 0 ==> l[i - 1] == ([d] + l)[i]; }
  }

  lemma {:induction false} UnmatchedFromCatalog(cur: seq<PartDef>, des: seq<PartDef>, name: string)
    requires HasName(Unmatched(cur, des), name)
    ensures HasName(cur, name)
  {
    if cur == [] {
    } else {
      assert cur == [cur[0]] + cur[1..];
      HasNameCons(cur[0], cur[1..], name);
      if des != [] && DefEqual(cur[0], des[0]) {
        UnmatchedFromCatalog(cur[1..], des[1..], name);
      } else {
        HasNameCons(cur[0], Unmatched(cur[1..], des), name);
        if !EqualFold(cur[0].name, name) { UnmatchedFromCatalog(cur[1..], des, name); }
      }
    }
  }

  lemma HeadNameIsUnique(l: seq<PartDef>)
    requires l != [] && UniqueNames(l)
    ensures !HasName(l[1..], l[0].name)
  {
    forall i | 0 <= i < |l[1..]| ensures !EqualFold(l[1..][i].name, l[0].name) {
      assert Fold(l[0].name) != Fold(l[i + 1].name);
    }
  }

  // Filtering the catalog by the names of the unmatched partitions leaves the matched ones.
  lemma {:induction false} WithoutUnmatched(cur: seq<PartDef>, des: seq<PartDef>, names: seq<string>)
    requires UniqueNames(cur)
    requires forall i :: 0 <= i < |cur| ==> (Names(names, cur[i]) <==> HasName(Unmatched(cur, des), cur[i].name))
    ensures Without(cur, names) == Kept(cur, des)
  {
    if cur != [] {
      var rest := cur[1..];
      var matched := des != [] && DefEqual(cur[0], des[0]);
      var des' := if matched then des[1..] else des;
      var u := Unmatched(rest, des');
      HeadNameIsUnique(cur);
      if HasName(u, cur[0].name) { UnmatchedFromCatalog(rest, des', cur[0].name); assert false; }
      forall i | 0 <= i < |rest| ensures Names(names, rest[i]) <==> HasName(u, rest[i].name) {
        assert rest[i] == cur[i + 1] && Fold(cur[0].name) != Fold(cur[i + 1].name);
        if !matched { HasNameCons(cur[0], u, rest[i].name); }
      }
      if !matched { HasNameCons(cur[0], u, cur[0].name); }
      WithoutUnmatched(rest, des', names);
      if des == [] { KeptNothing(rest); }
    }
  }

  lemma KeptNothing(cur: seq<PartDef>)
    ensures Kept(cur, []) == []
  {
  }

  lemma NamesOfHasName(l: seq<PartDef>, d: PartDef)
    ensures Names(NamesOf(l), d) <==> HasName(l, d.name)
  {
    if HasName(l, d.name) {
      var i :| 0 <= i < |l| && EqualFold(l[i].name, d.name);
      assert NamesOf(l)[i] == l[i].name;
    }
  }

  lemma {:induction false} WithoutMember(l: seq<PartDef>, names: seq<string>, i: nat)
    requires i < |l| && !Names(names, l[i])
    ensures l[i] in Without(l, names)
  {
    if i > 0 { WithoutMember(l[1..], names, i - 1); }
  }

  // `at` lists the positions of k's elements in l.
  ghost predicate SublistAt(k: seq<PartDef>, l: seq<PartDef>, at: seq<int>) {
    |at| == |k| &&
    (forall i :: 0 <= i < |k| ==> 0 <= at[i] < |l| && l[at[i]] == k[i]) &&
    forall i, j :: 0 <= i < j < |k| ==> at[i] < at[j]
  }

  lemma SublistSkip(k: seq<PartDef>, l: seq<PartDef>, at: seq<int>, d: PartDef)
    requires SublistAt(k, l, at)
    ensures SublistAt(k, [d] + l, Shift(at, 1))
  {
  }

  lemma SublistTake(k: seq<PartDef>, l: seq<PartDef>, at: seq<int>, d: PartDef)
    requires SublistAt(k, l, at)
    ensures SublistAt([d] + k, [d] + l, [0] + Shift(at, 1))
  {
  }

  lemma {:induction false} KeptIsSublist(cur: seq<PartDef>, des: seq<PartDef>) returns (at: seq<int>)
    ensures SublistAt(Kept(cur, des), cur, at)
  {
    hide DefEqual, SublistAt;
    if cur == [] || des == [] {
      at := [];
      EmptySublist(cur);
    } else {
      assert cur == [cur[0]] + cur[1..];
      if DefEqual(cur[0], des[0]) {
        var a := KeptIsSublist(cur[1..], des[1..]);
        SublistTake(Kept(cur[1..], des[1..]), cur[1..], a, cur[0]);
        at := [0] + Shift(a, 1);
      } else {
        var a := KeptIsSublist(cur[1..], des);
        SublistSkip(Kept(cur[1..], des), cur[1..], a, cur[0]);
        at := Shift(a, 1);
      }
    }
  }

  lemma EmptySublist(l: seq<PartDef>)
    ensures SublistAt([], l, [])
  {
  }

  lemma KeptIsLegal(ev: Eval, kind: Strategy, cur: seq<PartDef>, des: seq<PartDef>)
    requires Legal(ev, kind, cur) && Kept(cur, des) != []
    ensures Legal(ev, kind, Kept(cur, des))
  {
    var k := Kept(cur, des);
    var at := KeptIsSublist(cur, des);
    assert forall i :: 0 <= i < |k| ==> k[i] == cur[at[i]];
  }

  // DROP PARTITION of the unmatched partitions: it runs, and loses the rows stored in them and no other row.
  lemma DropExecutes(ev: Eval, kind: Strategy, cur: seq<PartDef>, des: seq<PartDef>, t: Table)
    requires Legal(ev, kind, cur) && t.layout == cur && Stored(ev, t)
    requires des != [] && MatchCount(cur, des) == |des| && Unmatched(cur, des) != []
    ensures var drops := Unmatched(cur, des);
      Exec(ev, kind, t, DropPartition(NamesOf(drops))) ==
        Some(Table(Kept(cur, des), RowsOutside(ev, t, NamesOf(drops))))
    ensures Legal(ev, kind, Kept(cur, des)) && SameLayout(Kept(cur, des), des)
    ensures Stored(ev, Table(Kept(cur, des), RowsOutside(ev, t, NamesOf(Unmatched(cur, des)))))
  {
    var drops := Unmatched(cur, des);
    var names := NamesOf(drops);
    forall i | 0 <= i < |cur| ensures Names(names, cur[i]) <==> HasName(drops, cur[i].name) {
      NamesOfHasName(drops, cur[i]);
    }
    WithoutUnmatched(cur, des, names);
    forall j | 0 <= j < |names| ensures IndexOfName(cur, names[j]) < |cur| {
      assert HasName(drops, names[j]);
      UnmatchedFromCatalog(cur, des, names[j]);
    }
    KeptIsMatched(cur, des);
    assert des[..|des|] == des;
    KeptIsLegal(ev, kind, cur, des);
    var rows := RowsOutside(ev, t, names);
    forall k | k in rows ensures Home(ev, Kept(cur, des), k) < |Kept(cur, des)| {
      var h := Home(ev, cur, k);
      WithoutMember(cur, names, h);
      var i :| 0 <= i < |Kept(cur, des)| && Kept(cur, des)[i] == cur[h];
      assert Accepts(ev, cur[h], k);
    }
  }

  /* ----- ADD PARTITION ----- */

  lemma SameLayoutLegal(ev: Eval, kind: Strategy, a: seq<PartDef>, b: seq<PartDef>)
    requires SameLayout(a, b) && a != []
    requires kind == RangeType ==> Increasing(ev, b)
    requires kind == ListType ==> ValuesDisjoint(b) && forall i :: 0 <= i < |a| ==>
      a[i].range.In? && NoRepeats(a[i].range.values)
    requires kind == RangeType || kind == ListType
    ensures Legal(ev, kind, a) <==> UniqueNames(b)
  {
    assert forall i :: 0 <= i < |a| ==> DefEqual(a[i], b[i]) && Fold(a[i].name) == Fold(b[i].name);
    assert UniqueNames(a) <==> UniqueNames(b) by {
      if UniqueNames(b) {
        assert forall i, j :: 0 <= i < j < |a| ==>
          Fold(a[i].name) == Fold(b[i].name) && Fold(a[j].name) == Fold(b[j].name);
      }
      if UniqueNames(a) {
        assert forall i, j :: 0 <= i < j < |a| ==>
          Fold(a[i].name) == Fold(b[i].name) && Fold(a[j].name) == Fold(b[j].name);
      }
    }
    if kind == RangeType {
      assert forall i :: 0 <= i < |a| ==> a[i].range == b[i].range;
    } else {
      forall i, j, v | 0 <= i < j < |a| && v in a[i].range.values ensures v !in a[j].range.values {
        EqualSlotsHaveSameValues(a[i], b[i], v);
        EqualSlotsHaveSameValues(a[j], b[j], v);
        assert SlotHas(a[i], v) && SlotHas(b[i], v);
        assert !SlotHas(b[j], v);
      }
    }
  }

  lemma AppendStored(ev: Eval, l: seq<PartDef>, more: seq<PartDef>, rows: set<Key>)
    requires Stored(ev, Table(l, rows))
    ensures Stored(ev, Table(l + more, rows))
  {
    forall k | k in rows ensures Home(ev, l + more, k) < |l + more| {
      var h := Home(ev, l, k);
      assert (l + more)[h] == l[h];
    }
  }

  // ADD PARTITION of the rest of desired: no row moves, and MySQL takes it exactly when the
  // desired names are distinct - the planner does not check them.
  lemma AddExecutes(ev: Eval, kind: Strategy, cur: seq<PartDef>, des: seq<PartDef>, t: Table)
    requires Legal(ev, kind, cur) && t.layout == cur && Stored(ev, t)
    requires kind == RangeType ==> Increasing(ev, des)
    requires kind == ListType ==> ValuesDisjoint(des)
    requires Unmatched(cur, des) == [] && des[MatchCount(cur, des)..] != []
    ensures var adds := des[MatchCount(cur, des)..];
      SameLayout(cur + adds, des) && Stored(ev, Table(cur + adds, t.rows)) &&
      Exec(ev, kind, t, AddPartition(adds)) ==
        if UniqueNames(des) then Some(Table(cur + adds, t.rows)) else None
    ensures UniqueNames(des) ==> Legal(ev, kind, cur + des[MatchCount(cur, des)..])
  {
    NoDropsIffPrefix(cur, des);
    var adds := des[|cur|..];
    var l := cur + adds;
    forall i | 0 <= i < |l| ensures DefEqual(l[i], des[i]) {
      if i < |cur| { assert DefEqual(cur[i], des[..|cur|][i]); } else { assert l[i] == des[i]; }
    }
    SameLayoutLegal(ev, kind, l, des);
    AppendStored(ev, cur, adds, t.rows);
  }
}
