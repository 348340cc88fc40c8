/** The view diff, and the run of its DROP VIEW and CREATE OR REPLACE VIEW statements. */
module ViewDiff {
  import opened Common
  import opened SortedNames
  import opened ViewModel
  import opened ViewSort

  /* ----- when two views are the same ----- */

  // The normal form of a SELECT body; None when it does not parse.
  type Norm = string -> Option<string>

  function CanonicalCheckOption(s: string): string {
    if s == "" then "NONE" else s
  }

  predicate DefEqual(norm: Norm, a: string, b: string) {
    a == b || (norm(a).Some? && norm(b).Some? && norm(a) == norm(b))
  }

  predicate ViewEqual(norm: Norm, a: View, b: View) {
    CanonicalCheckOption(a.checkOption) == CanonicalCheckOption(b.checkOption) &&
    DefEqual(norm, a.definition, b.definition)
  }

  // What a view is to MySQL: no check option reads like NONE, and the definition counts up to its normal form, if it
  // has one.
  ghost predicate SameView(norm: Norm, a: View, b: View) {
    (a.checkOption == b.checkOption || (a.checkOption in ["", "NONE"] && b.checkOption in ["", "NONE"])) &&
    (a.definition == b.definition || exists n :: norm(a.definition) == Some(n) == norm(b.definition))
  }

  lemma ViewEqualIs(norm: Norm, a: View, b: View)
    ensures ViewEqual(norm, a, b) <==> SameView(norm, a, b)
  {
    if ViewEqual(norm, a, b) && a.definition != b.definition {
      assert norm(a.definition) == Some(norm(a.definition).value) == norm(b.definition);
    }
  }

  // Definitions judged equal read the same tables and views.
  ghost predicate NormKeepsRefs(norm: Norm, refs: Refs) {
    forall a, b :: DefEqual(norm, a, b) ==> forall r :: r in refs(a) <==> r in refs(b)
  }

  /* ----- the plan ----- */

  datatype Stmt = DropView(name: string) | CreateOrReplace(name: string, view: View)

  datatype ViewPlan = ViewPlan(creates: seq<Stmt>, drops: seq<Stmt>, skipped: seq<Stmt>)

  predicate Unchanged(current: map<string, View>, desired: map<string, View>, norm: Norm, k: string)
    requires k in desired
  {
    k in current && ViewEqual(norm, current[k], desired[k])
  }

  function Creates(current: map<string, View>, desired: map<string, View>, norm: Norm, order: seq<string>): seq<Stmt>
    requires forall i :: 0 <= i < |order| ==> order[i] in desired
  {
    if order == [] then []
    else
      (if Unchanged(current, desired, norm, order[0]) then [] else [CreateOrReplace(order[0], desired[order[0]])])
      + Creates(current, desired, norm, order[1..])
  }

  // Views that are gone, last of the order first.
  function Drops(desired: map<string, View>, order: seq<string>): seq<Stmt> {
    if order == [] then []
    else Drops(desired, order[1..]) + if order[0] in desired then [] else [DropView(order[0])]
  }

  lemma NoCreates(current: map<string, View>, desired: map<string, View>, norm: Norm)
    ensures Creates(current, desired, norm, []) == []
  {
  }

  lemma CreatesStep(current: map<string, View>, desired: map<string, View>, norm: Norm, order: seq<string>, i: nat)
    requires (forall j :: 0 <= j < |order| ==> order[j] in desired) && i < |order|
    ensures Creates(current, desired, norm, order[i..]) ==
      (if Unchanged(current, desired, norm, order[i]) then [] else [CreateOrReplace(order[i], desired[order[i]])])
      + Creates(current, desired, norm, order[i + 1..])
  {
    assert order[i..][0] == order[i] && order[i..][1..] == order[i + 1..];
  }

  method CreateStmts(current: map<string, View>, desired: map<string, View>, norm: Norm, desiredOrder: seq<string>)
    returns (creates: seq<Stmt>)
    requires forall i :: 0 <= i < |desiredOrder| ==> desiredOrder[i] in desired
    ensures creates == Creates(current, desired, norm, desiredOrder)
  {
    hide ViewEqual, Creates;
    creates := [];
    NoCreates(current, desired, norm);
    assert desiredOrder[0..] == desiredOrder && desiredOrder[|desiredOrder|..] == [];
    for i := 0 to |desiredOrder|
      invariant creates + Creates(current, desired, norm, desiredOrder[i..]) ==
        Creates(current, desired, norm, desiredOrder)
    {
      var k := desiredOrder[i];
      ghost var before, rest := creates, Creates(current, desired, norm, desiredOrder[i + 1..]);
      CreatesStep(current, desired, norm, desiredOrder, i);
      if k in current {
        if ViewEqual(norm, current[k], desired[k]) {
          assert [] + rest == rest;
          continue;
        }
      }
      creates := creates + [CreateOrReplace(k, desired[k])];
      assert before + ([CreateOrReplace(k, desired[k])] + rest) == creates + rest;
    }
  }

  method DropStmts(desired: map<string, View>, currentOrder: seq<string>, allowDrop: bool)
    returns (drops: seq<Stmt>, skipped: seq<Stmt>)
    ensures drops == if allowDrop then Drops(desired, currentOrder) else []
    ensures skipped == if allowDrop then [] else Drops(desired, currentOrder)
  {
    drops, skipped := [], [];
    for i := |currentOrder| downto 0
      invariant drops == if allowDrop then Drops(desired, currentOrder[i..]) else []
      invariant skipped == if allowDrop then [] else Drops(desired, currentOrder[i..])
    {
      var k := currentOrder[i];
      assert currentOrder[i..][0] == k && currentOrder[i..][1..] == currentOrder[i + 1..];
      if k in desired { continue; }
      if !allowDrop {
        skipped := skipped + [DropView(k)];
        continue;
      }
      drops := drops + [DropView(k)];
    }
    assert currentOrder[0..] == currentOrder;
  }

  // The order of a graph without cycles lists its views and nothing else.
  lemma OrderLists(g: Graph)
    requires Closed(g) && Acyclic(g)
    ensures Topological(g, Order(g)) && Distinct(Order(g)) && Elems(Order(g)) == g.Keys
    ensures forall i :: 0 <= i < |Order(g)| ==> Order(g)[i] in g
  {
    OrderIsTopological(g);
  }

  ghost function DesiredOrder(desired: map<string, View>, refs: Refs): (o: seq<string>)
    requires Acyclic(GraphOf(desired, refs))
    ensures forall i :: 0 <= i < |o| ==> o[i] in desired
  {
    OrderLists(GraphOf(desired, refs));
    Order(GraphOf(desired, refs))
  }

  method DiffViews(current: map<string, View>, curOrder: seq<string>, desired: map<string, View>, desOrder: seq<string>,
                   refs: Refs, norm: Norm, allowDrop: bool) returns (r: Option<ViewPlan>)
    requires Distinct(curOrder) && Elems(curOrder) == current.Keys
    requires Distinct(desOrder) && Elems(desOrder) == desired.Keys
    requires forall d :: Distinct(refs(d))
    ensures r.Some? <==> Acyclic(GraphOf(current, refs)) && Acyclic(GraphOf(desired, refs))
    ensures r.Some? ==> r.value == Plan(current, desired, refs, norm, allowDrop)
  {
    var d := TopoSortViews(desired, desOrder, refs);
    if d.None? { return None; }
    var c := TopoSortViews(current, curOrder, refs);
    if c.None? { return None; }
    var desiredOrder, currentOrder := d.value, c.value;
    assert desiredOrder == DesiredOrder(desired, refs);
    var creates := CreateStmts(current, desired, norm, desiredOrder);
    var drops, skipped := DropStmts(desired, currentOrder, allowDrop);
    return Some(ViewPlan(creates, drops, skipped));
  }

  ghost function Plan(current: map<string, View>, desired: map<string, View>, refs: Refs, norm: Norm,
    allowDrop: bool): ViewPlan
    requires Acyclic(GraphOf(current, refs)) && Acyclic(GraphOf(desired, refs))
  {
    var drops := Drops(desired, Order(GraphOf(current, refs)));
    ViewPlan(Creates(current, desired, norm, DesiredOrder(desired, refs)),
      if allowDrop then drops else [], if allowDrop then [] else drops)
  }

  /* ----- what a plan holds ----- */

  lemma {:induction false} CreatesAre(current: map<string, View>, desired: map<string, View>, norm: Norm,
    order: seq<string>, s: Stmt)
    requires forall i :: 0 <= i < |order| ==> order[i] in desired
    ensures s in Creates(current, desired, norm, order) <==>
      s.CreateOrReplace? && s.name in order && s.view == desired[s.name] &&
      !(s.name in current && SameView(norm, current[s.name], desired[s.name]))
  {
    if order != [] {
      var k := order[0];
      CreatesAre(current, desired, norm, order[1..], s);
      if k in current { ViewEqualIs(norm, current[k], desired[k]); }
      assert s.CreateOrReplace? ==> (s.name in order <==> s.name == k || s.name in order[1..]);
      hide ViewEqual, SameView;
    }
  }

  lemma {:induction false} DropsAre(desired: map<string, View>, order: seq<string>, s: Stmt)
    ensures s in Drops(desired, order) <==> s.DropView? && s.name in order && s.name !in desired
  {
    if order != [] { DropsAre(desired, order[1..], s); }
  }

  // A closed chain of views in which each one reads the next, a different one of the set.
  ghost predicate ReadsInCircle(views: map<string, View>, refs: Refs, p: seq<string>) {
    |p| >= 2 && p[0] == p[|p| - 1] && (forall i :: 0 <= i < |p| ==> p[i] in views) &&
    forall i, j :: 0 <= i && j == i + 1 && j < |p| ==> p[i] != p[j] && p[j] in refs(views[p[i]].definition)
  }

  // What the planner refuses as a circle: a view that reads itself, a table or a view outside the set does not count.
  lemma CircleIs(views: map<string, View>, refs: Refs)
    ensures Acyclic(GraphOf(views, refs)) <==> !exists p: seq<string> :: ReadsInCircle(views, refs, p)
  {
    var g := GraphOf(views, refs);
    forall p: seq<string> ensures IsCycle(g, p) <==> ReadsInCircle(views, refs, p) {
      CircleAt(views, refs, p);
    }
    hide IsCycle, ReadsInCircle, GraphOf;
  }

  lemma CircleAt(views: map<string, View>, refs: Refs, p: seq<string>)
    ensures IsCycle(GraphOf(views, refs), p) <==> ReadsInCircle(views, refs, p)
  {
    var g := GraphOf(views, refs);
    assert forall k :: k in views ==> k in g && g[k] == Deps(views, refs, k);
    hide GraphOf, Closed;
  }

  // A view is created exactly when there is none that says the same, dropped exactly when desired lacks it and drops
  // are permitted, and reported as skipped when they are not.
  lemma PlanSays(current: map<string, View>, desired: map<string, View>, refs: Refs, norm: Norm, allowDrop: bool,
    s: Stmt)
    requires Acyclic(GraphOf(current, refs)) && Acyclic(GraphOf(desired, refs))
    ensures var plan := Plan(current, desired, refs, norm, allowDrop);
      (s in plan.creates <==>
        s.CreateOrReplace? && s.name in desired && s.view == desired[s.name] &&
        !(s.name in current && SameView(norm, current[s.name], desired[s.name]))) &&
      (s in plan.drops <==> allowDrop && s.DropView? && s.name in current && s.name !in desired) &&
      (s in plan.skipped <==> !allowDrop && s.DropView? && s.name in current && s.name !in desired)
  {
    var c, d := Order(GraphOf(current, refs)), DesiredOrder(desired, refs);
    OrderLists(GraphOf(current, refs));
    OrderLists(GraphOf(desired, refs));
    CreatesAre(current, desired, norm, d, s);
    DropsAre(desired, c, s);
    assert s.name in d <==> s.name in Elems(d);
    assert s.name in c <==> s.name in Elems(c);
    assert GraphOf(current, refs).Keys == current.Keys && GraphOf(desired, refs).Keys == desired.Keys;
    hide SameView, Creates, Drops, Order, Acyclic, Topological;
  }
}
