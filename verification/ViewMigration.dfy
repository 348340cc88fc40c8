/** Running a view plan: drops, then creates, against the views that are live. */
module ViewMigration {
  import opened Common
  import opened SortedNames
  import opened ViewModel
  import opened ViewSort
  import opened ViewDiff

  type Live = map<string, View>

  // CREATE OR REPLACE VIEW needs everything it reads to exist, not to be a table's name, and not
  // to close a circle of views (Errors 1146, 1347 and 1462).
  ghost predicate MayCreate(tables: set<string>, refs: Refs, live: Live, name: string, view: View) {
    name !in tables &&
    (forall r :: r in refs(view.definition) ==> r != name && (r in tables || r in live)) &&
    Acyclic(GraphOf(live[name := view], refs))
  }

  ghost function Exec(tables: set<string>, refs: Refs, live: Live, s: Stmt): Option<Live> {
    match s
    case DropView(n) => if n in live then Some(live - {n}) else None
    case CreateOrReplace(n, v) => if MayCreate(tables, refs, live, n, v) then Some(live[n := v]) else None
  }

  ghost function Run(tables: set<string>, refs: Refs, live: Live, ss: seq<Stmt>): Option<Live>
    decreases |ss|
  {
    if ss == [] then Some(live) else
    match Exec(tables, refs, live, ss[0])
    case None => None
    case Some(l) => Run(tables, refs, l, ss[1..])
  }

  lemma {:induction false} RunAppend(tables: set<string>, refs: Refs, live: Live, a: seq<Stmt>, b: seq<Stmt>)
    ensures Run(tables, refs, live, a + b) ==
      match Run(tables, refs, live, a)
      case None => None
      case Some(l) => Run(tables, refs, l, b)
    decreases |a|
  {
    if a == [] {
      assert a + b == b;
    } else {
      assert (a + b)[0] == a[0] && (a + b)[1..] == a[1..] + b;
      match Exec(tables, refs, live, a[0]) {
        case None =>
        case Some(l) => RunAppend(tables, refs, l, a[1..], b);
      }
    }
  }

  /* ----- fewer edges, no new cycle ----- */

  lemma SubgraphAcyclic(g: Graph, h: Graph)
    requires Acyclic(h) && g.Keys <= h.Keys && forall k :: k in g ==> g[k] <= h[k]
    ensures Acyclic(g)
  {
    forall p ensures IsCycle(g, p) ==> IsCycle(h, p) {
    }
  }

  lemma FewerViewsAcyclic(live: Live, all: Live, refs: Refs)
    requires Acyclic(GraphOf(all, refs)) && live.Keys <= all.Keys && forall k :: k in live ==> live[k] == all[k]
    ensures Acyclic(GraphOf(live, refs))
  {
    var g, h := GraphOf(live, refs), GraphOf(all, refs);
    forall k | k in g ensures g[k] <= h[k] {
      assert g[k] == Deps(live, refs, k) && h[k] == Deps(all, refs, k);
    }
    SubgraphAcyclic(g, h);
  }

  /* ----- drops ----- */

  // Each statement drops a live view that no other view still to be dropped reads,
  // and leaves no circle.
  ghost predicate DropsSafely(refs: Refs, desired: Live, live: Live, ss: seq<Stmt>)
    decreases |ss|
  {
    Acyclic(GraphOf(live, refs)) &&
    (ss != [] ==>
      ss[0].DropView? && ss[0].name in live && ss[0].name !in desired &&
      (forall k :: k in live && k !in desired && k != ss[0].name ==> ss[0].name !in refs(live[k].definition)) &&
      DropsSafely(refs, desired, live - {ss[0].name}, ss[1..]))
  }

  lemma RunNothing(tables: set<string>, refs: Refs, live: Live)
    ensures Run(tables, refs, live, []) == Some(live)
  {
  }

  lemma RunDrop(tables: set<string>, refs: Refs, live: Live, ss: seq<Stmt>)
    requires ss != [] && ss[0].DropView? && ss[0].name in live
    ensures Run(tables, refs, live, ss) == Run(tables, refs, live - {ss[0].name}, ss[1..])
  {
  }

  lemma {:induction false} DropsSafelyAppend(
    tables: set<string>, refs: Refs, desired: Live, live: Live, a: seq<Stmt>, b: seq<Stmt>)
    requires DropsSafely(refs, desired, live, a)
    requires Run(tables, refs, live, a).Some? && DropsSafely(refs, desired, Run(tables, refs, live, a).value, b)
    ensures DropsSafely(refs, desired, live, a + b)
    decreases |a|
  {
    hide Acyclic, GraphOf, Exec, Run;
    if a == [] {
      assert a + b == b;
      RunNothing(tables, refs, live);
    } else {
      assert (a + b)[0] == a[0] && (a + b)[1..] == a[1..] + b;
      RunDrop(tables, refs, live, a);
      DropsSafelyAppend(tables, refs, desired, live - {a[0].name}, a[1..], b);
    }
  }

  // The views left once everything in `gone` that desired lacks is dropped.
  ghost function Remaining(current: Live, desired: Live, gone: seq<string>): Live {
    map k | k in current && (k in desired || k !in gone) :: current[k]
  }

  // The drops of the views from position i on.
  lemma {:induction false} DropsRun(tables: set<string>, refs: Refs, current: Live, desired: Live,
    order: seq<string>, i: nat)
    requires Acyclic(GraphOf(current, refs)) && Ordered(current, refs, order) && i <= |order|
    ensures var ss := Drops(desired, order[i..]);
      Run(tables, refs, current, ss) == Some(Remaining(current, desired, order[i..])) &&
      DropsSafely(refs, desired, current, ss)
    decreases |order| - i
  {
    hide *;
    if i == |order| {
      assert order[i..] == [];
      RunNothing(tables, refs, current);
      NothingDropped(refs, current, desired);
    } else {
      DropsRun(tables, refs, current, desired, order, i + 1);
      DropStep(tables, refs, current, desired, order, i);
      DropsUnfold(desired, order, i);
      var k, rest := order[i], Drops(desired, order[i + 1..]);
      if k !in desired {
        RunAppend(tables, refs, current, rest, [DropView(k)]);
        DropsSafelyAppend(tables, refs, desired, current, rest, [DropView(k)]);
      } else {
        assert rest + [] == rest;
      }
    }
  }

  // An order of all live views with dependencies first.
  ghost predicate Ordered(live: Live, refs: Refs, order: seq<string>) {
    Topological(GraphOf(live, refs), order) && Elems(order) == live.Keys
  }

  lemma NothingDropped(refs: Refs, current: Live, desired: Live)
    requires Acyclic(GraphOf(current, refs))
    ensures Drops(desired, []) == [] && Remaining(current, desired, []) == current &&
      DropsSafely(refs, desired, current, [])
  {
  }

  lemma DropsUnfold(desired: Live, order: seq<string>, i: nat)
    requires i < |order|
    ensures Drops(desired, order[i..]) == Drops(desired, order[i + 1..]) + if order[i] in desired then []
      else [DropView(order[i])]
  {
    assert order[i..][0] == order[i] && order[i..][1..] == order[i + 1..];
  }

  lemma RemainingStep(current: Live, desired: Live, k: string, rest: seq<string>)
    requires k in current && k !in rest
    ensures var live, live' := Remaining(current, desired, rest), Remaining(current, desired, [k] + rest);
      if k in desired then live' == live else k in live && live' == live - {k}
  {
    assert forall m :: m in [k] + rest <==> m == k || m in rest;
    var live, live' := Remaining(current, desired, rest), Remaining(current, desired, [k] + rest);
    if k in desired {
      assert forall m :: m in live' <==> m in live;
    } else {
      assert forall m :: m in live' <==> m in live - {k};
    }
  }

  lemma DropStep(tables: set<string>, refs: Refs, current: Live, desired: Live, order: seq<string>, i: nat)
    requires Acyclic(GraphOf(current, refs)) && Ordered(current, refs, order) && i < |order|
    ensures var live, live', k := Remaining(current, desired, order[i + 1..]),
      Remaining(current, desired, order[i..]), order[i];
      if k in desired then live' == live
      else Run(tables, refs, live, [DropView(k)]) == Some(live') && DropsSafely(refs, desired, live, [DropView(k)])
  {
    var live, live', k := Remaining(current, desired, order[i + 1..]),
      Remaining(current, desired, order[i..]), order[i];
    assert order[i..] == [k] + order[i + 1..];
    assert k in Elems(order);
    RemainingStep(current, desired, k, order[i + 1..]);
    if k !in desired {
      hide Acyclic, GraphOf, Ordered;
      FewerViewsAcyclic(live, current, refs);
      FewerViewsAcyclic(live', current, refs);
      forall m | m in live && m !in desired && m != k ensures k !in refs(live[m].definition) {
        ReadersComeLater(current, refs, order, i, m);
      }
      hide Remaining;
      DropsSafelyOne(tables, refs, desired, live, k);
    }
  }

  lemma DropsSafelyOne(tables: set<string>, refs: Refs, desired: Live, live: Live, k: string)
    requires Acyclic(GraphOf(live, refs)) && Acyclic(GraphOf(live - {k}, refs)) && k in live && k !in desired
    requires forall m :: m in live && m !in desired && m != k ==> k !in refs(live[m].definition)
    ensures DropsSafely(refs, desired, live, [DropView(k)])
    ensures Run(tables, refs, live, [DropView(k)]) == Some(live - {k})
  {
    hide Acyclic, GraphOf;
    assert [DropView(k)][1..] == [];
    assert DropsSafely(refs, desired, live - {k}, []);
    assert Run(tables, refs, live - {k}, []) == Some(live - {k});
  }

  lemma EarlierDoesNotReadLater(g: Graph, order: seq<string>, j: nat, i: nat)
    requires Topological(g, order) && j <= i < |order|
    ensures order[i] !in g[order[j]]
  {
    assert forall a :: 0 <= a < j ==> order[..j][a] == order[a] != order[i];
  }

  // A view that reads order[i] stands after it.
  lemma ReadersComeLater(current: Live, refs: Refs, order: seq<string>, i: nat, m: string)
    requires Ordered(current, refs, order) && i < |order|
    requires m in current && m !in order[i + 1..] && m != order[i]
    ensures order[i] !in refs(current[m].definition)
  {
    var g := GraphOf(current, refs);
    assert m in Elems(order);
    var j :| 0 <= j < |order| && order[j] == m;
    assert forall a :: i < a < |order| ==> order[a] == order[i + 1..][a - i - 1];
    EarlierDoesNotReadLater(g, order, j, i);
    assert g[m] == Deps(current, refs, m);
    assert order[i] in Elems(order);
  }

  /* ----- creates ----- */

  // The views of `done` are live in their desired form.
  ghost predicate InPlace(norm: Norm, desired: Live, live: Live, done: seq<string>) {
    forall k :: k in done ==> k in desired && k in live && ViewEqual(norm, live[k], desired[k])
  }

  // The live views while the desired ones are being created: the first ones of the order are in
  // place, the others are still what they were at the start.
  ghost predicate Midway(norm: Norm, desired: Live, start: Live, live: Live, done: seq<string>) {
    InPlace(norm, desired, live, done) &&
    live.Keys == start.Keys + Elems(done) &&
    forall k :: k in start && k !in done ==> live[k] == start[k]
  }

  // No desired view reads a live view that desired does not have.
  ghost predicate NoStaleReads(refs: Refs, desired: Live, start: Live) {
    forall k, r :: k in desired && r in refs(desired[k].definition) && r in start ==> r in desired
  }

  lemma {:induction false} WalkStaysDone(g: Graph, done: set<string>, p: seq<string>, i: nat)
    requires IsWalk(g, p) && i < |p| && p[0] in done
    requires forall k, r :: k in done && k in g && r in g[k] ==> r in done
    ensures p[i] in done
  {
    if i > 0 {
      WalkStaysDone(g, done, p, i - 1);
      assert p[i] in g[p[i - 1]];
    }
  }

  // A closed walk is either wholly inside a set its references cannot leave, or wholly outside it.
  lemma CycleInsideOrOutside(g: Graph, done: set<string>, p: seq<string>, i: nat, j: nat)
    requires IsCycle(g, p) && i < |p| && j < |p| && p[i] in done
    requires forall k, r :: k in done && k in g && r in g[k] ==> r in done
    ensures p[j] in done
  {
    var n := |p| - 1;
    var q := p[i..];
    assert IsWalk(g, q) by {
      forall a, b | 0 <= a && b == a + 1 && b < |q| ensures q[b] in g[q[a]] { assert p[i + b] in g[p[i + a]]; }
    }
    WalkStaysDone(g, done, q, n - i);
    assert p[0] == p[n] == q[n - i];
    WalkStaysDone(g, done, p, j);
  }

  // The views in place read only views in place, and those come earlier in the order.
  lemma DoneIsClosed(norm: Norm, refs: Refs, desired: Live, start: Live, live: Live, done: seq<string>,
    k: string, r: string)
    requires NormKeepsRefs(norm, refs) && Midway(norm, desired, start, live, done) && NoStaleReads(refs, desired, start)
    requires forall a :: a in done ==> a in desired && forall b :: b in GraphOf(desired, refs)[a] ==> b in done
    requires k in done && k in live && r in GraphOf(live, refs)[k]
    ensures r in done && r in GraphOf(desired, refs)[k]
  {
    assert DefEqual(norm, live[k].definition, desired[k].definition);
    assert r in refs(live[k].definition) && r in live;
    assert r in refs(desired[k].definition);
    assert r in desired;
    assert r in Deps(desired, refs, k);
  }

  // At no point of the creates do the live views form a circle.
  lemma MidwayAcyclic(norm: Norm, refs: Refs, desired: Live, start: Live, live: Live, done: seq<string>)
    requires NormKeepsRefs(norm, refs) && Midway(norm, desired, start, live, done) && NoStaleReads(refs, desired, start)
    requires forall a :: a in done ==> a in desired && forall b :: b in GraphOf(desired, refs)[a] ==> b in done
    requires Acyclic(GraphOf(start, refs)) && Acyclic(GraphOf(desired, refs))
    ensures Acyclic(GraphOf(live, refs))
  {
    var g := GraphOf(live, refs);
    forall k, r | k in Elems(done) && k in g && r in g[k] ensures r in Elems(done) && r in GraphOf(desired, refs)[k] {
      DoneIsClosed(norm, refs, desired, start, live, done, k, r);
    }
    forall p ensures IsCycle(g, p) ==> IsCycle(GraphOf(desired, refs), p) || IsCycle(GraphOf(start, refs), p) {
      if IsCycle(g, p) {
        if p[0] in done {
          InsideIsDesired(refs, desired, g, Elems(done), p);
        } else {
          OutsideIsStart(refs, start, live, Elems(done), p);
        }
      }
    }
  }

  lemma InsideIsDesired(refs: Refs, desired: Live, g: Graph, done: set<string>, p: seq<string>)
    requires IsCycle(g, p) && p[0] in done && done <= desired.Keys
    requires forall k, r :: k in done && k in g && r in g[k] ==> r in done && r in GraphOf(desired, refs)[k]
    ensures IsCycle(GraphOf(desired, refs), p)
  {
    forall j | 0 <= j < |p| ensures p[j] in done { CycleInsideOrOutside(g, done, p, 0, j); }
    hide GraphOf;
  }

  lemma OutsideIsStart(refs: Refs, start: Live, live: Live, done: set<string>, p: seq<string>)
    requires IsCycle(GraphOf(live, refs), p) && p[0] !in done
    requires live.Keys == start.Keys + done && forall k :: k in start && k !in done ==> live[k] == start[k]
    requires forall k, r :: k in done && k in live && r in GraphOf(live, refs)[k] ==> r in done
    ensures IsCycle(GraphOf(start, refs), p)
  {
    var g, h := GraphOf(live, refs), GraphOf(start, refs);
    forall j | 0 <= j < |p| ensures p[j] !in done && p[j] in start {
      if p[j] in done { CycleInsideOrOutside(g, done, p, j, 0); }
    }
    forall i, j | 0 <= i && j == i + 1 && j < |p| ensures p[j] in h[p[i]] {
      assert p[j] in g[p[i]];
      assert p[j] in Deps(live, refs, p[i]);
      assert p[j] in Deps(start, refs, p[i]);
    }
  }

  // Each statement creates a desired view from parts that are all there in their final form,
  // and leaves no circle.
  ghost predicate CreatesSafely(tables: set<string>, refs: Refs, norm: Norm, desired: Live, live: Live, ss: seq<Stmt>)
    decreases |ss|
  {
    Acyclic(GraphOf(live, refs)) &&
    (ss != [] ==>
      ss[0].CreateOrReplace? && ss[0].name in desired && ss[0].view == desired[ss[0].name] &&
      MayCreate(tables, refs, live, ss[0].name, ss[0].view) &&
      (forall r :: r in refs(ss[0].view.definition) && r in desired ==>
        r in live && SameView(norm, live[r], desired[r])) &&
      CreatesSafely(tables, refs, norm, desired, live[ss[0].name := ss[0].view], ss[1..]))
  }

  // A desired view MySQL can create once the others are there.
  ghost predicate Creatable(tables: set<string>, refs: Refs, desired: Live, k: string)
    requires k in desired
  {
    k !in tables && forall r :: r in refs(desired[k].definition) ==> r != k && (r in tables || r in desired)
  }

  // The first i views of the order, and what is known of the views still to come.
  ghost predicate CreateState(refs: Refs, norm: Norm, current: Live, desired: Live, start: Live, live: Live,
    order: seq<string>, i: nat) {
    i <= |order| && NormKeepsRefs(norm, refs) && NoStaleReads(refs, desired, start) &&
    Acyclic(GraphOf(start, refs)) && Acyclic(GraphOf(desired, refs)) &&
    Topological(GraphOf(desired, refs), order) && Elems(order) == desired.Keys &&
    (forall k :: k in desired ==> (k in start <==> k in current) && (k in start ==> start[k] == current[k])) &&
    Midway(norm, desired, start, live, order[..i])
  }

  lemma PrefixClosed(refs: Refs, desired: Live, order: seq<string>, i: nat)
    requires i <= |order| && Topological(GraphOf(desired, refs), order)
    ensures forall a :: a in order[..i] ==> a in desired && forall b :: b in GraphOf(desired, refs)[a] ==>
      b in order[..i]
  {
    var g := GraphOf(desired, refs);
    forall a | a in order[..i] ensures a in desired && forall b :: b in g[a] ==> b in order[..i] {
      var j :| 0 <= j < i && order[..i][j] == a;
      assert order[j] == a;
      forall b | b in g[a] ensures b in order[..i] {
        var m :| 0 <= m < j && order[..j][m] == b;
        assert order[..i][m] == b;
      }
    }
  }

  // What the next view reads is in place when its turn comes.
  lemma NextReads(refs: Refs, norm: Norm, current: Live, desired: Live, start: Live, live: Live, order: seq<string>,
    i: nat, r: string)
    requires CreateState(refs, norm, current, desired, start, live, order, i) && i < |order| && order[i] in desired
    requires r in refs(desired[order[i]].definition) && r in desired && r != order[i]
    ensures r in live && ViewEqual(norm, live[r], desired[r])
  {
    assert r in Deps(desired, refs, order[i]);
    assert r in order[..i];
  }

  lemma MidwayStep(norm: Norm, current: Live, desired: Live, start: Live, live: Live, done: seq<string>, k: string)
    requires Midway(norm, desired, start, live, done) && k in desired && k !in done
    requires (k in start <==> k in current) && (k in start ==> start[k] == current[k])
    ensures Unchanged(current, desired, norm, k) ==> Midway(norm, desired, start, live, done + [k])
    ensures Midway(norm, desired, start, live[k := desired[k]], done + [k])
  {
    assert forall m :: m in done + [k] <==> m in done || m == k;
    assert Elems(done + [k]) == Elems(done) + {k};
    assert DefEqual(norm, desired[k].definition, desired[k].definition);
    hide DefEqual;
    assert ViewEqual(norm, desired[k], desired[k]);
    hide ViewEqual;
    if Unchanged(current, desired, norm, k) { assert live[k] == start[k]; }
  }

  lemma NextInPlace(refs: Refs, norm: Norm, current: Live, desired: Live, start: Live, live: Live,
    order: seq<string>, i: nat)
    requires CreateState(refs, norm, current, desired, start, live, order, i) && i < |order| && order[i] in desired
    ensures Unchanged(current, desired, norm, order[i]) ==>
      CreateState(refs, norm, current, desired, start, live, order, i + 1)
    ensures CreateState(refs, norm, current, desired, start, live[order[i] := desired[order[i]]], order, i + 1)
  {
    hide NormKeepsRefs, NoStaleReads, Acyclic, GraphOf, Topological, Midway, Unchanged;
    assert order[..i + 1] == order[..i] + [order[i]];
    NotBefore(order, i, GraphOf(desired, refs));
    MidwayStep(norm, current, desired, start, live, order[..i], order[i]);
  }

  lemma NotBefore(order: seq<string>, i: nat, g: Graph)
    requires Topological(g, order) && i < |order|
    ensures order[i] !in order[..i]
  {
  }

  // MySQL takes the next CREATE exactly when the view reads only tables and other desired views.
  lemma NextCreate(tables: set<string>, refs: Refs, norm: Norm, current: Live, desired: Live, start: Live, live: Live,
    order: seq<string>, i: nat)
    requires CreateState(refs, norm, current, desired, start, live, order, i) && i < |order| && order[i] in desired
    ensures MayCreate(tables, refs, live, order[i], desired[order[i]]) <==> Creatable(tables, refs, desired, order[i])
  {
    var k := order[i];
    var live' := live[k := desired[k]];
    NextInPlace(refs, norm, current, desired, start, live, order, i);
    PrefixClosed(refs, desired, order, i + 1);
    MidwayAcyclic(norm, refs, desired, start, live', order[..i + 1]);
    hide Acyclic, GraphOf, Topological, NormKeepsRefs;
    forall r | r in refs(desired[k].definition) && r != k ensures r in live <==> r in desired {
      if r in desired { NextReads(refs, norm, current, desired, start, live, order, i, r); }
      if r in live && r !in start { assert r in order[..i]; }
    }
  }

  ghost predicate AllCreatable(tables: set<string>, refs: Refs, norm: Norm, current: Live, desired: Live,
    order: seq<string>, i: nat)
    requires forall j :: 0 <= j < |order| ==> order[j] in desired
  {
    forall j :: i <= j < |order| && !Unchanged(current, desired, norm, order[j]) ==>
      Creatable(tables, refs, desired, order[j])
  }

  lemma StateAcyclic(refs: Refs, norm: Norm, current: Live, desired: Live, start: Live, live: Live,
    order: seq<string>, i: nat)
    requires CreateState(refs, norm, current, desired, start, live, order, i)
    ensures Acyclic(GraphOf(live, refs))
  {
    PrefixClosed(refs, desired, order, i);
    MidwayAcyclic(norm, refs, desired, start, live, order[..i]);
  }

  // What the creates from position i on do to the live views.
  ghost predicate CreateOutcome(tables: set<string>, refs: Refs, norm: Norm, current: Live, desired: Live,
    start: Live, live: Live,
                                ss: seq<Stmt>, order: seq<string>, ok: bool)
  {
    match Run(tables, refs, live, ss)
    case None => !ok
    case Some(end) =>
      ok && CreateState(refs, norm, current, desired, start, end, order, |order|) &&
      CreatesSafely(tables, refs, norm, desired, live, ss)
  }

  lemma CreateNothing(tables: set<string>, refs: Refs, norm: Norm, current: Live, desired: Live, start: Live,
    live: Live, order: seq<string>)
    requires CreateState(refs, norm, current, desired, start, live, order, |order|) && Acyclic(GraphOf(live, refs))
    ensures CreateOutcome(tables, refs, norm, current, desired, start, live, [], order, true)
  {
    hide CreateState, Acyclic, GraphOf;
  }

  lemma CreateOne(tables: set<string>, refs: Refs, norm: Norm, current: Live, desired: Live, start: Live, live: Live,
                  k: string, rest: seq<Stmt>, order: seq<string>, ok: bool)
    requires k in desired && Acyclic(GraphOf(live, refs))
    requires MayCreate(tables, refs, live, k, desired[k]) <==> Creatable(tables, refs, desired, k)
    requires Creatable(tables, refs, desired, k) ==>
      (forall r :: r in refs(desired[k].definition) && r in desired ==>
        r in live && SameView(norm, live[r], desired[r])) &&
      CreateOutcome(tables, refs, norm, current, desired, start, live[k := desired[k]], rest, order, ok)
    ensures CreateOutcome(tables, refs, norm, current, desired, start, live,
      [CreateOrReplace(k, desired[k])] + rest, order,
      Creatable(tables, refs, desired, k) && ok)
  {
    hide CreateState, Acyclic, GraphOf, MayCreate, Creatable, SameView;
    var s := CreateOrReplace(k, desired[k]);
    assert ([s] + rest)[0] == s && ([s] + rest)[1..] == rest;
  }

  lemma AllCreatableStep(tables: set<string>, refs: Refs, norm: Norm, current: Live, desired: Live,
    order: seq<string>, i: nat)
    requires (forall j :: 0 <= j < |order| ==> order[j] in desired) && i <= |order|
    ensures i == |order| ==> AllCreatable(tables, refs, norm, current, desired, order, i)
    ensures i < |order| ==>
      (AllCreatable(tables, refs, norm, current, desired, order, i) <==>
       (Unchanged(current, desired, norm, order[i]) || Creatable(tables, refs, desired, order[i])) &&
       AllCreatable(tables, refs, norm, current, desired, order, i + 1))
  {
    hide Unchanged, Creatable;
  }

  // The creates from position i on.
  lemma {:induction false} CreatesRun(tables: set<string>, refs: Refs, norm: Norm, current: Live, desired: Live,
    start: Live, live: Live, order: seq<string>, i: nat)
    requires CreateState(refs, norm, current, desired, start, live, order, i) && i <= |order|
    requires forall j :: 0 <= j < |order| ==> order[j] in desired
    ensures CreateOutcome(tables, refs, norm, current, desired, start, live,
      Creates(current, desired, norm, order[i..]), order,
      AllCreatable(tables, refs, norm, current, desired, order, i))
    decreases |order| - i
  {
    hide *;
    StateAcyclic(refs, norm, current, desired, start, live, order, i);
    AllCreatableStep(tables, refs, norm, current, desired, order, i);
    if i == |order| {
      assert order[i..] == [];
      NoCreates(current, desired, norm);
      CreateNothing(tables, refs, norm, current, desired, start, live, order);
    } else {
      CreatesStep(current, desired, norm, order, i);
      NextInPlace(refs, norm, current, desired, start, live, order, i);
      var k, rest := order[i], Creates(current, desired, norm, order[i + 1..]);
      if Unchanged(current, desired, norm, k) {
        assert [] + rest == rest;
        CreatesRun(tables, refs, norm, current, desired, start, live, order, i + 1);
      } else {
        NextCreate(tables, refs, norm, current, desired, start, live, order, i);
        if Creatable(tables, refs, desired, k) {
          CreatesRun(tables, refs, norm, current, desired, start, live[k := desired[k]], order, i + 1);
          CreateReads(refs, norm, current, desired, start, live, order, i, tables);
        }
        CreateOne(tables, refs, norm, current, desired, start, live, k, rest, order,
          AllCreatable(tables, refs, norm, current, desired, order, i + 1));
      }
    }
  }

  lemma CreateReads(refs: Refs, norm: Norm, current: Live, desired: Live, start: Live, live: Live, order: seq<string>,
    i: nat, tables: set<string>)
    requires CreateState(refs, norm, current, desired, start, live, order, i) && i < |order| && order[i] in desired
    requires Creatable(tables, refs, desired, order[i])
    ensures forall r :: r in refs(desired[order[i]].definition) && r in desired ==>
      r in live && SameView(norm, live[r], desired[r])
  {
    hide CreateState, ViewEqual, SameView;
    forall r | r in refs(desired[order[i]].definition) && r in desired
      ensures r in live && SameView(norm, live[r], desired[r]) {
      NextReads(refs, norm, current, desired, start, live, order, i, r);
      ViewEqualIs(norm, live[r], desired[r]);
    }
  }

  /* ----- the whole migration ----- */

  // The views left after the drops the plan contains.
  ghost function Kept(current: Live, desired: Live, refs: Refs, allowDrop: bool): Live {
    if allowDrop then Remaining(current, desired, Order(GraphOf(current, refs))) else current
  }

  lemma KeptViews(current: Live, desired: Live, refs: Refs, allowDrop: bool)
    requires Acyclic(GraphOf(current, refs))
    ensures var kept := Kept(current, desired, refs, allowDrop);
      Acyclic(GraphOf(kept, refs)) &&
      (forall k :: k in kept ==> k in current && kept[k] == current[k]) &&
      (forall k :: k in kept <==> k in current && (k in desired || !allowDrop))
  {
    OrderLists(GraphOf(current, refs));
    var kept, order := Kept(current, desired, refs, allowDrop), Order(GraphOf(current, refs));
    forall k | k in current ensures k in order { assert k in Elems(order); }
    FewerViewsAcyclic(kept, current, refs);
  }

  // A view that has to be created or replaced.
  ghost predicate Changes(norm: Norm, current: Live, desired: Live, k: string)
    requires k in desired
  {
    !(k in current && SameView(norm, current[k], desired[k]))
  }

  // What the creates of a plan do to the views that the drops left.
  ghost predicate Migrated(tables: set<string>, refs: Refs, norm: Norm, current: Live, desired: Live, kept: Live,
    creates: seq<Stmt>) {
    match Run(tables, refs, kept, creates)
    case None =>
      exists k :: k in desired && Changes(norm, current, desired, k) && !Creatable(tables, refs, desired, k)
    case Some(end) =>
      (forall k :: k in desired && Changes(norm, current, desired, k) ==> Creatable(tables, refs, desired, k)) &&
      CreatesSafely(tables, refs, norm, desired, kept, creates) &&
      end.Keys == kept.Keys + desired.Keys && Acyclic(GraphOf(end, refs)) &&
      forall k :: k in desired ==> k in end && SameView(norm, end[k], desired[k])
  }

  lemma ChangesIs(norm: Norm, current: Live, desired: Live, k: string)
    requires k in desired
    ensures Changes(norm, current, desired, k) <==> !Unchanged(current, desired, norm, k)
  {
    if k in current { ViewEqualIs(norm, current[k], desired[k]); }
    hide ViewEqual, SameView;
  }

  lemma EndState(refs: Refs, norm: Norm, current: Live, desired: Live, start: Live, end: Live, order: seq<string>)
    requires CreateState(refs, norm, current, desired, start, end, order, |order|)
    ensures end.Keys == start.Keys + desired.Keys && Acyclic(GraphOf(end, refs))
    ensures forall k :: k in desired ==> k in end && SameView(norm, end[k], desired[k])
  {
    StateAcyclic(refs, norm, current, desired, start, end, order, |order|);
    hide Acyclic, GraphOf, Topological, ViewEqual, SameView, NormKeepsRefs, NoStaleReads;
    assert order[..|order|] == order;
    forall k | k in desired ensures k in end && SameView(norm, end[k], desired[k]) {
      assert k in Elems(order);
      ViewEqualIs(norm, end[k], desired[k]);
    }
  }

  lemma OutcomeIsMigrated(tables: set<string>, refs: Refs, norm: Norm, current: Live, desired: Live, kept: Live,
    creates: seq<Stmt>, order: seq<string>)
    requires (forall j :: 0 <= j < |order| ==> order[j] in desired) && Elems(order) == desired.Keys
    requires CreateOutcome(tables, refs, norm, current, desired, kept, kept, creates, order,
      AllCreatable(tables, refs, norm, current, desired, order, 0))
    ensures Migrated(tables, refs, norm, current, desired, kept, creates)
  {
    hide Acyclic, GraphOf, Creatable, Unchanged, CreatesSafely, CreateState, SameView, Changes, Run;
    forall k | k in desired ensures Changes(norm, current, desired, k) <==> !Unchanged(current, desired, norm, k) {
      ChangesIs(norm, current, desired, k);
    }
    match Run(tables, refs, kept, creates) {
      case None =>
        var j :| 0 <= j < |order| && !Unchanged(current, desired, norm, order[j]) &&
          !Creatable(tables, refs, desired, order[j]);
        assert Changes(norm, current, desired, order[j]);
      case Some(end) =>
        EndState(refs, norm, current, desired, kept, end, order);
        forall k | k in desired && Changes(norm, current, desired, k) ensures Creatable(tables, refs, desired, k) {
          assert k in Elems(order);
          var j :| 0 <= j < |order| && order[j] == k;
        }
    }
  }

  // The main result. The drops always run: each dropped view is read by no other view still to be
  // dropped. The creates run exactly when every new or changed view reads only tables and other
  // desired views; each one then finds all of them in their final form. No circle of views ever
  // exists, and with drops allowed exactly the desired views are live at the end.
  lemma MigrationRuns(tables: set<string>, refs: Refs, norm: Norm, current: Live, desired: Live, allowDrop: bool)
    requires NormKeepsRefs(norm, refs)
    requires Acyclic(GraphOf(current, refs)) && Acyclic(GraphOf(desired, refs))
    requires NoStaleReads(refs, desired, Kept(current, desired, refs, allowDrop))
    ensures var plan, kept := Plan(current, desired, refs, norm, allowDrop), Kept(current, desired, refs, allowDrop);
      Run(tables, refs, current, plan.drops) == Some(kept) && DropsSafely(refs, desired, current, plan.drops) &&
      Migrated(tables, refs, norm, current, desired, kept, plan.creates) &&
      (allowDrop ==> kept.Keys <= desired.Keys)
  {
    var order := DesiredOrder(desired, refs);
    var kept := Kept(current, desired, refs, allowDrop);
    OrderLists(GraphOf(desired, refs));
    KeptViews(current, desired, refs, allowDrop);
    DropsPart(tables, refs, current, desired, norm, allowDrop);
    StartCreates(norm, refs, current, desired, kept, order);
    assert Plan(current, desired, refs, norm, allowDrop).creates == Creates(current, desired, norm, order);
    hide *;
    CreatesRun(tables, refs, norm, current, desired, kept, kept, order, 0);
    assert order[0..] == order;
    OutcomeIsMigrated(tables, refs, norm, current, desired, kept, Creates(current, desired, norm, order), order);
  }

  lemma DropsPart(tables: set<string>, refs: Refs, current: Live, desired: Live, norm: Norm, allowDrop: bool)
    requires Acyclic(GraphOf(current, refs)) && Acyclic(GraphOf(desired, refs))
    ensures var plan := Plan(current, desired, refs, norm, allowDrop);
      Run(tables, refs, current, plan.drops) == Some(Kept(current, desired, refs, allowDrop)) &&
      DropsSafely(refs, desired, current, plan.drops)
  {
    var order := Order(GraphOf(current, refs));
    OrderLists(GraphOf(current, refs));
    DropsRun(tables, refs, current, desired, order, 0);
    assert order[0..] == order;
    hide Acyclic, GraphOf;
  }

  lemma StartCreates(norm: Norm, refs: Refs, current: Live, desired: Live, kept: Live, order: seq<string>)
    requires NormKeepsRefs(norm, refs) && NoStaleReads(refs, desired, kept)
    requires Acyclic(GraphOf(kept, refs)) && Acyclic(GraphOf(desired, refs))
    requires Topological(GraphOf(desired, refs), order) && Elems(order) == desired.Keys
    requires forall k :: k in kept ==> k in current && kept[k] == current[k]
    requires forall k :: k in desired ==> (k in kept <==> k in current)
    ensures CreateState(refs, norm, current, desired, kept, kept, order, 0)
  {
  }

  lemma {:induction false} NothingToCreate(norm: Norm, desired: Live, end: Live, order: seq<string>)
    requires forall k :: k in desired ==> k in end && SameView(norm, end[k], desired[k])
    requires forall j :: 0 <= j < |order| ==> order[j] in desired
    ensures Creates(end, desired, norm, order) == []
  {
    hide ViewEqual, SameView;
    if order != [] {
      ViewEqualIs(norm, end[order[0]], desired[order[0]]);
      NothingToCreate(norm, desired, end, order[1..]);
    }
  }

  lemma {:induction false} NothingToDrop(desired: Live, order: seq<string>)
    requires forall j :: 0 <= j < |order| ==> order[j] in desired
    ensures Drops(desired, order) == []
  {
    if order != [] { NothingToDrop(desired, order[1..]); }
  }

  lemma NothingStale(refs: Refs, current: Live, desired: Live)
    requires Acyclic(GraphOf(current, refs))
    ensures NoStaleReads(refs, desired, Kept(current, desired, refs, true)) &&
      Kept(current, desired, refs, true).Keys <= desired.Keys
  {
    KeptViews(current, desired, refs, true);
    hide Kept, Acyclic, GraphOf;
  }

  // With drops allowed: run the plan, load the views and plan again. The views have no cycle, so the planner
  // succeeds, and it finds nothing to create, drop or skip.
  lemma ReplanIsEmpty(
    tables: set<string>, refs: Refs, norm: Norm, current: Live, desired: Live, end: Live, again: bool)
    requires NormKeepsRefs(norm, refs) && Acyclic(GraphOf(current, refs)) && Acyclic(GraphOf(desired, refs))
    requires var plan := Plan(current, desired, refs, norm, true);
      Run(tables, refs, current, plan.drops + plan.creates) == Some(end)
    ensures end.Keys == desired.Keys && (forall k :: k in desired ==> SameView(norm, end[k], desired[k])) &&
      Acyclic(GraphOf(end, refs)) && Plan(end, desired, refs, norm, again) == ViewPlan([], [], [])
  {
    hide *;
    var plan, kept := Plan(current, desired, refs, norm, true), Kept(current, desired, refs, true);
    NothingStale(refs, current, desired);
    MigrationRuns(tables, refs, norm, current, desired, true);
    RunAppend(tables, refs, current, plan.drops, plan.creates);
    MigratedEnds(tables, refs, norm, current, desired, kept, plan.creates);
    assert kept.Keys + desired.Keys == desired.Keys;
    SettledPlan(refs, norm, desired, end, again);
  }

  // Planning for views that are as desired.
  lemma SettledPlan(refs: Refs, norm: Norm, desired: Live, end: Live, again: bool)
    requires Acyclic(GraphOf(end, refs)) && Acyclic(GraphOf(desired, refs)) && end.Keys == desired.Keys
    requires forall k :: k in desired ==> k in end && SameView(norm, end[k], desired[k])
    ensures Plan(end, desired, refs, norm, again) == ViewPlan([], [], [])
  {
    GraphKeys(end, refs);
    hide Acyclic, GraphOf, Topological, SameView, Creates, Drops, Order;
    OrderLists(GraphOf(end, refs));
    var order := Order(GraphOf(end, refs));
    forall j | 0 <= j < |order| ensures order[j] in desired { assert order[j] in GraphOf(end, refs).Keys; }
    NothingToCreate(norm, desired, end, DesiredOrder(desired, refs));
    NothingToDrop(desired, order);
  }

  lemma GraphKeys(live: Live, refs: Refs)
    ensures GraphOf(live, refs).Keys == live.Keys && Closed(GraphOf(live, refs))
  {
  }

  lemma MigratedEnds(tables: set<string>, refs: Refs, norm: Norm, current: Live, desired: Live, kept: Live,
    creates: seq<Stmt>)
    requires Migrated(tables, refs, norm, current, desired, kept, creates) && Run(tables, refs, kept, creates).Some?
    ensures var end := Run(tables, refs, kept, creates).value;
      end.Keys == kept.Keys + desired.Keys && Acyclic(GraphOf(end, refs)) &&
      forall k :: k in desired ==> k in end && SameView(norm, end[k], desired[k])
  {
    hide Run, Acyclic, GraphOf, Creatable, CreatesSafely, SameView;
  }
}
