/** The topological sort of views: it succeeds exactly on acyclic references. */
module ViewSort {
  import opened Common
  import opened SortedNames
  import opened ViewModel

  /* ----- the queue holds exactly what is ready ----- */

  ghost predicate Ready(g: Graph, out: seq<string>, k: string) {
    k in g && k !in out && forall r :: r in g[k] ==> r in out
  }

  ghost predicate KahnState(g: Graph, queue: seq<string>, out: seq<string>) {
    Topological(g, out) && Distinct(queue) && forall k :: k in queue <==> Ready(g, out, k)
  }

  lemma StartState(g: Graph)
    ensures KahnState(g, SortSet(Roots(g)), [])
  {
    SortSetIs(Roots(g));
    forall k ensures k in SortSet(Roots(g)) <==> Ready(g, [], k) {
      assert k in SortSet(Roots(g)) <==> k in Elems(SortSet(Roots(g)));
      if Ready(g, [], k) { assert g[k] == {}; }
    }
  }

  lemma StepState(g: Graph, queue: seq<string>, out: seq<string>)
    requires KahnState(g, queue, out) && queue != []
    ensures KahnState(g, queue[1..] + SortSet(Unlocked(g, out, queue[0])), out + [queue[0]])
  {
    var n := queue[0];
    var u := Unlocked(g, out, n);
    var next, out' := SortSet(u), out + [n];
    SortSetIs(u);
    assert Ready(g, out, n);
    forall k ensures k in next <==> k in u { assert k in next <==> k in Elems(next); }
    forall k ensures k in queue[1..] <==> k in queue && k != n {
      if k in queue && k != n { var i :| 0 <= i < |queue| && queue[i] == k; assert queue[1..][i - 1] == k; }
      if k in queue[1..] { var i :| 0 <= i < |queue[1..]| && queue[1..][i] == k; assert queue[i + 1] == k; }
    }
    assert forall k :: k in out' <==> k in out || k == n;
    forall k ensures k in queue[1..] + next <==> Ready(g, out', k) {
      if k in u && k in out { InvolvedBefore(g, out, k, n); }
    }
    assert n !in out;
    forall k | k in queue[1..] ensures k !in next { assert Ready(g, out, k); }
    DistinctConcat(queue[1..], next);
    TopologicalStep(g, out, n);
  }

  lemma DistinctConcat(a: seq<string>, b: seq<string>)
    requires Distinct(a) && Distinct(b) && forall k :: k in a ==> k !in b
    ensures Distinct(a + b)
  {
    forall i, j | 0 <= i < j < |a + b| ensures (a + b)[i] != (a + b)[j] {
      if i < |a| <= j { assert a[i] in a && b[j - |a|] in b; }
    }
  }

  // A view that was put out has no unprinted dependency.
  lemma InvolvedBefore(g: Graph, out: seq<string>, k: string, n: string)
    requires Topological(g, out) && k in out && k in g && n in g[k]
    ensures n in out
  {
    var i :| 0 <= i < |out| && out[i] == k;
    assert n in out[..i];
  }

  lemma TopologicalStep(g: Graph, out: seq<string>, n: string)
    requires Topological(g, out) && Ready(g, out, n)
    ensures Topological(g, out + [n])
  {
    var o := out + [n];
    forall i | 0 <= i < |o| ensures o[i] in g && forall r :: r in g[o[i]] ==> r in o[..i] {
      if i < |out| { assert o[..i] == out[..i]; } else { assert o[..i] == out; }
    }
  }

  lemma {:induction false} KahnEnds(g: Graph, queue: seq<string>, out: seq<string>, fuel: nat)
    requires KahnState(g, queue, out) && fuel + |out| == |g|
    ensures var r := Kahn(g, queue, out, fuel);
      Topological(g, r) && forall k :: !Ready(g, r, k)
    decreases fuel
  {
    if queue == [] {
      assert forall k :: Ready(g, out, k) ==> k in queue;
    } else if fuel == 0 {
      AllPut(g, out);
    } else {
      StepState(g, queue, out);
      KahnEnds(g, queue[1..] + SortSet(Unlocked(g, out, queue[0])), out + [queue[0]], fuel - 1);
    }
  }

  lemma {:induction false} DistinctSize(s: seq<string>)
    requires Distinct(s)
    ensures |Elems(s)| == |s|
  {
    if s != [] {
      assert forall i :: 0 <= i < |s[1..]| ==> s[1..][i] == s[i + 1] != s[0];
      DistinctSize(s[1..]);
      assert Elems(s) == {s[0]} + Elems(s[1..]);
    }
  }

  lemma SubsetSize(a: set<string>, b: set<string>)
    requires a <= b
    ensures |a| <= |b| && (|a| == |b| ==> a == b)
  {
    assert b == a + (b - a);
  }

  lemma AllPut(g: Graph, out: seq<string>)
    requires Topological(g, out) && |out| >= |g|
    ensures |out| == |g| && forall k :: k in g ==> k in out
  {
    DistinctSize(out);
    assert |g| == |g.Keys|;
    forall k | k in Elems(out) ensures k in g.Keys { var i :| 0 <= i < |out| && out[i] == k; }
    SubsetSize(Elems(out), g.Keys);
    assert forall k :: k in g ==> k in Elems(out);
  }

  /* ----- success means no cycle ----- */

  // In a topological order, references go strictly backwards.
  lemma {:induction false} WalkGoesBack(g: Graph, out: seq<string>, p: seq<string>, i: nat) returns (j: nat)
    requires Topological(g, out) && |p| >= 1 && IsWalk(g, p)
    requires i < |out| && out[i] == p[0]
    ensures j <= i && out[j] == p[|p| - 1] && (|p| > 1 ==> j < i)
  {
    if |p| == 1 {
      j := i;
    } else {
      assert p[1] in g[p[0]];
      var m :| 0 <= m < i && out[..i][m] == p[1];
      j := WalkGoesBack(g, out, p[1..], m);
    }
  }

  lemma OrderedIsAcyclic(g: Graph, out: seq<string>)
    requires Topological(g, out) && forall k :: k in g ==> k in out
    ensures Acyclic(g)
  {
    forall p ensures !IsCycle(g, p) {
      if IsCycle(g, p) {
        var i :| 0 <= i < |out| && out[i] == p[0];
        var j := WalkGoesBack(g, out, p, i);
        assert false;
      }
    }
  }

  /* ----- failure means a cycle: the pigeonhole argument ----- */

  // Views that were not put out: each reads another of them.
  ghost predicate ReadsInto(g: Graph, s: set<string>, k: string)
    requires k in g
  {
    exists r :: r in s && r in g[k]
  }

  ghost predicate Stuck(g: Graph, s: set<string>) {
    s <= g.Keys && forall k :: k in s ==> ReadsInto(g, s, k)
  }

  lemma NextOf(g: Graph, s: set<string>, k: string) returns (r: string)
    requires k in g && ReadsInto(g, s, k)
    ensures r in s && r in g[k]
  {
    r :| r in s && r in g[k];
  }

  lemma {:induction false} LongWalk(g: Graph, s: set<string>, n: nat) returns (p: seq<string>)
    requires Stuck(g, s) && s != {}
    ensures |p| == n + 1 && IsWalk(g, p) && forall i :: 0 <= i < |p| ==> p[i] in s
  {
    hide ReadsInto;
    if n == 0 {
      var k :| k in s;
      p := [k];
    } else {
      var q := LongWalk(g, s, n - 1);
      var last := q[n - 1];
      var r := NextOf(g, s, last);
      p := q + [r];
    }
  }

  lemma Pigeonhole(p: seq<string>, s: set<string>) returns (i: nat, j: nat)
    requires (forall k :: 0 <= k < |p| ==> p[k] in s) && |p| > |s|
    ensures i < j < |p| && p[i] == p[j]
  {
    if Distinct(p) {
      DistinctSize(p);
      assert Elems(p) <= s;
      SubsetSize(Elems(p), s);
      assert false;
    }
    i, j :| 0 <= i < j < |p| && p[i] == p[j];
  }

  lemma StuckHasCycle(g: Graph, s: set<string>)
    requires Stuck(g, s) && s != {}
    ensures !Acyclic(g)
  {
    hide Stuck;
    var p := LongWalk(g, s, |s|);
    var i, j := Pigeonhole(p, s);
    var c := p[i..j + 1];
    forall k, l | 0 <= k && l == k + 1 && l < |c| ensures c[l] in g[c[k]] { assert p[i + l] in g[p[i + k]]; }
    assert IsCycle(g, c);
  }

  lemma SomethingLeft(g: Graph, out: seq<string>)
    requires Topological(g, out) && |out| != |g|
    ensures g.Keys - Elems(out) != {}
  {
    DistinctSize(out);
    forall k | k in Elems(out) ensures k in g.Keys { var i :| 0 <= i < |out| && out[i] == k; }
    assert |g| == |g.Keys|;
    assert g.Keys == Elems(out) + (g.Keys - Elems(out));
  }

  // The main result about the order: it is topological, and it puts out every view exactly when
  // the references have no cycle.
  lemma OrderIsTopological(g: Graph)
    requires Closed(g)
    ensures Topological(g, Order(g))
    ensures |Order(g)| == |g| <==> Acyclic(g)
    ensures |Order(g)| == |g| ==> Elems(Order(g)) == g.Keys
  {
    StartState(g);
    KahnEnds(g, SortSet(Roots(g)), [], |g|);
    var out := Order(g);
    if |out| == |g| {
      AllPut(g, out);
      OrderedIsAcyclic(g, out);
      assert Elems(out) == g.Keys;
    } else {
      var s := g.Keys - Elems(out);
      SomethingLeft(g, out);
      forall k | k in s ensures ReadsInto(g, s, k) {
        assert !Ready(g, out, k);
        assert k !in out;
        var r :| r in g[k] && r !in out;
        assert r in s;
      }
      StuckHasCycle(g, s);
    }
  }

  /* ----- the sort as the program runs it ----- */

  function DegreeOf(indeg: map<string, int>, k: string): int {
    if k in indeg then indeg[k] else 0
  }

  function DependantsOf(rev: map<string, seq<string>>, r: string): seq<string> {
    if r in rev then rev[r] else []
  }

  // rev and indeg describe the edges of the views in `seen`.
  ghost predicate Counts(g: Graph, seen: set<string>, rev: map<string, seq<string>>, indeg: map<string, int>) {
    (forall r :: Distinct(DependantsOf(rev, r))) &&
    (forall r, k :: k in DependantsOf(rev, r) <==> k in seen && k in g && r in g[k]) &&
    forall k :: DegreeOf(indeg, k) == if k in seen && k in g then |g[k]| else 0
  }

  // The two maps with view k's edges to `done` added.
  ghost predicate Entered(k: string, done: set<string>, rev0: map<string, seq<string>>, indeg0: map<string, int>,
                          rev: map<string, seq<string>>, indeg: map<string, int>)
  {
    (forall r :: DependantsOf(rev, r) == DependantsOf(rev0, r) + if r in done then [k] else []) &&
    forall m :: DegreeOf(indeg, m) == DegreeOf(indeg0, m) + if m == k then |done| else 0
  }

  lemma EnterEdge(k: string, done: set<string>, r: string, rev0: map<string, seq<string>>, indeg0: map<string, int>,
                  rev: map<string, seq<string>>, indeg: map<string, int>)
    requires Entered(k, done, rev0, indeg0, rev, indeg) && r !in done
    ensures Entered(k, done + {r}, rev0, indeg0, rev[r := DependantsOf(rev, r) + [k]],
      indeg[k := DegreeOf(indeg, k) + 1])
  {
    hide DependantsOf, DegreeOf;
    var rev', indeg' := rev[r := DependantsOf(rev, r) + [k]], indeg[k := DegreeOf(indeg, k) + 1];
    forall q ensures DependantsOf(rev', q) == DependantsOf(rev0, q) + if q in done + {r} then [k] else [] {
      DependantsUpdate(rev, r, DependantsOf(rev, r) + [k], q);
      if q == r { assert DependantsOf(rev, r) == DependantsOf(rev0, r) + []; }
    }
    assert |done + {r}| == |done| + 1;
    forall m ensures DegreeOf(indeg', m) == DegreeOf(indeg0, m) + if m == k then |done + {r}| else 0 {
      DegreeUpdate(indeg, k, DegreeOf(indeg, k) + 1, m);
    }
  }

  lemma DependantsUpdate(rev: map<string, seq<string>>, r: string, s: seq<string>, q: string)
    ensures DependantsOf(rev[r := s], q) == if q == r then s else DependantsOf(rev, q)
  {
  }

  lemma DegreeUpdate(indeg: map<string, int>, k: string, d: int, m: string)
    ensures DegreeOf(indeg[k := d], m) == if m == k then d else DegreeOf(indeg, m)
  {
  }

  lemma AllEntered(g: Graph, seen: set<string>, k: string, rev0: map<string, seq<string>>, indeg0: map<string, int>,
                   rev: map<string, seq<string>>, indeg: map<string, int>)
    requires k in g && k !in seen && Counts(g, seen, rev0, indeg0) && Entered(k, g[k], rev0, indeg0, rev, indeg)
    ensures Counts(g, seen + {k}, rev, indeg)
  {
    forall r
      ensures Distinct(DependantsOf(rev, r))
      ensures forall m :: m in DependantsOf(rev, r) <==> m in seen + {k} && m in g && r in g[m]
    {
      DependantEntered(g, seen, k, r, DependantsOf(rev0, r), DependantsOf(rev, r));
    }
  }

  lemma DependantEntered(g: Graph, seen: set<string>, k: string, r: string, before: seq<string>, after: seq<string>)
    requires k in g && k !in seen && Distinct(before) && after == before + if r in g[k] then [k] else []
    requires forall m :: m in before <==> m in seen && m in g && r in g[m]
    ensures Distinct(after) && forall m :: m in after <==> m in seen + {k} && m in g && r in g[m]
  {
    assert k !in before;
  }

  // One view's references, as they are entered into the two maps.
  method EnterView(k: string, views: map<string, View>, refs: seq<string>, rev0: map<string, seq<string>>,
    indeg0: map<string, int>)
    returns (rev: map<string, seq<string>>, indeg: map<string, int>)
    requires Distinct(refs)
    ensures Entered(k, (set r | r in refs && r != k && r in views), rev0, indeg0, rev, indeg)
  {
    rev, indeg := rev0, indeg0;
    ghost var done: set<string> := {};
    for j := 0 to |refs|
      invariant done == set r | r in refs[..j] && r != k && r in views
      invariant Entered(k, done, rev0, indeg0, rev, indeg)
    {
      hide Entered;
      var r := refs[j];
      assert refs[..j + 1] == refs[..j] + [r];
      if r == k { continue; }
      if r !in views { continue; }
      assert r !in done by { assert forall i :: 0 <= i < j ==> refs[i] != r; }
      EnterEdge(k, done, r, rev0, indeg0, rev, indeg);
      rev := rev[r := DependantsOf(rev, r) + [k]];
      indeg := indeg[k := DegreeOf(indeg, k) + 1];
      done := done + {r};
    }
    assert refs[..|refs|] == refs;
  }

  lemma NothingEntered(g: Graph)
    ensures Counts(g, {}, map[], map[])
  {
  }

  lemma OneMoreKey(keys: seq<string>, i: nat)
    requires Distinct(keys) && i < |keys|
    ensures keys[i] in Elems(keys) && keys[i] !in Elems(keys[..i])
    ensures Elems(keys[..i + 1]) == Elems(keys[..i]) + {keys[i]}
  {
    assert keys[..i + 1] == keys[..i] + [keys[i]];
  }

  method BuildGraph(views: map<string, View>, keys: seq<string>, refs: Refs, ghost g: Graph)
    returns (rev: map<string, seq<string>>, indeg: map<string, int>)
    requires g == GraphOf(views, refs) && Distinct(keys) && Elems(keys) == views.Keys
    requires forall d :: Distinct(refs(d))
    ensures Counts(g, g.Keys, rev, indeg)
  {
    rev, indeg := map[], map[];
    NothingEntered(g);
    assert Elems(keys[..0]) == {};
    hide Counts, Entered, Distinct;
    for i := 0 to |keys|
      invariant Counts(g, Elems(keys[..i]), rev, indeg)
    {
      var k := keys[i];
      OneMoreKey(keys, i);
      ghost var rev0, indeg0 := rev, indeg;
      rev, indeg := EnterView(k, views, refs(views[k].definition), rev, indeg);
      assert g[k] == Deps(views, refs, k);
      AllEntered(g, Elems(keys[..i]), k, rev0, indeg0, rev, indeg);
    }
    assert keys[..|keys|] == keys;
  }

  // indeg counts the dependencies that have not been put out.
  ghost predicate Unmet(g: Graph, out: seq<string>, indeg: map<string, int>) {
    forall k :: k in g ==> DegreeOf(indeg, k) == |g[k] - Elems(out)|
  }

  lemma PutOneMore(s: set<string>, out: seq<string>, n: string)
    requires n !in out
    ensures |s - Elems(out + [n])| == |s - Elems(out)| - if n in s then 1 else 0
  {
    assert Elems(out + [n]) == Elems(out) + {n};
    assert s - Elems(out + [n]) == (s - Elems(out)) - {n};
  }

  lemma NoneUnmet(s: set<string>, out: seq<string>)
    ensures |s - Elems(out)| == 0 <==> forall r :: r in s ==> r in out
  {
    if |s - Elems(out)| == 0 {
      assert s - Elems(out) == {};
      forall r | r in s ensures r in out { assert r !in s - Elems(out); }
    }
    if forall r :: r in s ==> r in out { assert s - Elems(out) == {}; }
  }

  lemma LastDependency(g: Graph, out: seq<string>, n: string, k: string)
    requires k in g && n !in out
    ensures k in Unlocked(g, out, n) <==> n in g[k] && |g[k] - Elems(out)| == 1
  {
    PutOneMore(g[k], out, n);
    NoneUnmet(g[k], out + [n]);
    assert forall r :: r in out + [n] <==> r in out || r == n;
  }

  // Putting out n: its dependants lose one unmet dependency each, and those left with none are next.
  method Release(ghost g: Graph, ghost out: seq<string>, n: string, dependants: seq<string>, indeg0: map<string, int>)
    returns (indeg: map<string, int>, next: seq<string>)
    requires Unmet(g, out, indeg0) && n !in out
    requires Distinct(dependants) && forall k :: k in dependants <==> k in g && n in g[k]
    ensures Unmet(g, out + [n], indeg)
    ensures Distinct(next) && Elems(next) == Unlocked(g, out, n)
  {
    indeg, next := indeg0, [];
    hide Unlocked;
    for j := 0 to |dependants|
      invariant forall k :: DegreeOf(indeg, k) == DegreeOf(indeg0, k) - if k in dependants[..j] then 1 else 0
      invariant Distinct(next)
      invariant forall k :: k in next <==> k in dependants[..j] && DegreeOf(indeg0, k) == 1
    {
      var m := dependants[j];
      assert m !in dependants[..j];
      assert dependants[..j + 1] == dependants[..j] + [m];
      indeg := indeg[m := DegreeOf(indeg, m) - 1];
      if DegreeOf(indeg, m) == 0 {
        next := next + [m];
      }
    }
    assert dependants[..|dependants|] == dependants;
    forall k | k in g ensures DegreeOf(indeg, k) == |g[k] - Elems(out + [n])| { PutOneMore(g[k], out, n); }
    assert forall k :: k in next <==> k in g && n in g[k] && |g[k] - Elems(out)| == 1;
    UnlockedAre(g, out, n, next);
  }

  lemma UnlockedAre(g: Graph, out: seq<string>, n: string, next: seq<string>)
    requires n !in out && forall k :: k in next <==> k in g && n in g[k] && |g[k] - Elems(out)| == 1
    ensures Elems(next) == Unlocked(g, out, n)
  {
    forall k ensures k in next <==> k in Unlocked(g, out, n) {
      if k in g { LastDependency(g, out, n, k); }
    }
  }

  lemma RootsInOrder(g: Graph, keys: seq<string>, ready: seq<string>, indeg: map<string, int>)
    requires Sorted(ready) && Distinct(ready) && Elems(keys) == g.Keys
    requires forall k :: k in ready <==> k in keys && DegreeOf(indeg, k) == 0
    requires forall k :: k in g ==> DegreeOf(indeg, k) == |g[k]|
    ensures ready == SortSet(Roots(g))
  {
    forall k ensures k in Elems(ready) <==> k in Roots(g) {
      assert k in keys <==> k in Elems(keys);
      if k in g && |g[k]| == 0 { assert g[k] == {}; }
    }
    SortedIsSortSet(ready, Roots(g));
  }

  // The views with no dependency, in the order of the sorted keys.
  method InitialQueue(keys: seq<string>, indeg: map<string, int>, ghost g: Graph) returns (queue: seq<string>)
    requires Sorted(keys) && Distinct(keys) && Elems(keys) == g.Keys
    requires forall k :: k in g ==> DegreeOf(indeg, k) == |g[k]|
    ensures queue == SortSet(Roots(g))
  {
    hide *;
    queue := [];
    ghost var at: seq<nat> := [];
    for i := 0 to |keys|
      invariant |at| == |queue| && forall j :: 0 <= j < |queue| ==> at[j] < i && keys[at[j]] == queue[j]
      invariant forall a, b :: 0 <= a < b < |queue| ==> at[a] < at[b]
      invariant forall j :: 0 <= j < |queue| ==> DegreeOf(indeg, queue[j]) == 0
      invariant forall j :: 0 <= j < i && DegreeOf(indeg, keys[j]) == 0 ==> keys[j] in queue
    {
      if DegreeOf(indeg, keys[i]) == 0 {
        queue := queue + [keys[i]];
        at := at + [i];
      }
    }
    PickedInOrder(keys, queue, at);
    RootsInOrder(g, keys, queue, indeg);
  }

  lemma PickedInOrder(keys: seq<string>, picked: seq<string>, at: seq<nat>)
    requires Sorted(keys) && Distinct(keys) && |at| == |picked|
    requires forall j :: 0 <= j < |picked| ==> at[j] < |keys| && keys[at[j]] == picked[j]
    requires forall a, b :: 0 <= a < b < |picked| ==> at[a] < at[b]
    ensures Sorted(picked) && Distinct(picked)
  {
    hide Leq;
  }

  lemma KahnStep(g: Graph, queue: seq<string>, out: seq<string>)
    requires KahnState(g, queue, out) && queue != [] && |out| <= |g|
    ensures |out| < |g| && queue[0] !in out
    ensures Kahn(g, queue, out, |g| - |out|) ==
      Kahn(g, queue[1..] + SortSet(Unlocked(g, out, queue[0])), out + [queue[0]], |g| - |out| - 1)
  {
    assert Ready(g, out, queue[0]);
    if |out| == |g| { AllPut(g, out); }
  }

  lemma KahnDone(g: Graph, out: seq<string>, fuel: nat)
    ensures Kahn(g, [], out, fuel) == out
  {
  }

  // The main loop: views are put out as their last dependency is.
  method PutOut(ghost g: Graph, start: seq<string>, rev: map<string, seq<string>>, indeg0: map<string, int>)
    returns (out: seq<string>)
    requires KahnState(g, start, []) && Unmet(g, [], indeg0)
    requires forall r :: Distinct(DependantsOf(rev, r))
    requires forall r, k :: k in DependantsOf(rev, r) <==> k in g && r in g[k]
    ensures out == Kahn(g, start, [], |g|)
  {
    hide *;
    var queue, indeg := start, indeg0;
    out := [];
    while |queue| > 0
      invariant KahnState(g, queue, out) && Unmet(g, out, indeg) && |out| <= |g|
      invariant Kahn(g, queue, out, |g| - |out|) == Kahn(g, start, [], |g|)
      decreases |g| - |out|
    {
      var n := queue[0];
      StepState(g, queue, out);
      KahnStep(g, queue, out);
      var next: seq<string>;
      indeg, next := Release(g, out, n, DependantsOf(rev, n), indeg);
      SortOfEnumeration(next, Unlocked(g, out, n));
      queue := queue[1..] + Sort(next);
      out := out + [n];
    }
    KahnDone(g, out, |g| - |out|);
  }

  lemma SortedKeys(order: seq<string>, s: set<string>)
    requires Distinct(order) && Elems(order) == s
    ensures Sorted(Sort(order)) && Distinct(Sort(order)) && Elems(Sort(order)) == s && |Sort(order)| == |s|
  {
    SortOfEnumeration(order, s);
    SortSetIs(s);
    DistinctSize(Sort(order));
  }

  lemma NothingPutOut(g: Graph, rev: map<string, seq<string>>, indeg: map<string, int>)
    requires Counts(g, g.Keys, rev, indeg)
    ensures Unmet(g, [], indeg)
    ensures forall k :: k in g ==> DegreeOf(indeg, k) == |g[k]|
    ensures forall r :: Distinct(DependantsOf(rev, r))
    ensures forall r, k :: k in DependantsOf(rev, r) <==> k in g && r in g[k]
  {
    assert forall k :: k in g ==> g[k] - Elems([]) == g[k];
  }

  // topoSortViews: `order` is the order in which the map happens to be walked.
  method TopoSortViews(views: map<string, View>, order: seq<string>, refs: Refs) returns (r: Option<seq<string>>)
    requires Distinct(order) && Elems(order) == views.Keys
    requires forall d :: Distinct(refs(d))
    ensures r.Some? <==> Acyclic(GraphOf(views, refs))
    ensures r.Some? ==> r.value == Order(GraphOf(views, refs))
  {
    ghost var g := GraphOf(views, refs);
    assert |g| == |g.Keys|;
    SortedKeys(order, views.Keys);
    OrderIsTopological(g);
    StartState(g);
    hide *;
    var keys := Sort(order);
    var rev, indeg := BuildGraph(views, keys, refs, g);
    NothingPutOut(g, rev, indeg);
    var queue := InitialQueue(keys, indeg, g);
    var out := PutOut(g, queue, rev, indeg);
    OrderIs(g);
    if |out| != |keys| { return None; }
    return Some(out);
  }

  lemma OrderIs(g: Graph)
    ensures Order(g) == Kahn(g, SortSet(Roots(g)), [], |g|)
  {
  }
}
