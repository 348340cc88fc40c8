/** Views, the graph of references between them, and what MySQL does with DROP and CREATE VIEW. */
module ViewModel {
  import opened Common
  import opened SortedNames

  datatype View = View(definition: string, checkOption: string)

  // The tables and views a definition reads, each named once.
  type Refs = string -> seq<string>

  // The other views of the set that view k reads.
  ghost function Deps(views: map<string, View>, refs: Refs, k: string): set<string>
    requires k in views
  {
    set r | r in refs(views[k].definition) && r != k && r in views
  }

  type Graph = map<string, set<string>>

  ghost function GraphOf(views: map<string, View>, refs: Refs): (g: Graph)
    ensures g.Keys == views.Keys && Closed(g)
  {
    map k | k in views :: Deps(views, refs, k)
  }

  // Edges stay inside the graph.
  ghost predicate Closed(g: Graph) {
    forall k, r :: k in g && r in g[k] ==> r in g
  }

  // A walk along references, from each view to one it reads.
  ghost predicate IsWalk(g: Graph, p: seq<string>) {
    (forall i :: 0 <= i < |p| ==> p[i] in g) &&
    forall i, j :: 0 <= i && j == i + 1 && j < |p| ==> p[j] in g[p[i]]
  }

  ghost predicate IsCycle(g: Graph, p: seq<string>) {
    |p| >= 2 && p[0] == p[|p| - 1] && IsWalk(g, p)
  }

  ghost predicate Acyclic(g: Graph) {
    forall p :: !IsCycle(g, p)
  }

  // Every dependency comes before its dependant.
  ghost predicate Topological(g: Graph, out: seq<string>) {
    Distinct(out) &&
    forall i :: 0 <= i < |out| ==> out[i] in g && forall r :: r in g[out[i]] ==> r in out[..i]
  }

  // Kahn's algorithm without counters: the views whose dependencies have all been put out.
  ghost function Unlocked(g: Graph, out: seq<string>, n: string): set<string> {
    set m | m in g && n in g[m] && forall r :: r in g[m] ==> r == n || r in out
  }

  ghost function Kahn(g: Graph, queue: seq<string>, out: seq<string>, fuel: nat): seq<string>
    decreases fuel
  {
    if queue == [] || fuel == 0 then out
    else Kahn(g, queue[1..] + SortSet(Unlocked(g, out, queue[0])), out + [queue[0]], fuel - 1)
  }

  ghost function Roots(g: Graph): set<string> {
    set k | k in g && g[k] == {}
  }

  // The order in which views are put out: a function of the graph alone.
  ghost function Order(g: Graph): seq<string> {
    Kahn(g, SortSet(Roots(g)), [], |g|)
  }
}
