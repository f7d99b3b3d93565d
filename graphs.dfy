/**
 * The two graph shapes the core builds with networkx: an undirected
 * topology graph (`nx.Graph`) and the directed graph between functions that
 * forwarding paths induce (`nx.DiGraph`).  Node and edge attribute
 * dictionaries are display data and are left out; what remains is a node set
 * and an edge relation.  Reachability (`nx.has_path`) and connectedness
 * (`nx.is_connected`) are computed by a closure and proved equal to their
 * definitions by walks.
 */
module Graphs {

  /** An undirected graph; each edge is stored in both directions. */
  datatype Graph = Graph(nodes: set<string>, edges: set<(string, string)>) {

    /** Edges join nodes of the graph and are symmetric. */
    ghost predicate Valid() {
      forall e | e in edges :: e.0 in nodes && e.1 in nodes && (e.1, e.0) in edges
    }

    predicate HasNode(n: string) {
      n in nodes
    }

    predicate HasEdge(u: string, v: string) {
      (u, v) in edges
    }

    /** `g.add_node(n)`: a no-op on a present node. */
    function AddNode(n: string): (g: Graph)
      ensures (Valid() ==> g.Valid()) && g.nodes == nodes + {n} && g.edges == edges
    {
      Graph(nodes + {n}, edges)
    }

    /** `g.add_edge(u, v)`: adds the endpoints as nodes when they are new. */
    function AddEdge(u: string, v: string): (g: Graph)
      ensures (Valid() ==> g.Valid()) && g.nodes == nodes + {u, v}
      ensures g.edges == edges + {(u, v), (v, u)}
    {
      Graph(nodes + {u, v}, edges + {(u, v), (v, u)})
    }

    /** `set(g.neighbors(u))`. */
    function Neighbors(u: string): (ns: set<string>)
      ensures forall v :: v in ns <==> (u, v) in edges
    {
      set e | e in edges && e.0 == u :: e.1
    }
  }

  /** Adding an edge the graph already has changes nothing. */
  lemma AddEdgePresent(g: Graph, u: string, v: string)
    requires g.Valid() && g.HasEdge(u, v)
    ensures g.AddEdge(u, v) == g
  {
    assert g.nodes + {u, v} == g.nodes;
    assert g.edges + {(u, v), (v, u)} == g.edges;
  }

  function EmptyGraph(): (g: Graph)
    ensures g.Valid() && g.nodes == {} && g.edges == {}
  {
    Graph({}, {})
  }

  /** One breadth step: `s` and every neighbour of a member of `s`. */
  function Step(g: Graph, s: set<string>): set<string> {
    s + set e | e in g.edges && e.0 in s :: e.1
  }

  lemma StepBounded(g: Graph, s: set<string>)
    requires g.Valid() && s <= g.nodes
    ensures s <= Step(g, s) <= g.nodes
  {
  }

  lemma {:induction false} SubsetCard(a: set<string>, b: set<string>)
    requires a <= b
    ensures |a| <= |b|
    decreases |a|
  {
    if a != {} {
      var x :| x in a;
      SubsetCard(a - {x}, b - {x});
    }
  }

  lemma StrictSubsetSmallerRest(all: set<string>, s: set<string>, t: set<string>)
    requires s <= t <= all && s != t
    ensures |all - t| < |all - s|
  {
    var x :| x in t && x !in s;
    assert all - t <= (all - s) - {x};
    SubsetCard(all - t, (all - s) - {x});
  }

  /** The nodes reachable from `s`: the least superset of `s` closed under `Step`. */
  function Closure(g: Graph, s: set<string>): (r: set<string>)
    requires g.Valid() && s <= g.nodes
    ensures s <= r <= g.nodes
    ensures Step(g, r) == r
    decreases |g.nodes - s|
  {
    var next := Step(g, s);
    StepBounded(g, s);
    if next == s then s
    else
      StrictSubsetSmallerRest(g.nodes, s, next);
      Closure(g, next)
  }

  /** `nx.has_path(g, u, v)` for a node `u` of the graph. */
  predicate HasPath(g: Graph, u: string, v: string)
    requires g.Valid() && u in g.nodes
  {
    v in Closure(g, {u})
  }

  /** `nx.is_connected(g)` on a non-empty graph. */
  predicate IsConnected(g: Graph)
    requires g.Valid()
  {
    forall u, v | u in g.nodes && v in g.nodes :: HasPath(g, u, v)
  }

  /** A walk: a non-empty node sequence whose consecutive nodes are adjacent. */
  ghost predicate IsWalk(g: Graph, p: seq<string>) {
    |p| >= 1 && p[0] in g.nodes &&
    forall i | 0 <= i < |p| - 1 :: (p[i], p[i + 1]) in g.edges
  }

  ghost predicate Reachable(g: Graph, u: string, v: string) {
    exists p :: IsWalk(g, p) && p[0] == u && p[|p| - 1] == v
  }

  lemma WalkExtend(g: Graph, p: seq<string>, x: string)
    requires IsWalk(g, p) && (p[|p| - 1], x) in g.edges
    ensures IsWalk(g, p + [x])
  {
  }

  /** Everything `Closure` adds is reachable from `u` when `s` is. */
  lemma {:induction false} ClosureSound(g: Graph, s: set<string>, u: string)
    requires g.Valid() && s <= g.nodes
    requires forall x | x in s :: Reachable(g, u, x)
    ensures forall x | x in Closure(g, s) :: Reachable(g, u, x)
    decreases |g.nodes - s|
  {
    var next := Step(g, s);
    StepBounded(g, s);
    if next != s {
      forall x | x in next ensures Reachable(g, u, x) {
        if x !in s {
          var e :| e in g.edges && e.0 in s && e.1 == x;
          var p :| IsWalk(g, p) && p[0] == u && p[|p| - 1] == e.0;
          WalkExtend(g, p, x);
          assert (p + [x])[0] == u;
        }
      }
      StrictSubsetSmallerRest(g.nodes, s, next);
      ClosureSound(g, next, u);
    }
  }

  /** A set closed under `Step` holds every walk that starts in it. */
  lemma {:induction false} ClosedHoldsWalks(g: Graph, c: set<string>, p: seq<string>, i: nat)
    requires Step(g, c) == c && IsWalk(g, p) && p[0] in c && i < |p|
    ensures p[i] in c
    decreases i
  {
    if i > 0 {
      ClosedHoldsWalks(g, c, p, i - 1);
      assert (p[i - 1], p[i]) in g.edges;
      assert p[i] in Step(g, c);
    }
  }

  /** `HasPath` is reachability by a walk, in both directions. */
  lemma HasPathIffReachable(g: Graph, u: string, v: string)
    requires g.Valid() && u in g.nodes
    ensures HasPath(g, u, v) <==> Reachable(g, u, v)
  {
    assert IsWalk(g, [u]);
    ClosureSound(g, {u}, u);
    if Reachable(g, u, v) {
      var p :| IsWalk(g, p) && p[0] == u && p[|p| - 1] == v;
      ClosedHoldsWalks(g, Closure(g, {u}), p, |p| - 1);
    }
  }

  /** Data a forwarding-graph edge carries: the connection-point pair it came from. */
  datatype EdgeData = EdgeData(from: string, to: string)

  /** A directed graph; `add_edge` on a present edge replaces its data. */
  datatype DiGraph = DiGraph(nodes: set<string>, edges: map<(string, string), EdgeData>) {

    ghost predicate Valid() {
      forall e | e in edges :: e.0 in nodes && e.1 in nodes
    }

    function AddNode(n: string): (g: DiGraph)
      ensures (Valid() ==> g.Valid()) && g.nodes == nodes + {n} && g.edges == edges
    {
      DiGraph(nodes + {n}, edges)
    }

    function AddEdge(u: string, v: string, d: EdgeData): (g: DiGraph)
      ensures (Valid() ==> g.Valid()) && g.nodes == nodes + {u, v}
      ensures g.edges.Keys == edges.Keys + {(u, v)} && g.edges[(u, v)] == d
      ensures forall e | e in edges && e != (u, v) :: g.edges[e] == edges[e]
    {
      DiGraph(nodes + {u, v}, edges[(u, v) := d])
    }

    predicate HasEdge(u: string, v: string) {
      (u, v) in edges
    }
  }

  function EmptyDiGraph(): (g: DiGraph)
    ensures g.Valid() && g.nodes == {} && g.edges == map[]
  {
    DiGraph({}, map[])
  }

  /** What `nx.simple_cycles` promises of each cycle it yields: distinct
      nodes, each with an edge to the next, the last to the first. */
  ghost predicate IsSimpleCycle(g: DiGraph, c: seq<string>) {
    |c| >= 1 &&
    (forall i, j | 0 <= i < j < |c| :: c[i] != c[j]) &&
    (forall i | 0 <= i < |c| - 1 :: (c[i], c[i + 1]) in g.edges) &&
    (c[|c| - 1], c[0]) in g.edges
  }
}
