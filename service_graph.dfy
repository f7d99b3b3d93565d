/**
 * The topology graph of a service at interface level (storage.py
 * `Service.build_topology_graph` with `level=1`, the graph service
 * validation builds).  Every link reference (and, with bridges, every
 * bridge reference) becomes a node; each link joins its two references;
 * each bridge gets a hub `br-<id>` joined to its references.  Finally two
 * interfaces `a:x` and `a:y` of the function aliased `a` are joined when
 * the function's own level-0 graph has a path between the nodes standing
 * for them.
 */
module ServiceGraphs {
  import opened Wrappers
  import opened Refs
  import opened Dicts
  import opened Links
  import opened FunctionQueries
  import opened ServiceQueries
  import opened Graphs
  import opened FunctionGraphs
  import opened Functions

  // ------------------------------------------- nodes, links and bridges

  /** The calls made before interfaces are inter-connected. */
  function BaseOps(d: DescState, bridges: bool): seq<Op> {
    NodeOps(NodeRefs(d, bridges)) + LinkOps(d, 1) +
    (if bridges then BridgeOps(d, 1, |d.vbridges.entries|) else [])
  }

  function BaseGraph(d: DescState, bridges: bool): (g: Graph)
    ensures g.Valid()
  {
    Apply(EmptyGraph(), BaseOps(d, bridges))
  }

  // ---------------------------------------------- inter-connections

  /** `prefixes`: the `vnf_id` of each aggregated function, in order; a
      function no alias names contributes `None`. */
  function Prefixes(s: ServiceState): (ps: seq<Option<string>>)
    ensures |ps| == |s.functions.entries|
    ensures forall i | 0 <= i < |ps| :: ps[i] == VnfId(s, s.functions.entries[i].0)
  {
    seq(|s.functions.entries|, i requires 0 <= i < |s.functions.entries| => VnfId(s, s.functions.entries[i].0))
  }

  /** The function graph an aggregated function is given while the
      service graph is built. */
  function InnerGraph(f: FunctionState, bridges: bool): (g: Graph)
    ensures g.Valid()
  {
    FunctionGraph(f, bridges, 0, true)
  }

  /** The node of a function graph that stands for interface `alias:x`:
      `x` when it is a node, else the whole reference when that is one. */
  function InnerName(fg: Graph, node: string): (r: Option<string>)
    ensures r.Some? ==> r.value in fg.nodes
    ensures r.Some? ==> r.value == node || (|Split(node)| > 1 && r.value == Split(node)[1])
  {
    var t := Split(node);
    if |t| > 1 && fg.HasNode(t[1]) then Some(t[1])
    else if fg.HasNode(node) then Some(node)
    else None
  }

  /** The builder's test for the ordered pair `node_u`, `node_v`.  When
      the first segment is a prefix the alias always maps to a function
      (`PrefixMapped`), so the `None` case never decides anything. */
  predicate InterLinked(s: ServiceState, bridges: bool, u: string, v: string) {
    var tu := Split(u);
    var tv := Split(v);
    u != v && |tu| > 1 && Some(tu[0]) in Prefixes(s) && |tv| > 1 && tv[0] == tu[0] &&
    match MappedFunction(s, tv[0])
    case None => false
    case Some(f) =>
      var fg := InnerGraph(f, bridges);
      match (InnerName(fg, u), InnerName(fg, v))
      case (Some(a), Some(b)) => HasPath(fg, a, b)
      case _ => false
  }

  /** The ordered pairs of `us` x `vs` the builder joins. */
  function InterPairs(s: ServiceState, bridges: bool, us: set<string>, vs: set<string>): set<(string, string)> {
    set u, v | u in us && v in vs && InterLinked(s, bridges, u, v) :: (u, v)
  }

  /** A set of pairs together with their reversals: what `add_edge` on
      each of them stores in an undirected graph. */
  function Both(ps: set<(string, string)>): set<(string, string)> {
    ps + set p | p in ps :: (p.1, p.0)
  }

  /** The graph after the inter-connection loops have run over the node
      pairs of `us` x `vs`. */
  function Interconnected(s: ServiceState, bridges: bool, g: Graph, us: set<string>, vs: set<string>): (h: Graph)
    requires us <= g.nodes && vs <= g.nodes
    ensures g.Valid() ==> h.Valid()
    ensures h.nodes == g.nodes
  {
    Graph(g.nodes, g.edges + Both(InterPairs(s, bridges, us, vs)))
  }

  /** The graph `Service.build_topology_graph(level=1, bridges)` returns. */
  function ServiceGraph(s: ServiceState, bridges: bool): (g: Graph)
    ensures g.Valid()
  {
    var base := BaseGraph(s.d, bridges);
    Interconnected(s, bridges, base, base.nodes, base.nodes)
  }

  // ------------------------------------------------- the loop steps

  lemma BothAdd(ps: set<(string, string)>, u: string, v: string)
    ensures Both(ps + {(u, v)}) == Both(ps) + {(u, v), (v, u)}
  {
  }

  lemma PairsAddColumn(s: ServiceState, bridges: bool, u: string, vs: set<string>, v: string)
    ensures InterPairs(s, bridges, {u}, vs + {v}) ==
      InterPairs(s, bridges, {u}, vs) + (if InterLinked(s, bridges, u, v) then {(u, v)} else {})
  {
  }

  lemma PairsAddRow(s: ServiceState, bridges: bool, us: set<string>, u: string, vs: set<string>)
    ensures Both(InterPairs(s, bridges, us + {u}, vs)) ==
      Both(InterPairs(s, bridges, us, vs)) + Both(InterPairs(s, bridges, {u}, vs))
  {
    assert InterPairs(s, bridges, us + {u}, vs) ==
      InterPairs(s, bridges, us, vs) + InterPairs(s, bridges, {u}, vs);
  }

  // --------------------------------------------------------- the builder

  /** The inner loops' test for one pair, computed the way the builder
      does: tokens, prefix membership, the mapped function's graph, the
      stand-in nodes, then `has_path`. */
  method Linked(s: ServiceState, bridges: bool, prefixes: seq<Option<string>>, u: string, v: string)
    returns (linked: bool)
    requires prefixes == Prefixes(s)
    ensures linked == InterLinked(s, bridges, u, v)
  {
    var tu := Split(u);
    if !(|tu| > 1 && Some(tu[0]) in prefixes) || u == v {
      return false;
    }
    var tv := Split(v);
    if !(|tv| > 1 && tv[0] == tu[0]) {
      return false;
    }
    var func := MappedFunction(s, tv[0]);
    if func.None? {
      return false;
    }
    var fg := Function.BuildGraph(func.value, bridges, 0, true);
    var a := InnerName(fg, u);
    var b := InnerName(fg, v);
    if a.None? || b.None? {
      return false;
    }
    linked := HasPath(fg, a.value, b.value);
  }

  /** One `node_v`: the edge is added exactly when the pair passes. */
  lemma ColumnStep(nodes: set<string>, edges: set<(string, string)>, u: string, v: string,
                   before: set<(string, string)>, after: set<(string, string)>, linked: bool, g: Graph)
    requires u in nodes && v in nodes
    requires after == before + (if linked then {(u, v)} else {})
    requires g == Graph(nodes, edges + Both(before))
    ensures (if linked then g.AddEdge(u, v) else g) == Graph(nodes, edges + Both(after))
  {
    if linked {
      BothAdd(before, u, v);
      assert nodes + {u, v} == nodes;
    }
  }

  /** A whole row of pairs after the rows of `done`. */
  lemma RowStep(s: ServiceState, bridges: bool, g0: Graph, done: set<string>, u: string, g: Graph)
    requires done <= g0.nodes && u in g0.nodes
    requires g == Graph(g0.nodes, Interconnected(s, bridges, g0, done, g0.nodes).edges +
      Both(InterPairs(s, bridges, {u}, g0.nodes)))
    ensures g == Interconnected(s, bridges, g0, done + {u}, g0.nodes)
  {
    PairsAddRow(s, bridges, done, u, g0.nodes);
  }

  /** Before the first row nothing is added. */
  lemma NoRowsYet(s: ServiceState, bridges: bool, g0: Graph)
    ensures Interconnected(s, bridges, g0, {}, g0.nodes) == g0
  {
    assert InterPairs(s, bridges, {}, g0.nodes) == {};
  }

  /** One `node_v` of the row of `node_u`. */
  method AddInterEdge(s: ServiceState, bridges: bool, prefixes: seq<Option<string>>, nodes: set<string>,
                      ghost edges: set<(string, string)>, u: string, seen: set<string>, v: string, g1: Graph)
    returns (g: Graph)
    requires prefixes == Prefixes(s)
    requires u in nodes && v in nodes
    requires g1 == Graph(nodes, edges + Both(InterPairs(s, bridges, {u}, seen)))
    ensures g == Graph(nodes, edges + Both(InterPairs(s, bridges, {u}, seen + {v})))
  {
    var linked := Linked(s, bridges, prefixes, u, v);
    PairsAddColumn(s, bridges, u, seen, v);
    ColumnStep(nodes, edges, u, v, InterPairs(s, bridges, {u}, seen),
      InterPairs(s, bridges, {u}, seen + {v}), linked, g1);
    g := g1;
    if linked {
      g := g.AddEdge(u, v);
    }
  }

  /** The loop over `node_v` for one `node_u`, on top of `g1`. */
  method AddInterColumns(s: ServiceState, bridges: bool, prefixes: seq<Option<string>>, g1: Graph, u: string)
    returns (g: Graph)
    requires prefixes == Prefixes(s) && u in g1.nodes
    ensures g == Graph(g1.nodes, g1.edges + Both(InterPairs(s, bridges, {u}, g1.nodes)))
  {
    g := g1;
    var seen: set<string> := {};
    assert InterPairs(s, bridges, {u}, {}) == {};
    while seen != g1.nodes
      invariant seen <= g1.nodes
      invariant g == Graph(g1.nodes, g1.edges + Both(InterPairs(s, bridges, {u}, seen)))
      decreases |g1.nodes - seen|
    {
      var v :| v in g1.nodes - seen;
      g := AddInterEdge(s, bridges, prefixes, g1.nodes, g1.edges, u, seen, v, g);
      seen := seen + {v};
    }
  }

  /** The loop over `node_v` for one `node_u`. */
  method AddInterRow(s: ServiceState, bridges: bool, prefixes: seq<Option<string>>,
                     g0: Graph, done: set<string>, u: string, g1: Graph) returns (g: Graph)
    requires prefixes == Prefixes(s)
    requires done <= g0.nodes && u in g0.nodes
    requires g1 == Interconnected(s, bridges, g0, done, g0.nodes)
    ensures g == Interconnected(s, bridges, g0, done + {u}, g0.nodes)
  {
    g := AddInterColumns(s, bridges, prefixes, g1, u);
    RowStep(s, bridges, g0, done, u, g);
  }

  /** The outer loop over `node_u`. */
  method AddInterEdges(s: ServiceState, bridges: bool, g0: Graph) returns (g: Graph)
    ensures g == Interconnected(s, bridges, g0, g0.nodes, g0.nodes)
  {
    var prefixes := Prefixes(s);
    g := g0;
    var done: set<string> := {};
    var todo := g0.nodes;
    NoRowsYet(s, bridges, g0);
    while todo != {}
      invariant done <= g0.nodes && todo == g0.nodes - done
      invariant g == Interconnected(s, bridges, g0, done, g0.nodes)
      decreases |todo|
    {
      var u :| u in todo;
      g := AddInterRow(s, bridges, prefixes, g0, done, u, g);
      done := done + {u};
      todo := todo - {u};
    }
    assert done == g0.nodes;
  }

  /** `Service.build_topology_graph(level=1, bridges)`. */
  method BuildServiceGraph(s: ServiceState, bridges: bool) returns (g: Graph)
    ensures g == ServiceGraph(s, bridges)
  {
    var refs := VlinkCpRefs(s.d);
    if bridges {
      refs := refs + VbridgeCpRefs(s.d);
    }
    var e := EmptyGraph();
    g := Function.AddRefNodes(e, refs);
    g := Function.AddLinkEdges(g, s.d, 1);
    if bridges {
      g := Function.AddBridgeEdges(g, s.d, 1);
    }
    var ns := NodeOps(NodeRefs(s.d, bridges));
    var ls := LinkOps(s.d, 1);
    var bs := if bridges then BridgeOps(s.d, 1, |s.d.vbridges.entries|) else [];
    ApplyConcat(e, ns, ls);
    ApplyConcat(e, ns + ls, bs);
    g := AddInterEdges(s, bridges, g);
  }

  // ---------------------------------------------------------- properties

  /** The prefix test passes exactly for the aliases that map to a stored
      function: the builder never reaches a missing function. */
  lemma PrefixMapped(s: ServiceState, a: string)
    requires s.Valid()
    ensures Some(a) in Prefixes(s) <==> MappedFunction(s, a).Some?
  {
    var ps := Prefixes(s);
    if Some(a) in ps {
      var i :| 0 <= i < |ps| && ps[i] == Some(a);
      var fid := s.functions.entries[i].0;
      VnfIdSpec(s, fid);
      GetEntry(s.functions, i);
    }
    if MappedFunction(s, a).Some? {
      MappedFunctionKnown(s, a);
      MappedVnfId(s, a);
      var fid := s.vnfIdMap.Get(a).value;
      var i := IndexOf(s.functions.entries, fid).value;
      assert ps[i] == Some(a);
    }
  }

  /** Two nodes are inter-connected exactly when they are distinct
      interfaces `a:x`, `a:y` of one alias that maps to a function, both
      stand for nodes of that function's graph, and a walk in that graph
      joins them. */
  lemma InterLinkedSpec(s: ServiceState, bridges: bool, u: string, v: string)
    requires s.Valid()
    ensures InterLinked(s, bridges, u, v) <==>
      u != v && |Split(u)| > 1 && |Split(v)| > 1 && Owner(u) == Owner(v) &&
      MappedFunction(s, Owner(u)).Some? &&
      var fg := InnerGraph(MappedFunction(s, Owner(u)).value, bridges);
      InnerName(fg, u).Some? && InnerName(fg, v).Some? &&
      Reachable(fg, InnerName(fg, u).value, InnerName(fg, v).value)
  {
    PrefixMapped(s, Owner(u));
    match MappedFunction(s, Owner(u))
    case None =>
    case Some(f) =>
      var fg := InnerGraph(f, bridges);
      match InnerName(fg, u)
      case None =>
      case Some(a) =>
        match InnerName(fg, v)
        case None =>
        case Some(b) =>
          HasPathIffReachable(fg, a, b);
  }

  /** An edge before the inter-connections: a link's two references, or
      (with bridges) a bridge hub and one of its references. */
  ghost predicate BaseEdge(d: DescState, bridges: bool, a: string, b: string) {
    (exists k | 0 <= k < |d.vlinks.entries| :: d.vlinks.entries[k].1.cprU == a && d.vlinks.entries[k].1.cprV == b) ||
    (bridges && exists k | 0 <= k < |d.vbridges.entries| ::
       a == Hub(d.vbridges.entries[k].0) && b in d.vbridges.entries[k].1.refs)
  }

  lemma BaseOpsEdge(d: DescState, bridges: bool, a: string, b: string)
    ensures AddE(a, b) in BaseOps(d, bridges) <==> BaseEdge(d, bridges, a, b)
  {
    var op := AddE(a, b);
    var ns := NodeOps(NodeRefs(d, bridges));
    var ls := LinkOps(d, 1);
    var bs := if bridges then BridgeOps(d, 1, |d.vbridges.entries|) else [];
    assert BaseOps(d, bridges) == ns + ls + bs;
    assert op !in ns;
    LinkOpsMember(d, 1, op);
    BridgeOpsMember(d, 1, |d.vbridges.entries|, op);
  }

  /** The edges of the service graph, exactly: a link, a bridge hub and
      one of its references, or an inter-connection of two nodes, in
      either direction. */
  lemma ServiceGraphEdges(s: ServiceState, bridges: bool, a: string, b: string)
    ensures (a, b) in ServiceGraph(s, bridges).edges <==>
      BaseEdge(s.d, bridges, a, b) || BaseEdge(s.d, bridges, b, a) ||
      (var nodes := BaseGraph(s.d, bridges).nodes;
       a in nodes && b in nodes && (InterLinked(s, bridges, a, b) || InterLinked(s, bridges, b, a)))
  {
    var base := BaseGraph(s.d, bridges);
    var inter := InterPairs(s, bridges, base.nodes, base.nodes);
    assert ServiceGraph(s, bridges).edges == base.edges + Both(inter);
    ApplyEdges(EmptyGraph(), BaseOps(s.d, bridges), (a, b));
    BaseOpsEdge(s.d, bridges, a, b);
    BaseOpsEdge(s.d, bridges, b, a);
    InterBoth(s, bridges, base.nodes, a, b);
  }

  /** An inter-connection between nodes of `nodes`, in either direction. */
  lemma InterBoth(s: ServiceState, bridges: bool, nodes: set<string>, a: string, b: string)
    ensures (a, b) in Both(InterPairs(s, bridges, nodes, nodes)) <==>
      a in nodes && b in nodes && (InterLinked(s, bridges, a, b) || InterLinked(s, bridges, b, a))
  {
    var ps := InterPairs(s, bridges, nodes, nodes);
    if (a, b) in Both(ps) && (a, b) !in ps {
      var p :| p in ps && (p.1, p.0) == (a, b);
    }
    if a in nodes && b in nodes && InterLinked(s, bridges, b, a) {
      assert (b, a) in ps;
    }
  }

  /** The graph service validation builds (with bridges) is empty exactly
      when the service has neither links nor bridges. */
  lemma ServiceGraphEmpty(s: ServiceState)
    ensures ServiceGraph(s, true).nodes == {} <==>
      |s.d.vlinks.entries| == 0 && |s.d.vbridges.entries| == 0
  {
    var d := s.d;
    var ops := BaseOps(d, true);
    var refs := NodeRefs(d, true);
    if |d.vlinks.entries| > 0 {
      assert |VlinkCpRefs(d)| > 0;
      assert NodeOps(refs)[0] == AddN(refs[0]);
      assert AddN(refs[0]) in ops;
      ApplyNodes(EmptyGraph(), ops, refs[0]);
    } else if |d.vbridges.entries| > 0 {
      var h := Hub(d.vbridges.entries[0].0);
      BridgeOpsMember(d, 1, |d.vbridges.entries|, AddN(h));
      ApplyNodes(EmptyGraph(), ops, h);
    } else {
      assert VlinkCpRefs(d) == [] && VbridgeCpRefs(d) == [];
      assert ops == [];
    }
  }
}
