/**
 * The topology graph of a function (storage.py
 * `Function.build_topology_graph`).  Every link and bridge reference is a
 * node; each link joins its two endpoints; at level 1 the connection points
 * of one unit are joined to each other; with bridges, each bridge gets a hub
 * node `br-<id>` joined to every reference.  At level 0 a `unit:cp` endpoint
 * is drawn as the unit itself.  Nothing is ever removed, so the graph is
 * determined by its starting nodes and the set of pairs added; the pair
 * sets below grow one entry at a time, the way the builder's loops add them.
 */
module FunctionGraphs {
  import opened Refs
  import opened Dicts
  import opened Links
  import opened Units
  import opened FunctionQueries
  import opened Graphs

  // ------------------------------------------- graphs built call by call

  /** One call the builder makes on the graph: `add_node(n)` or `add_edge(u, v)`. */
  datatype Op = AddN(n: string) | AddE(u: string, v: string)

  function ApplyOp(g: Graph, op: Op): (h: Graph)
    ensures g.Valid() ==> h.Valid()
  {
    match op
    case AddN(n) => g.AddNode(n)
    case AddE(u, v) => g.AddEdge(u, v)
  }

  /** The graph after the calls `ops`, made in order on `g`. */
  function Apply(g: Graph, ops: seq<Op>): (h: Graph)
    ensures g.Valid() ==> h.Valid()
    decreases |ops|
  {
    if |ops| == 0 then g else ApplyOp(Apply(g, ops[..|ops| - 1]), ops[|ops| - 1])
  }

  /** One more call after the first `k`. */
  lemma ApplyPrefix(g: Graph, ops: seq<Op>, k: nat)
    requires k < |ops|
    ensures Apply(g, ops[..k + 1]) == ApplyOp(Apply(g, ops[..k]), ops[k])
  {
    assert ops[..k + 1][..k] == ops[..k];
  }

  /** One more call at the end. */
  lemma ApplySnoc(g: Graph, ops: seq<Op>, op: Op)
    ensures Apply(g, ops + [op]) == ApplyOp(Apply(g, ops), op)
  {
    assert (ops + [op])[..|ops|] == ops;
  }

  /** Two batches of calls, one after the other. */
  lemma {:induction false} ApplyConcat(g: Graph, a: seq<Op>, b: seq<Op>)
    ensures Apply(g, a + b) == Apply(Apply(g, a), b)
    decreases |b|
  {
    if |b| == 0 {
      assert a + b == a;
    } else {
      var n := |b|;
      ApplyConcat(g, a, b[..n - 1]);
      assert (a + b)[..|a + b| - 1] == a + b[..n - 1];
    }
  }

  /** An edge is in the graph after the calls exactly when it was there
      before or some `add_edge` joined its ends, in either direction. */
  lemma {:induction false} ApplyEdges(g: Graph, ops: seq<Op>, e: (string, string))
    ensures e in Apply(g, ops).edges <==>
      e in g.edges || AddE(e.0, e.1) in ops || AddE(e.1, e.0) in ops
    decreases |ops|
  {
    if |ops| > 0 {
      var k := |ops| - 1;
      ApplyEdges(g, ops[..k], e);
      assert ops == ops[..k] + [ops[k]];
    }
  }

  /** A node is in the graph after the calls exactly when it was there
      before or some call named it. */
  lemma {:induction false} ApplyNodes(g: Graph, ops: seq<Op>, n: string)
    ensures n in Apply(g, ops).nodes <==>
      n in g.nodes || AddN(n) in ops || exists m :: AddE(n, m) in ops || AddE(m, n) in ops
    decreases |ops|
  {
    if |ops| > 0 {
      var k := |ops| - 1;
      var pre := ops[..k];
      ApplyNodes(g, pre, n);
      assert ops == pre + [ops[k]];
      if n in Apply(g, ops).nodes && n !in Apply(g, pre).nodes {
        match ops[k]
        case AddN(_) =>
        case AddE(u, v) =>
          if n == u {
            assert AddE(n, v) in ops;
          } else {
            assert AddE(u, n) in ops;
          }
      }
      if exists m :: AddE(n, m) in ops || AddE(m, n) in ops {
        var m :| AddE(n, m) in ops || AddE(m, n) in ops;
        if AddE(n, m) !in pre && AddE(m, n) !in pre {
          assert ops[k] == AddE(n, m) || ops[k] == AddE(m, n);
        }
      }
    }
  }

  // ------------------------------------------------------- the endpoints

  /** Where a link endpoint is drawn: at level 0 a reference into a unit
      (not a connection point of the function, with a separator) is drawn
      as its owner. */
  function LinkEnd(d: DescState, level: nat, r: string): string {
    if level == 0 && r !in d.cps && HasColon(r) then Owner(r) else r
  }

  /** Where a bridge reference is drawn: its owner at level 0. */
  function BridgeEnd(level: nat, r: string): string {
    if level == 0 && HasColon(r) then Owner(r) else r
  }

  /** The hub node of a bridge. */
  function Hub(id: string): string {
    "br-" + id
  }

  /** The name a unit connection point gets when units are joined inside:
      `uid:cp`, unless the id already carries a separator. */
  function JoinedName(uid: string, cp: string): string {
    if HasColon(cp) then cp else Compose(uid, cp)
  }

  /** The joined names of a unit's connection points, in order. */
  function JoinCps(uid: string, cps: seq<string>): seq<string>
    decreases |cps|
  {
    if |cps| == 0 then [] else JoinCps(uid, cps[..|cps| - 1]) + [JoinedName(uid, cps[|cps| - 1])]
  }

  /** A joined name is the joined name of one of the unit's connection points. */
  lemma {:induction false} JoinCpsMember(uid: string, cps: seq<string>, x: string)
    ensures x in JoinCps(uid, cps) <==> exists cp | cp in cps :: x == JoinedName(uid, cp)
    decreases |cps|
  {
    if |cps| > 0 {
      var n := |cps|;
      JoinCpsMember(uid, cps[..n - 1], x);
      assert cps == cps[..n - 1] + [cps[n - 1]];
    }
  }

  function UnitJoin(f: FunctionState, k: nat): seq<string>
    requires k < |f.units.entries|
  {
    JoinCps(f.units.entries[k].0, f.units.entries[k].1.cps)
  }

  /** Two joined names of a unit get an edge unless they are equal or,
      without bridges, either is a bridge reference. */
  predicate InnerAllowed(d: DescState, bridges: bool, a: string, b: string) {
    a != b && (bridges || (a !in VbridgeCpRefs(d) && b !in VbridgeCpRefs(d)))
  }

  // ------------------------------------------------------- the calls

  /** The references that become nodes first. */
  function NodeRefs(d: DescState, bridges: bool): seq<string> {
    if bridges then VlinkCpRefs(d) + VbridgeCpRefs(d) else VlinkCpRefs(d)
  }

  function NodeOps(refs: seq<string>): (ops: seq<Op>)
    ensures |ops| == |refs| && forall k | 0 <= k < |refs| :: ops[k] == AddN(refs[k])
    decreases |refs|
  {
    if |refs| == 0 then [] else NodeOps(refs[..|refs| - 1]) + [AddN(refs[|refs| - 1])]
  }

  /** The edge a link becomes. */
  function LinkOp(d: DescState, level: nat, vl: VLink): Op {
    AddE(LinkEnd(d, level, vl.cprU), LinkEnd(d, level, vl.cprV))
  }

  function LinkOps(d: DescState, level: nat): (ops: seq<Op>)
    ensures |ops| == |d.vlinks.entries|
    ensures forall k | 0 <= k < |ops| :: ops[k] == LinkOp(d, level, d.vlinks.entries[k].1)
  {
    LinkOpsOf(d, level, d.vlinks.entries)
  }

  function LinkOpsOf(d: DescState, level: nat, ls: seq<(string, VLink)>): (ops: seq<Op>)
    ensures |ops| == |ls| && forall k | 0 <= k < |ls| :: ops[k] == LinkOp(d, level, ls[k].1)
    decreases |ls|
  {
    if |ls| == 0 then [] else LinkOpsOf(d, level, ls[..|ls| - 1]) + [LinkOp(d, level, ls[|ls| - 1].1)]
  }

  /** The inner edges from `js[x]` to the first `y` joined names. */
  function RowOps(d: DescState, bridges: bool, js: seq<string>, x: nat, y: nat): seq<Op>
    requires x < |js| && y <= |js|
  {
    if y == 0 then []
    else
      RowOps(d, bridges, js, x, y - 1) +
      (if InnerAllowed(d, bridges, js[x], js[y - 1]) then [AddE(js[x], js[y - 1])] else [])
  }

  /** The inner edges from the first `x` joined names of one unit. */
  function JoinOps(d: DescState, bridges: bool, js: seq<string>, x: nat): seq<Op>
    requires x <= |js|
  {
    if x == 0 then [] else JoinOps(d, bridges, js, x - 1) + RowOps(d, bridges, js, x - 1, |js|)
  }

  /** The inner edges of the first `i` units. */
  function InnerOps(f: FunctionState, bridges: bool, i: nat): seq<Op>
    requires i <= |f.units.entries|
  {
    if i == 0 then []
    else InnerOps(f, bridges, i - 1) + JoinOps(f.d, bridges, UnitJoin(f, i - 1), |UnitJoin(f, i - 1)|)
  }

  /** A bridge's hub, then its edges to the first `refs` of the bridge. */
  function HubOps(hub: string, level: nat, refs: seq<string>): seq<Op>
    decreases |refs|
  {
    if |refs| == 0 then [AddN(hub)]
    else HubOps(hub, level, refs[..|refs| - 1]) + [AddE(hub, BridgeEnd(level, refs[|refs| - 1]))]
  }

  /** The hub and its edges, for each of the first `i` bridges. */
  function BridgeOps(d: DescState, level: nat, i: nat): seq<Op>
    requires i <= |d.vbridges.entries|
  {
    if i == 0 then []
    else
      var b := d.vbridges.entries[i - 1];
      BridgeOps(d, level, i - 1) + HubOps(Hub(b.0), level, b.1.refs)
  }

  /** Every call `Function.build_topology_graph(bridges, level,
      vdu_inner_connections)` makes, in order. */
  function TopologyOps(f: FunctionState, bridges: bool, level: nat, inner: bool): seq<Op> {
    NodeOps(NodeRefs(f.d, bridges)) + LinkOps(f.d, level) +
    (if inner && level == 1 then InnerOps(f, bridges, |f.units.entries|) else []) +
    (if bridges then BridgeOps(f.d, level, |f.d.vbridges.entries|) else [])
  }

  /** The graph `Function.build_topology_graph` returns. */
  function FunctionGraph(f: FunctionState, bridges: bool, level: nat, inner: bool): (g: Graph)
    ensures g.Valid()
  {
    Apply(EmptyGraph(), TopologyOps(f, bridges, level, inner))
  }

  // ------------------------------------------------- one builder step each

  /** The next `v_cp` of a row adds its edge exactly when the rules allow it. */
  lemma RowStep(g0: Graph, d: DescState, bridges: bool, js: seq<string>, x: nat, y: nat)
    requires x < |js| && y < |js|
    ensures Apply(g0, RowOps(d, bridges, js, x, y + 1)) ==
      var g := Apply(g0, RowOps(d, bridges, js, x, y));
      if InnerAllowed(d, bridges, js[x], js[y]) then g.AddEdge(js[x], js[y]) else g
  {
    var before := RowOps(d, bridges, js, x, y);
    if InnerAllowed(d, bridges, js[x], js[y]) {
      ApplySnoc(g0, before, AddE(js[x], js[y]));
    } else {
      assert RowOps(d, bridges, js, x, y + 1) == before;
    }
  }

  /** A whole row after the first `x` rows of a unit. */
  lemma JoinStep(g0: Graph, d: DescState, bridges: bool, js: seq<string>, x: nat)
    requires x < |js|
    ensures Apply(g0, JoinOps(d, bridges, js, x + 1)) ==
      Apply(Apply(g0, JoinOps(d, bridges, js, x)), RowOps(d, bridges, js, x, |js|))
  {
    ApplyConcat(g0, JoinOps(d, bridges, js, x), RowOps(d, bridges, js, x, |js|));
  }

  /** A whole unit after the first `i` units. */
  lemma InnerStep(g0: Graph, f: FunctionState, bridges: bool, i: nat)
    requires i < |f.units.entries|
    ensures Apply(g0, InnerOps(f, bridges, i + 1)) ==
      Apply(Apply(g0, InnerOps(f, bridges, i)), JoinOps(f.d, bridges, UnitJoin(f, i), |UnitJoin(f, i)|))
  {
    ApplyConcat(g0, InnerOps(f, bridges, i), JoinOps(f.d, bridges, UnitJoin(f, i), |UnitJoin(f, i)|));
  }

  /** The next reference of a bridge. */
  lemma HubStep(g0: Graph, hub: string, level: nat, refs: seq<string>, m: nat)
    requires m < |refs|
    ensures Apply(g0, HubOps(hub, level, refs[..m + 1])) ==
      Apply(g0, HubOps(hub, level, refs[..m])).AddEdge(hub, BridgeEnd(level, refs[m]))
  {
    assert refs[..m + 1][..m] == refs[..m];
    ApplySnoc(g0, HubOps(hub, level, refs[..m]), AddE(hub, BridgeEnd(level, refs[m])));
  }

  /** A whole bridge after the first `i` bridges. */
  lemma BridgeStep(g0: Graph, d: DescState, level: nat, i: nat)
    requires i < |d.vbridges.entries|
    ensures var b := d.vbridges.entries[i];
      Apply(g0, BridgeOps(d, level, i + 1)) ==
      Apply(Apply(g0, BridgeOps(d, level, i)), HubOps(Hub(b.0), level, b.1.refs))
  {
    var b := d.vbridges.entries[i];
    ApplyConcat(g0, BridgeOps(d, level, i), HubOps(Hub(b.0), level, b.1.refs));
  }

  /** The whole graph, batch by batch, as the builder makes it. */
  lemma FunctionGraphSteps(f: FunctionState, bridges: bool, level: nat, inner: bool)
    ensures FunctionGraph(f, bridges, level, inner) ==
      var e := EmptyGraph();
      var g1 := Apply(e, NodeOps(NodeRefs(f.d, bridges)));
      var g2 := Apply(g1, LinkOps(f.d, level));
      var g3 := if inner && level == 1 then Apply(g2, InnerOps(f, bridges, |f.units.entries|)) else g2;
      if bridges then Apply(g3, BridgeOps(f.d, level, |f.d.vbridges.entries|)) else g3
  {
    var e := EmptyGraph();
    var ns := NodeOps(NodeRefs(f.d, bridges));
    var ls := LinkOps(f.d, level);
    var ins := if inner && level == 1 then InnerOps(f, bridges, |f.units.entries|) else [];
    var bs := if bridges then BridgeOps(f.d, level, |f.d.vbridges.entries|) else [];
    ApplyConcat(e, ns, ls);
    ApplyConcat(e, ns + ls, ins);
    ApplyConcat(e, ns + ls + ins, bs);
  }

  // ---------------------------------------------------------- membership

  lemma {:induction false} RowOpsMember(d: DescState, bridges: bool, js: seq<string>, x: nat, y: nat, op: Op)
    requires x < |js| && y <= |js|
    ensures op in RowOps(d, bridges, js, x, y) <==>
      op.AddE? && op.u == js[x] && op.v in js[..y] && InnerAllowed(d, bridges, op.u, op.v)
    decreases y
  {
    if y > 0 {
      RowOpsMember(d, bridges, js, x, y - 1, op);
      assert js[..y] == js[..y - 1] + [js[y - 1]];
    }
  }

  lemma {:induction false} JoinOpsMember(d: DescState, bridges: bool, js: seq<string>, x: nat, op: Op)
    requires x <= |js|
    ensures op in JoinOps(d, bridges, js, x) <==>
      op.AddE? && op.u in js[..x] && op.v in js && InnerAllowed(d, bridges, op.u, op.v)
    decreases x
  {
    if x > 0 {
      JoinOpsMember(d, bridges, js, x - 1, op);
      RowOpsMember(d, bridges, js, x - 1, |js|, op);
      assert js[..x] == js[..x - 1] + [js[x - 1]];
      assert js[..|js|] == js;
    }
  }

  /** The inner edges of one unit join any two of its names the rules allow. */
  lemma UnitOpsMember(d: DescState, bridges: bool, js: seq<string>, op: Op)
    ensures op in JoinOps(d, bridges, js, |js|) <==>
      op.AddE? && op.u in js && op.v in js && InnerAllowed(d, bridges, op.u, op.v)
  {
    JoinOpsMember(d, bridges, js, |js|, op);
    assert js[..|js|] == js;
  }

  /** Whether unit `k` contributes the inner edge `op`. */
  predicate InnerOf(f: FunctionState, bridges: bool, k: nat, op: Op)
    requires k < |f.units.entries|
  {
    op.AddE? && op.u in UnitJoin(f, k) && op.v in UnitJoin(f, k) && InnerAllowed(f.d, bridges, op.u, op.v)
  }

  lemma {:induction false} InnerOpsMember(f: FunctionState, bridges: bool, i: nat, op: Op)
    requires i <= |f.units.entries|
    ensures op in InnerOps(f, bridges, i) <==> exists k | 0 <= k < i :: InnerOf(f, bridges, k, op)
    decreases i
  {
    if i > 0 {
      var pre := InnerOps(f, bridges, i - 1);
      var last := JoinOps(f.d, bridges, UnitJoin(f, i - 1), |UnitJoin(f, i - 1)|);
      assert InnerOps(f, bridges, i) == pre + last;
      InnerOpsMember(f, bridges, i - 1, op);
      UnitOpsMember(f.d, bridges, UnitJoin(f, i - 1), op);
      assert op in last <==> InnerOf(f, bridges, i - 1, op);
      if op in pre + last {
        if op in pre {
          var k :| 0 <= k < i - 1 && InnerOf(f, bridges, k, op);
          assert 0 <= k < i && InnerOf(f, bridges, k, op);
        } else {
          assert InnerOf(f, bridges, i - 1, op);
        }
      }
      if exists k | 0 <= k < i :: InnerOf(f, bridges, k, op) {
        var k :| 0 <= k < i && InnerOf(f, bridges, k, op);
        if k < i - 1 {
          assert op in pre;
        } else {
          assert op in last;
        }
      }
    }
  }

  lemma {:induction false} HubOpsMember(hub: string, level: nat, refs: seq<string>, op: Op)
    ensures op in HubOps(hub, level, refs) <==>
      op == AddN(hub) || (op.AddE? && op.u == hub && exists r | r in refs :: op.v == BridgeEnd(level, r))
    decreases |refs|
  {
    if |refs| > 0 {
      var n := |refs|;
      HubOpsMember(hub, level, refs[..n - 1], op);
      assert refs == refs[..n - 1] + [refs[n - 1]];
    }
  }

  lemma {:induction false} BridgeOpsMember(d: DescState, level: nat, i: nat, op: Op)
    requires i <= |d.vbridges.entries|
    ensures op in BridgeOps(d, level, i) <==>
      exists k | 0 <= k < i ::
        op == AddN(Hub(d.vbridges.entries[k].0)) ||
        (op.AddE? && op.u == Hub(d.vbridges.entries[k].0) &&
         exists r | r in d.vbridges.entries[k].1.refs :: op.v == BridgeEnd(level, r))
    decreases i
  {
    if i > 0 {
      BridgeOpsMember(d, level, i - 1, op);
      var b := d.vbridges.entries[i - 1];
      HubOpsMember(Hub(b.0), level, b.1.refs, op);
    }
  }

  /** The edges of the topology graph, exactly: a link's drawn endpoints,
      two joined names of one unit at level 1 with inner connections, or a
      hub and a drawn reference of its bridge when bridges are drawn. */
  ghost predicate TopologyEdge(f: FunctionState, bridges: bool, level: nat, inner: bool, a: string, b: string) {
    var d := f.d;
    (exists k | 0 <= k < |d.vlinks.entries| :: LinkOp(d, level, d.vlinks.entries[k].1) == AddE(a, b)) ||
    (inner && level == 1 && exists k | 0 <= k < |f.units.entries| :: InnerOf(f, bridges, k, AddE(a, b))) ||
    (bridges && exists k | 0 <= k < |d.vbridges.entries| ::
       a == Hub(d.vbridges.entries[k].0) && exists r | r in d.vbridges.entries[k].1.refs :: b == BridgeEnd(level, r))
  }

  lemma LinkOpsMember(d: DescState, level: nat, op: Op)
    ensures op in LinkOps(d, level) <==>
      exists k | 0 <= k < |d.vlinks.entries| :: LinkOp(d, level, d.vlinks.entries[k].1) == op
  {
    var ls := LinkOps(d, level);
    if op in ls {
      var k :| 0 <= k < |ls| && ls[k] == op;
      assert LinkOp(d, level, d.vlinks.entries[k].1) == op;
    }
    if exists k | 0 <= k < |d.vlinks.entries| :: LinkOp(d, level, d.vlinks.entries[k].1) == op {
      var k :| 0 <= k < |d.vlinks.entries| && LinkOp(d, level, d.vlinks.entries[k].1) == op;
      assert ls[k] == op;
    }
  }

  lemma TopologyOpsEdge(f: FunctionState, bridges: bool, level: nat, inner: bool, a: string, b: string)
    ensures AddE(a, b) in TopologyOps(f, bridges, level, inner) <==> TopologyEdge(f, bridges, level, inner, a, b)
  {
    var d := f.d;
    var op := AddE(a, b);
    var ns := NodeOps(NodeRefs(d, bridges));
    var ls := LinkOps(d, level);
    var ins := if inner && level == 1 then InnerOps(f, bridges, |f.units.entries|) else [];
    var bs := if bridges then BridgeOps(d, level, |d.vbridges.entries|) else [];
    assert TopologyOps(f, bridges, level, inner) == ns + ls + ins + bs;
    assert op !in ns;
    LinkOpsMember(d, level, op);
    InnerOpsMember(f, bridges, |f.units.entries|, op);
    BridgeOpsMember(d, level, |d.vbridges.entries|, op);
  }

  lemma {:induction false} FunctionGraphEdges(f: FunctionState, bridges: bool, level: nat, inner: bool, a: string, b: string)
    ensures (a, b) in FunctionGraph(f, bridges, level, inner).edges <==>
      TopologyEdge(f, bridges, level, inner, a, b) || TopologyEdge(f, bridges, level, inner, b, a)
  {
    ApplyEdges(EmptyGraph(), TopologyOps(f, bridges, level, inner), (a, b));
    TopologyOpsEdge(f, bridges, level, inner, a, b);
    TopologyOpsEdge(f, bridges, level, inner, b, a);
  }

  // ---------------------------------------------------------- properties

  /** Each link becomes an edge between its drawn endpoints. */
  lemma FunctionGraphLinks(f: FunctionState, bridges: bool, level: nat, inner: bool, k: nat)
    requires k < |f.d.vlinks.entries|
    ensures var vl := f.d.vlinks.entries[k].1;
      (LinkEnd(f.d, level, vl.cprU), LinkEnd(f.d, level, vl.cprV)) in FunctionGraph(f, bridges, level, inner).edges
  {
    var vl := f.d.vlinks.entries[k].1;
    FunctionGraphEdges(f, bridges, level, inner, LinkEnd(f.d, level, vl.cprU), LinkEnd(f.d, level, vl.cprV));
  }

  /** At level 1 with inner connections, any two joined names of one unit
      are adjacent unless the bridge rule excludes them. */
  lemma FunctionGraphInner(f: FunctionState, bridges: bool, k: nat, a: string, b: string)
    requires k < |f.units.entries|
    requires a in UnitJoin(f, k) && b in UnitJoin(f, k) && InnerAllowed(f.d, bridges, a, b)
    ensures (a, b) in FunctionGraph(f, bridges, 1, true).edges
  {
    assert InnerOf(f, bridges, k, AddE(a, b));
    FunctionGraphEdges(f, bridges, 1, true, a, b);
  }

  /** With bridges, each bridge's hub is joined to every reference. */
  lemma FunctionGraphBridges(f: FunctionState, level: nat, inner: bool, k: nat, r: string)
    requires k < |f.d.vbridges.entries| && r in f.d.vbridges.entries[k].1.refs
    ensures (Hub(f.d.vbridges.entries[k].0), BridgeEnd(level, r)) in FunctionGraph(f, true, level, inner).edges
  {
    FunctionGraphEdges(f, true, level, inner, Hub(f.d.vbridges.entries[k].0), BridgeEnd(level, r));
  }

  /** Every reference of a link (and of a bridge, when bridges are drawn)
      is a node. */
  lemma FunctionGraphRefs(f: FunctionState, bridges: bool, level: nat, inner: bool, r: string)
    requires r in NodeRefs(f.d, bridges)
    ensures r in FunctionGraph(f, bridges, level, inner).nodes
  {
    var refs := NodeRefs(f.d, bridges);
    var k :| 0 <= k < |refs| && refs[k] == r;
    assert NodeOps(refs)[k] == AddN(r);
    ApplyNodes(EmptyGraph(), TopologyOps(f, bridges, level, inner), r);
  }

  /** The level-0 graph the function validation builds (with bridges) is
      empty exactly when the function has neither links nor bridges. */
  lemma FunctionGraphEmpty(f: FunctionState, inner: bool)
    ensures FunctionGraph(f, true, 0, inner).nodes == {} <==>
      |f.d.vlinks.entries| == 0 && |f.d.vbridges.entries| == 0
  {
    var d := f.d;
    var ops := TopologyOps(f, true, 0, inner);
    if |d.vlinks.entries| > 0 {
      assert |VlinkCpRefs(d)| > 0;
      FunctionGraphRefs(f, true, 0, inner, NodeRefs(d, true)[0]);
    } else if |d.vbridges.entries| > 0 {
      var h := Hub(d.vbridges.entries[0].0);
      BridgeOpsMember(d, 0, |d.vbridges.entries|, AddN(h));
      ApplyNodes(EmptyGraph(), ops, h);
    } else {
      assert VlinkCpRefs(d) == [] && VbridgeCpRefs(d) == [];
      assert ops == [];
    }
  }

  /** A drawn level-0 endpoint has no separator. */
  lemma Level0EndsColonFree(d: DescState, r: string)
    requires d.Valid()
    ensures !HasColon(LinkEnd(d, 0, r)) && !HasColon(BridgeEnd(0, r))
  {
    SplitPartsColonFree(r);
    if r in d.cps {
      var i :| 0 <= i < |d.cps| && d.cps[i] == r;
    }
  }

  /** At level 0 no edge touches a `unit:cp` interface: every endpoint of
      an edge is a bridge hub or a name without a separator. */
  lemma FunctionGraphLevel0(f: FunctionState, bridges: bool, inner: bool, a: string, b: string)
    requires f.d.Valid()
    requires (a, b) in FunctionGraph(f, bridges, 0, inner).edges
    ensures !HasColon(a) || exists k | 0 <= k < |f.d.vbridges.entries| :: a == Hub(f.d.vbridges.entries[k].0)
  {
    var d := f.d;
    FunctionGraphEdges(f, bridges, 0, inner, a, b);
    if exists k | 0 <= k < |d.vlinks.entries| :: LinkOp(d, 0, d.vlinks.entries[k].1) == AddE(a, b) {
      var k :| 0 <= k < |d.vlinks.entries| && LinkOp(d, 0, d.vlinks.entries[k].1) == AddE(a, b);
      Level0EndsColonFree(d, d.vlinks.entries[k].1.cprU);
    } else if exists k | 0 <= k < |d.vlinks.entries| :: LinkOp(d, 0, d.vlinks.entries[k].1) == AddE(b, a) {
      var k :| 0 <= k < |d.vlinks.entries| && LinkOp(d, 0, d.vlinks.entries[k].1) == AddE(b, a);
      Level0EndsColonFree(d, d.vlinks.entries[k].1.cprV);
    } else if !TopologyEdge(f, bridges, 0, inner, a, b) {
      var k :| 0 <= k < |d.vbridges.entries| && b == Hub(d.vbridges.entries[k].0) &&
        exists r | r in d.vbridges.entries[k].1.refs :: a == BridgeEnd(0, r);
      var r :| r in d.vbridges.entries[k].1.refs && a == BridgeEnd(0, r);
      Level0EndsColonFree(d, r);
    }
  }
}
