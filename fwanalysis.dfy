/**
 * The forwarding-path analysis of validator.py `_validate_service_topology`:
 * every forwarding path of a forwarding graph is read as alternating pairs
 * of connection points, each pair joining two VNFs, and the pairs become the
 * edges of a directed graph between VNFs; the simple cycles of that graph
 * longer than two are then reported with the connection points each hop
 * uses.
 */
module FwAnalysis {
  import opened Wrappers
  import opened Refs
  import opened Events
  import opened Folds
  import opened Graphs
  import opened ServiceQueries

  // ------------------------------------------------- owner of a connection point

  /** The digraph node of a connection point: the `vnf_id` of the function
      an `alias:cp` reference names, or the reference itself.  None is the
      internal error of a reference whose function is not found. */
  function NodeOf(s: ServiceState, cp: string): Option<string> {
    var p := Split(cp);
    if |p| == 2 then
      match MappedFunction(s, p[0])
      case None => None
      case Some(f) => VnfId(s, f.id)
    else Some(cp)
  }

  /** In a service built by `associate_function`, an `alias:cp` reference
      belongs to node `alias` exactly when the alias names a function, and
      any other reference is its own node. */
  lemma NodeOfSpec(s: ServiceState, cp: string)
    requires s.Valid()
    ensures |Split(cp)| == 2 ==>
      (NodeOf(s, cp).Some? <==> MappedFunction(s, Split(cp)[0]).Some?) &&
      (NodeOf(s, cp).Some? ==> NodeOf(s, cp).value == Split(cp)[0])
    ensures |Split(cp)| != 2 ==> NodeOf(s, cp) == Some(cp)
  {
    var p := Split(cp);
    if |p| == 2 && MappedFunction(s, p[0]).Some? {
      MappedVnfId(s, p[0]);
    }
  }

  // --------------------------------------------- path to VNF digraph, as a fold

  /** The loop variables `prev_node`, `prev_iface`, `pair_complete` and the
      digraph `fpg`; "" stands for the initial None (both are falsy, and
      `prev_node` is only used as an edge end once a pair has started). */
  datatype Conv = Conv(prev: string, prevIface: string, pairComplete: bool, fpg: DiGraph)

  function Start(fpg: DiGraph): Conv {
    Conv("", "", false, fpg)
  }

  /** A connection point with node `node`: the second point of a pair joins
      the two nodes unless both are the same VNF (reported, and the point is
      skipped); the first point of a pair is reported when it does not
      continue from the previous pair's VNF. */
  function Visit(c: Conv, src: string, node: string, cp: string): Step<Conv> {
    if c.pairComplete then
      if c.prev != "" && c.prev == node then Step(c, true, [Event(src, NsdTopFwpathInsideVnf)])
      else Step(Conv(node, cp, false, c.fpg.AddEdge(c.prev, node, EdgeData(c.prevIface, cp))), true, [])
    else
      Step(Conv(node, cp, true, c.fpg), true,
           if c.prev != "" && c.prev != node then [Event(src, NsdTopFwpathDisrupted)] else [])
  }

  /** One connection point of a path; a reference that is not `alias:cp`
      is also added as a node of its own. */
  function ConvEntry(s: ServiceState, src: string, c: Conv, cp: string): Step<Conv> {
    match NodeOf(s, cp)
    case None => Step(c, false, [])
    case Some(node) =>
      Visit(if |Split(cp)| == 2 then c else c.(fpg := c.fpg.AddNode(cp)), src, node, cp)
  }

  function ConvStep(s: ServiceState, src: string): (Conv, string) -> Step<Conv> {
    (c, cp) => ConvEntry(s, src, c, cp)
  }

  /** Converting one path into the graph `fpg` built from the paths before it. */
  function ConvertPathSpec(s: ServiceState, src: string, fpg: DiGraph, path: seq<string>): Step<Conv> {
    Run(ConvStep(s, src), Start(fpg), path)
  }

  /** The conversion stops exactly at a reference whose function is not found. */
  lemma {:induction false} ConvertPathOk(s: ServiceState, src: string, c: Conv, path: seq<string>)
    ensures Run(ConvStep(s, src), c, path).ok <==> forall j | 0 <= j < |path| :: NodeOf(s, path[j]).Some?
    decreases |path|
  {
    if |path| > 0 {
      var n := |path|;
      var pre := path[..n - 1];
      ConvertPathOk(s, src, c, pre);
      var p := Run(ConvStep(s, src), c, pre);
      assert Run(ConvStep(s, src), c, path).ok == (p.ok && ConvEntry(s, src, p.state, path[n - 1]).ok);
      assert ConvEntry(s, src, p.state, path[n - 1]).ok <==> NodeOf(s, path[n - 1]).Some?;
      forall j | 0 <= j < n - 1 ensures pre[j] == path[j] { }
    }
  }

  // ---------------------------------------- the pairing, stated independently

  /** The node of `path[j]`, for a path whose references all resolve. */
  function NodeAt(s: ServiceState, path: seq<string>, j: nat): string
    requires j < |path| && NodeOf(s, path[j]).Some?
  {
    NodeOf(s, path[j]).value
  }

  predicate AllNodes(s: ServiceState, path: seq<string>) {
    forall j | 0 <= j < |path| :: NodeOf(s, path[j]).Some?
  }

  /** No pair `(path[2i], path[2i + 1])` stays inside one VNF. */
  predicate NoInsidePair(s: ServiceState, path: seq<string>)
    requires AllNodes(s, path)
  {
    forall i | 0 <= i < |path| && 2 * i + 1 < |path| ::
      NodeAt(s, path, 2 * i) == "" || NodeAt(s, path, 2 * i) != NodeAt(s, path, 2 * i + 1)
  }

  /** The digraph after `path[..k]`, read as fixed pairs: each point that is
      not `alias:cp` is a node, and each point at an odd position closes the
      pair begun by the point before it with an edge annotated by the two. */
  function PairedGraph(s: ServiceState, fpg: DiGraph, path: seq<string>, k: nat): DiGraph
    requires k <= |path| && AllNodes(s, path)
  {
    if k == 0 then fpg
    else
      var g := PairedGraph(s, fpg, path, k - 1);
      var g' := if |Split(path[k - 1])| == 2 then g else g.AddNode(path[k - 1]);
      if (k - 1) % 2 == 1 then
        g'.AddEdge(NodeAt(s, path, k - 2), NodeAt(s, path, k - 1), EdgeData(path[k - 2], path[k - 1]))
      else g'
  }

  /** The disruption reports of `path[..k]`: a pair that does not start in
      the VNF where the previous pair ended. */
  function PairedEvents(s: ServiceState, src: string, path: seq<string>, k: nat): seq<Event>
    requires k <= |path| && AllNodes(s, path)
  {
    if k == 0 then []
    else
      PairedEvents(s, src, path, k - 1) +
      (if (k - 1) % 2 == 0 && k - 1 > 0 && NodeAt(s, path, k - 2) != "" && NodeAt(s, path, k - 2) != NodeAt(s, path, k - 1)
       then [Event(src, NsdTopFwpathDisrupted)] else [])
  }

  /** What the pairing reading predicts after `path[..k]`. */
  function Paired(s: ServiceState, src: string, fpg: DiGraph, path: seq<string>, k: nat): Step<Conv>
    requires k <= |path| && AllNodes(s, path)
  {
    Step(Conv(if k == 0 then "" else NodeAt(s, path, k - 1),
              if k == 0 then "" else path[k - 1],
              k % 2 == 1,
              PairedGraph(s, fpg, path, k)),
         true, PairedEvents(s, src, path, k))
  }

  lemma HalfOfOdd(m: nat)
    requires m % 2 == 1
    ensures 2 * ((m - 1) / 2) + 1 == m
  {
  }

  /** The second point of a pair in another VNF closes the pair. */
  lemma VisitCloses(c: Conv, src: string, node: string, cp: string)
    requires c.pairComplete && (c.prev == "" || c.prev != node)
    ensures Visit(c, src, node, cp) ==
      Step(Conv(node, cp, false, c.fpg.AddEdge(c.prev, node, EdgeData(c.prevIface, cp))), true, [])
  {
  }

  /** The first point of a pair opens it. */
  lemma VisitOpens(c: Conv, src: string, node: string, cp: string)
    requires !c.pairComplete
    ensures Visit(c, src, node, cp) ==
      Step(Conv(node, cp, true, c.fpg), true,
           if c.prev != "" && c.prev != node then [Event(src, NsdTopFwpathDisrupted)] else [])
  {
  }

  lemma NextParity(m: nat)
    ensures (m + 1) % 2 == 1 <==> m % 2 == 0
  {
  }

  /** The pairing reading after `k` points, as one conversion step after
      `k - 1`. */
  ghost predicate PairedNext(s: ServiceState, src: string, fpg: DiGraph, path: seq<string>, k: nat)
    requires 0 < k <= |path| && AllNodes(s, path)
  {
    var p := Paired(s, src, fpg, path, k - 1);
    var q := ConvEntry(s, src, p.state, path[k - 1]);
    Paired(s, src, fpg, path, k) == Step(q.state, q.ok, p.events + q.events)
  }

  /** A point at an odd position closes the pair the point before opened. */
  lemma PairedCloses(s: ServiceState, src: string, fpg: DiGraph, path: seq<string>, k: nat)
    requires 0 < k <= |path| && AllNodes(s, path) && NoInsidePair(s, path) && (k - 1) % 2 == 1
    ensures PairedNext(s, src, fpg, path, k)
  {
    var p := Paired(s, src, fpg, path, k - 1);
    var c := p.state;
    var cp := path[k - 1];
    var node := NodeAt(s, path, k - 1);
    var c' := if |Split(cp)| == 2 then c else c.(fpg := c.fpg.AddNode(cp));
    NextParity(k - 2);
    HalfOfOdd(k - 1);
    var i := (k - 2) / 2;
    assert NodeAt(s, path, 2 * i) == "" || NodeAt(s, path, 2 * i) != NodeAt(s, path, 2 * i + 1);
    assert c.pairComplete && c.prev == NodeAt(s, path, k - 2) && c.prevIface == path[k - 2];
    var g := c'.fpg.AddEdge(c.prev, node, EdgeData(c.prevIface, cp));
    VisitCloses(c', src, node, cp);
    assert ConvEntry(s, src, c, cp) == Visit(c', src, node, cp);
    assert PairedGraph(s, fpg, path, k) == g;
    assert PairedEvents(s, src, path, k) == p.events + [];
    assert Paired(s, src, fpg, path, k) == Step(Conv(node, cp, false, g), true, p.events + []);
  }

  /** A point at an even position opens a pair. */
  lemma PairedOpens(s: ServiceState, src: string, fpg: DiGraph, path: seq<string>, k: nat)
    requires 0 < k <= |path| && AllNodes(s, path) && (k - 1) % 2 == 0
    ensures PairedNext(s, src, fpg, path, k)
  {
    var p := Paired(s, src, fpg, path, k - 1);
    var c := p.state;
    var cp := path[k - 1];
    var node := NodeAt(s, path, k - 1);
    var c' := if |Split(cp)| == 2 then c else c.(fpg := c.fpg.AddNode(cp));
    NextParity(k - 1);
    assert !c.pairComplete;
    var ev := if c.prev != "" && c.prev != node then [Event(src, NsdTopFwpathDisrupted)] else [];
    VisitOpens(c', src, node, cp);
    assert ConvEntry(s, src, c, cp) == Visit(c', src, node, cp);
    assert PairedGraph(s, fpg, path, k) == c'.fpg;
    assert PairedEvents(s, src, path, k) == p.events + ev;
    assert Paired(s, src, fpg, path, k) == Step(Conv(node, cp, true, c'.fpg), true, p.events + ev);
  }

  lemma PairedStep(s: ServiceState, src: string, fpg: DiGraph, path: seq<string>, k: nat)
    requires 0 < k <= |path| && AllNodes(s, path) && NoInsidePair(s, path)
    requires Run(ConvStep(s, src), Start(fpg), path[..k - 1]) == Paired(s, src, fpg, path, k - 1)
    ensures Run(ConvStep(s, src), Start(fpg), path[..k]) == Paired(s, src, fpg, path, k)
  {
    RunSnoc(ConvStep(s, src), Start(fpg), path, k - 1);
    if (k - 1) % 2 == 1 {
      PairedCloses(s, src, fpg, path, k);
    } else {
      PairedOpens(s, src, fpg, path, k);
    }
    var p := Paired(s, src, fpg, path, k - 1);
    assert ConvStep(s, src)(p.state, path[k - 1]) == ConvEntry(s, src, p.state, path[k - 1]);
  }

  /** Without a pair inside one VNF, the conversion reads the path as the
      pairs `(path[2i], path[2i + 1])`: each adds the edge between the two
      owners annotated with the two points, and the only reports are the
      disruptions between consecutive pairs. */
  lemma {:induction false} ConvertPathPaired(s: ServiceState, src: string, fpg: DiGraph, path: seq<string>, k: nat)
    requires k <= |path| && AllNodes(s, path) && NoInsidePair(s, path)
    ensures Run(ConvStep(s, src), Start(fpg), path[..k]) == Paired(s, src, fpg, path, k)
    decreases k
  {
    if k > 0 {
      ConvertPathPaired(s, src, fpg, path, k - 1);
      PairedStep(s, src, fpg, path, k);
    }
  }

  /** An open pair started at a point among the first `k` of the path. */
  ghost predicate OpenedWithin(s: ServiceState, path: seq<string>, k: nat, c: Conv)
    requires k <= |path|
  {
    c.pairComplete ==> exists j | 0 <= j < k :: NodeOf(s, path[j]) == Some(c.prev) && c.prevIface == path[j]
  }

  /** Every edge of `g` that `fpg` does not already hold joins the owners of
      two points among the first `k`, an earlier and a later one, and is
      annotated with exactly those two points. */
  ghost predicate NewEdgesWithin(s: ServiceState, fpg: DiGraph, path: seq<string>, k: nat, g: DiGraph)
    requires k <= |path|
  {
    forall e | e in g.edges && !(e in fpg.edges && g.edges[e] == fpg.edges[e]) ::
      exists j, l | 0 <= j < l < k ::
        NodeOf(s, path[j]) == Some(e.0) && NodeOf(s, path[l]) == Some(e.1) &&
        g.edges[e] == EdgeData(path[j], path[l])
  }

  /** What holds of the first `k - 1` points still holds of the first `k`. */
  lemma WithinGrows(s: ServiceState, fpg: DiGraph, path: seq<string>, k: nat, c: Conv)
    requires 0 < k <= |path|
    requires OpenedWithin(s, path, k - 1, c) && NewEdgesWithin(s, fpg, path, k - 1, c.fpg)
    ensures OpenedWithin(s, path, k, c) && NewEdgesWithin(s, fpg, path, k, c.fpg)
  {
    if c.pairComplete {
      var j :| 0 <= j < k - 1 && NodeOf(s, path[j]) == Some(c.prev) && c.prevIface == path[j];
    }
    forall e | e in c.fpg.edges && !(e in fpg.edges && c.fpg.edges[e] == fpg.edges[e])
      ensures exists j, l | 0 <= j < l < k ::
        NodeOf(s, path[j]) == Some(e.0) && NodeOf(s, path[l]) == Some(e.1) &&
        c.fpg.edges[e] == EdgeData(path[j], path[l])
    {
      var j, l :| 0 <= j < l < k - 1 &&
        NodeOf(s, path[j]) == Some(e.0) && NodeOf(s, path[l]) == Some(e.1) &&
        c.fpg.edges[e] == EdgeData(path[j], path[l]);
    }
  }

  /** The `k`-th point keeps both properties. */
  lemma EdgesStep(s: ServiceState, src: string, fpg: DiGraph, path: seq<string>, k: nat, c: Conv)
    requires 0 < k <= |path|
    requires OpenedWithin(s, path, k - 1, c) && NewEdgesWithin(s, fpg, path, k - 1, c.fpg)
    ensures var q := ConvEntry(s, src, c, path[k - 1]).state;
      OpenedWithin(s, path, k, q) && NewEdgesWithin(s, fpg, path, k, q.fpg)
  {
    var cp := path[k - 1];
    WithinGrows(s, fpg, path, k, c);
    if NodeOf(s, cp).Some? {
      var node := NodeOf(s, cp).value;
      var c' := if |Split(cp)| == 2 then c else c.(fpg := c.fpg.AddNode(cp));
      assert c'.fpg.edges == c.fpg.edges && c'.prev == c.prev && c'.prevIface == c.prevIface;
      if !c.pairComplete {
        assert NodeOf(s, path[k - 1]) == Some(node);
      } else if !(c.prev != "" && c.prev == node) {
        var j :| 0 <= j < k - 1 && NodeOf(s, path[j]) == Some(c.prev) && c.prevIface == path[j];
        var g := c'.fpg.AddEdge(c.prev, node, EdgeData(c.prevIface, cp));
        forall e | e in g.edges && !(e in fpg.edges && g.edges[e] == fpg.edges[e])
          ensures exists j, l | 0 <= j < l < k ::
            NodeOf(s, path[j]) == Some(e.0) && NodeOf(s, path[l]) == Some(e.1) &&
            g.edges[e] == EdgeData(path[j], path[l])
        {
          if e == (c.prev, node) {
            assert NodeOf(s, path[j]) == Some(e.0) && NodeOf(s, path[k - 1]) == Some(e.1);
          } else {
            assert g.edges[e] == c.fpg.edges[e];
          }
        }
      }
    }
  }

  /** Every edge of the converted graph that was not there before joins the
      owners of two points of the path, an earlier and a later one, and is
      annotated with exactly those two points; an open pair began at a point
      of the path. */
  lemma {:induction false} ConvertPathEdges(s: ServiceState, src: string, fpg: DiGraph, path: seq<string>, k: nat)
    requires k <= |path|
    ensures var c := Run(ConvStep(s, src), Start(fpg), path[..k]).state;
      OpenedWithin(s, path, k, c) && NewEdgesWithin(s, fpg, path, k, c.fpg)
    decreases k
  {
    if k > 0 {
      ConvertPathEdges(s, src, fpg, path, k - 1);
      var p := Run(ConvStep(s, src), Start(fpg), path[..k - 1]);
      if p.ok {
        RunSnoc(ConvStep(s, src), Start(fpg), path, k - 1);
        EdgesStep(s, src, fpg, path, k, p.state);
      } else {
        assert path[..k][..k - 1] == path[..k - 1];
        RunStops(ConvStep(s, src), Start(fpg), path[..k], k - 1);
        WithinGrows(s, fpg, path, k, p.state);
      }
    }
  }

  /** `len(fw_path['path']) % 2 != 0`: a path with an odd number of points
      is always reported. */
  function OddEvents(src: string, path: seq<string>): (es: seq<Event>)
    ensures |path| % 2 != 0 <==> es == [Event(src, NsdTopCpointsOdd)]
    ensures |path| % 2 == 0 <==> es == []
  {
    if |path| % 2 != 0 then [Event(src, NsdTopCpointsOdd)] else []
  }

  // -------------------------------------------------------------- cycles

  /** The simple cycles with more than two nodes, in the order found. */
  function LongCycles(cycles: seq<seq<string>>): (r: seq<seq<string>>)
    decreases |cycles|
  {
    if |cycles| == 0 then []
    else LongCycles(cycles[..|cycles| - 1]) + (if |cycles[|cycles| - 1]| > 2 then [cycles[|cycles| - 1]] else [])
  }

  /** Exactly the cycles longer than two are kept. */
  lemma {:induction false} LongCyclesMember(cycles: seq<seq<string>>, c: seq<string>)
    ensures c in LongCycles(cycles) <==> c in cycles && |c| > 2
    decreases |cycles|
  {
    if |cycles| > 0 {
      var pre := cycles[..|cycles| - 1];
      LongCyclesMember(pre, c);
      assert cycles == pre + [cycles[|cycles| - 1]];
    }
  }

  /** The hop from `c[i]` to the next node, the last wrapping to the first. */
  function NextInCycle(c: seq<string>, i: nat): string
    requires i < |c|
  {
    if i + 1 == |c| then c[0] else c[i + 1]
  }

  /** `cycle_path` of one cycle: the from/to points of each hop; a hop that
      is not an edge is logged as an internal error and skipped. */
  function CycleLinks(fpg: DiGraph, c: seq<string>, n: nat): seq<EdgeData>
    requires n <= |c|
  {
    if n == 0 then []
    else
      CycleLinks(fpg, c, n - 1) +
      (if (c[n - 1], NextInCycle(c, n - 1)) in fpg.edges then [fpg.edges[(c[n - 1], NextInCycle(c, n - 1))]] else [])
  }

  /** Every hop of `c`, the last one back to the first node, is an edge. */
  predicate HopsAreEdges(fpg: DiGraph, c: seq<string>) {
    forall i | 0 <= i < |c| :: (c[i], NextInCycle(c, i)) in fpg.edges
  }

  lemma SimpleCycleHops(fpg: DiGraph, c: seq<string>)
    requires IsSimpleCycle(fpg, c)
    ensures HopsAreEdges(fpg, c)
  {
    forall i | 0 <= i < |c| ensures (c[i], NextInCycle(c, i)) in fpg.edges {
      if i + 1 < |c| {
        assert (c[i], c[i + 1]) in fpg.edges;
      }
    }
  }

  lemma {:induction false} HopsLinks(fpg: DiGraph, c: seq<string>, n: nat)
    requires HopsAreEdges(fpg, c) && n <= |c|
    ensures |CycleLinks(fpg, c, n)| == n
    ensures forall i | 0 <= i < n :: CycleLinks(fpg, c, n)[i] == fpg.edges[(c[i], NextInCycle(c, i))]
    decreases n
  {
    if n > 0 {
      HopsLinks(fpg, c, n - 1);
      var hop := (c[n - 1], NextInCycle(c, n - 1));
      assert hop in fpg.edges;
      assert CycleLinks(fpg, c, n) == CycleLinks(fpg, c, n - 1) + [fpg.edges[hop]];
    }
  }

  /** For a simple cycle of the graph every hop is an edge, so `cycle_path`
      has one link per node, in cycle order, the last one back to the
      first node, each carrying the points of that hop's pair. */
  lemma CycleLinksSpec(fpg: DiGraph, c: seq<string>, n: nat)
    requires IsSimpleCycle(fpg, c) && n <= |c|
    ensures |CycleLinks(fpg, c, n)| == n
    ensures forall i | 0 <= i < n :: CycleLinks(fpg, c, n)[i] == fpg.edges[(c[i], NextInCycle(c, i))]
  {
    SimpleCycleHops(fpg, c);
    HopsLinks(fpg, c, n);
  }

  /** Cycles were found: one report per kept cycle. */
  function CycleEvents(src: string, kept: seq<seq<string>>): (es: seq<Event>)
    ensures |es| == |kept| && forall i | 0 <= i < |es| :: es[i] == Event(src, NsdTopFwgraphCycles)
  {
    Repeat(kept, src, NsdTopFwgraphCycles)
  }

  // ------------------------------------------------- the imperative loops

  /** The body of the conversion loop for one connection point. */
  method ConvertPoint(s: ServiceState, src: string, c: Conv, cp: string, log: EventLog)
    returns (ok: bool, prev: string, prevIface: string, pairComplete: bool, fpg: DiGraph)
    modifies log
    ensures var q := ConvEntry(s, src, c, cp);
      ok == q.ok && Conv(prev, prevIface, pairComplete, fpg) == q.state && log.events == old(log.events) + q.events
  {
    prev, prevIface, pairComplete, fpg := c.prev, c.prevIface, c.pairComplete, c.fpg;
    var node: string;
    var p := Split(cp);
    if |p| == 2 {
      var f := MappedFunction(s, p[0]);
      if f.None? {
        return false, prev, prevIface, pairComplete, fpg;
      }
      var a := VnfId(s, f.value.id);
      if a.None? {
        return false, prev, prevIface, pairComplete, fpg;
      }
      node := a.value;
    } else {
      node := cp;
      fpg := fpg.AddNode(node);
    }
    ok := true;
    if pairComplete {
      if prev != "" && prev == node {
        log.Log(src, NsdTopFwpathInsideVnf);
        return;
      }
      fpg := fpg.AddEdge(prev, node, EdgeData(prevIface, cp));
      pairComplete := false;
    } else {
      if prev != "" && prev != node {
        log.Log(src, NsdTopFwpathDisrupted);
      }
      pairComplete := true;
    }
    prev, prevIface := node, cp;
  }

  /** The conversion loop over one path, adding to `fpg` and logging; an
      internal error ends the analysis. */
  method ConvertPath(s: ServiceState, src: string, fpg0: DiGraph, path: seq<string>, log: EventLog)
    returns (ok: bool, fpg: DiGraph)
    modifies log
    ensures var r := ConvertPathSpec(s, src, fpg0, path);
      ok == r.ok && fpg == r.state.fpg && log.events == old(log.events) + r.events
  {
    ghost var ev0 := log.events;
    var prev, prevIface, pairComplete := "", "", false;
    fpg := fpg0;
    var i := 0;
    while i < |path|
      invariant 0 <= i <= |path|
      invariant Run(ConvStep(s, src), Start(fpg0), path[..i]).ok
      invariant Conv(prev, prevIface, pairComplete, fpg) == Run(ConvStep(s, src), Start(fpg0), path[..i]).state
      invariant log.events == ev0 + Run(ConvStep(s, src), Start(fpg0), path[..i]).events
    {
      ghost var pre := Run(ConvStep(s, src), Start(fpg0), path[..i]);
      ghost var q := ConvEntry(s, src, pre.state, path[i]);
      RunSnoc(ConvStep(s, src), Start(fpg0), path, i);
      var pointOk;
      pointOk, prev, prevIface, pairComplete, fpg := ConvertPoint(s, src, Conv(prev, prevIface, pairComplete, fpg), path[i], log);
      AppendAssoc(ev0, pre.events, q.events);
      if !pointOk {
        RunStops(ConvStep(s, src), Start(fpg0), path, i + 1);
        return false, fpg;
      }
      i := i + 1;
    }
    assert path[..i] == path;
    ok := true;
  }

  /** All paths of one forwarding graph feed the same digraph. */
  function GraphConvEntry(s: ServiceState, src: string, fpg: DiGraph, path: seq<string>): Step<DiGraph> {
    var r := ConvertPathSpec(s, src, fpg, path);
    Step(r.state.fpg, r.ok, r.events)
  }

  function GraphConvStep(s: ServiceState, src: string): (DiGraph, seq<string>) -> Step<DiGraph> {
    (fpg, path) => GraphConvEntry(s, src, fpg, path)
  }

  method ConvertPaths(s: ServiceState, src: string, paths: seq<seq<string>>, log: EventLog)
    returns (ok: bool, fpg: DiGraph)
    modifies log
    ensures var r := Run(GraphConvStep(s, src), EmptyDiGraph(), paths);
      ok == r.ok && fpg == r.state && log.events == old(log.events) + r.events
  {
    ghost var ev0 := log.events;
    fpg := EmptyDiGraph();
    var i := 0;
    while i < |paths|
      invariant 0 <= i <= |paths|
      invariant Run(GraphConvStep(s, src), EmptyDiGraph(), paths[..i]).ok
      invariant fpg == Run(GraphConvStep(s, src), EmptyDiGraph(), paths[..i]).state
      invariant log.events == ev0 + Run(GraphConvStep(s, src), EmptyDiGraph(), paths[..i]).events
    {
      ghost var pre := Run(GraphConvStep(s, src), EmptyDiGraph(), paths[..i]);
      ghost var q := GraphConvEntry(s, src, pre.state, paths[i]);
      RunSnoc(GraphConvStep(s, src), EmptyDiGraph(), paths, i);
      var pathOk;
      pathOk, fpg := ConvertPath(s, src, fpg, paths[i], log);
      AppendAssoc(ev0, pre.events, q.events);
      if !pathOk {
        RunStops(GraphConvStep(s, src), EmptyDiGraph(), paths, i + 1);
        return false, fpg;
      }
      i := i + 1;
    }
    assert paths[..i] == paths;
    ok := true;
  }

  /** The filtering loop over the cycles `simple_cycles` found. */
  method KeepLongCycles(cycles: seq<seq<string>>) returns (kept: seq<seq<string>>)
    ensures kept == LongCycles(cycles)
  {
    kept := [];
    var i := 0;
    while i < |cycles|
      invariant 0 <= i <= |cycles|
      invariant kept == LongCycles(cycles[..i])
    {
      assert cycles[..i + 1][..i] == cycles[..i];
      if |cycles[i]| > 2 {
        kept := kept + [cycles[i]];
      }
      i := i + 1;
    }
    assert cycles[..i] == cycles;
  }

  /** The loop building one cycle's `cycle_path`. */
  method CyclePath(fpg: DiGraph, c: seq<string>) returns (links: seq<EdgeData>)
    ensures links == CycleLinks(fpg, c, |c|)
  {
    links := [];
    var idx := 0;
    while idx < |c|
      invariant 0 <= idx <= |c|
      invariant links == CycleLinks(fpg, c, idx)
    {
      var next := if idx + 1 == |c| then c[0] else c[idx + 1];
      if (c[idx], next) in fpg.edges {
        links := links + [fpg.edges[(c[idx], next)]];
      }
      idx := idx + 1;
    }
  }
}
