/**
 * The loops of validator.py's `_validate_service_topology`, on a snapshot
 * of the service: the checks before the forwarding graphs, the check of
 * every forwarding path, and the analysis of each loaded forwarding graph.
 * Each method is proved against the function in `ServiceStages` that
 * states what the stage computes.
 */
module TopologyStage {
  import opened Events
  import opened Folds
  import opened ServiceQueries
  import opened ForwardingGraphs
  import opened Graphs
  import opened ServiceGraphs
  import opened Traces
  import opened FwAnalysis
  import opened FunctionStages
  import opened ServiceStages
  import opened Content
  import Services

  /** Isolated VNFs and loops end the stage; unused connection points are
      reported; then the topology graph is built and checked. */
  method TopologyChecksOf(s: ServiceState, log: EventLog) returns (ok: bool)
    requires s.Closed()
    modifies log
    ensures var t := TopologyChecks(s); ok == t.ok && log.events == old(log.events) + t.events
  {
    if DetectIsolatedVnfs(s) != [] {
      log.Log(s.id, NsdTopIsolatedVnfd);
      return false;
    }
    if DetectServiceLoops(s).entries != [] {
      log.Log(s.id, NsdTopLoopsInVnfd);
      return false;
    }
    var unused := DetectUnusedCps(s) != [];
    var g := BuildServiceGraph(s, true);
    ok := GraphChecksOf(s.id, unused, g, log);
  }

  /** The part of the checks that reads the topology graph (level 1, with
      bridges), once unused connection points are known: those are
      reported, an empty graph fails, a disconnected one is reported. */
  method GraphChecksOf(id: string, unused: bool, g: Graph, log: EventLog) returns (ok: bool)
    requires g.Valid()
    modifies log
    ensures var t := GraphChecks(id, unused, g); ok == t.ok && log.events == old(log.events) + t.events
  {
    log.LogIf(unused, id, NsdTopUnnusedCpsVnfd);
    if g.nodes == {} {
      log.Log(id, NsdTopTopgraphFailed);
      return false;
    }
    log.LogIf(!IsConnected(g), id, NsdTopDisconnected);
    return true;
  }

  /** One forwarding path: an odd number of connection points is reported,
      a break in its trace is reported and ends the stage. */
  method CheckPath(g: Graph, src: string, p: FwPath, log: EventLog) returns (ok: bool)
    modifies log
    ensures var r := PathCheck(g, src, p); ok == r.ok && log.events == old(log.events) + r.events
  {
    log.LogIf(|p.path| % 2 != 0, src, NsdTopCpointsOdd);
    var trace := TracePairs(g, p.path);
    if AnyBreak(trace) {
      log.Log(src, NsdTopFwpathInvalid);
      return false;
    }
    return true;
  }

  /** The paths of one forwarding graph, in order, up to the first broken
      one. */
  method CheckPaths(g: Graph, src: string, paths: seq<FwPath>, log: EventLog) returns (ok: bool)
    modifies log
    ensures var r := Run(PathCheckStep(g, src), (), paths); ok == r.ok && log.events == old(log.events) + r.events
  {
    ghost var ev0 := log.events;
    var i := 0;
    while i < |paths|
      invariant 0 <= i <= |paths|
      invariant Run(PathCheckStep(g, src), (), paths[..i]).ok
      invariant log.events == ev0 + Run(PathCheckStep(g, src), (), paths[..i]).events
    {
      ghost var pre := Run(PathCheckStep(g, src), (), paths[..i]);
      RunSnoc(PathCheckStep(g, src), (), paths, i);
      var pathOk := CheckPath(g, src, paths[i], log);
      AppendAssoc(ev0, pre.events, PathCheck(g, src, paths[i]).events);
      if !pathOk {
        RunStops(PathCheckStep(g, src), (), paths, i + 1);
        return false;
      }
      i := i + 1;
    }
    assert paths[..i] == paths;
    return true;
  }

  /** The `cycle_path` of every kept cycle, in order. */
  method CyclePathsOf(fpg: DiGraph, kept: seq<seq<string>>) returns (r: seq<seq<EdgeData>>)
    ensures r == CyclePaths(fpg, kept)
  {
    r := [];
    var i := 0;
    while i < |kept|
      invariant 0 <= i <= |kept|
      invariant r == CyclePaths(fpg, kept[..i])
    {
      assert kept[..i + 1][..i] == kept[..i];
      var links := CyclePath(fpg, kept[i]);
      r := r + [links];
      i := i + 1;
    }
    assert kept[..i] == kept;
  }

  /** One forwarding graph: check its paths, convert them into the digraph
      between VNFs, keep and report the cycles longer than two, and append
      their `cycle_path`s to `acc`. */
  method AnalyseFwGraph(s: ServiceState, g: Graph, cyclesOf: DiGraph -> seq<seq<string>>,
                        acc: seq<seq<seq<EdgeData>>>, fg: FwGraph, log: EventLog)
    returns (ok: bool, cycles: seq<seq<seq<EdgeData>>>)
    modifies log
    ensures var r := FwGraphEntry(s, g, cyclesOf, acc, fg);
      ok == r.ok && cycles == r.state && log.events == old(log.events) + r.events
  {
    var src := s.id + ":" + fg.fgId;
    ghost var ev0 := log.events;
    ok := CheckPaths(g, src, fg.paths, log);
    if !ok {
      return ok, acc;
    }
    ghost var ev1 := log.events;
    var fpg;
    ok, fpg := ConvertPaths(s, src, PathsOf(fg.paths), log);
    AppendAssoc(ev0, ev1[|ev0|..], log.events[|ev1|..]);
    if !ok {
      return ok, acc;
    }
    var kept := KeepLongCycles(cyclesOf(fpg));
    var paths := CyclePathsOf(fpg, kept);
    ghost var ev2 := log.events;
    log.LogEach(kept, src, NsdTopFwgraphCycles);
    AppendAssoc(ev0, ev2[|ev0|..], log.events[|ev2|..]);
    return true, acc + [paths];
  }

  /** Every loaded forwarding graph in turn, up to the first one whose
      analysis ends the stage. */
  method AnalyseFwGraphs(s: ServiceState, g: Graph, cyclesOf: DiGraph -> seq<seq<string>>,
                         fgs: seq<FwGraph>, log: EventLog)
    returns (ok: bool, cycles: seq<seq<seq<EdgeData>>>)
    modifies log
    ensures var r := Run(FwGraphStep(s, g, cyclesOf), [], fgs);
      ok == r.ok && cycles == r.state && log.events == old(log.events) + r.events
  {
    ghost var ev0 := log.events;
    cycles := [];
    var i := 0;
    while i < |fgs|
      invariant 0 <= i <= |fgs|
      invariant Run(FwGraphStep(s, g, cyclesOf), [], fgs[..i]).ok
      invariant cycles == Run(FwGraphStep(s, g, cyclesOf), [], fgs[..i]).state
      invariant log.events == ev0 + Run(FwGraphStep(s, g, cyclesOf), [], fgs[..i]).events
    {
      ghost var pre := Run(FwGraphStep(s, g, cyclesOf), [], fgs[..i]);
      ghost var q := FwGraphEntry(s, g, cyclesOf, cycles, fgs[i]);
      RunSnoc(FwGraphStep(s, g, cyclesOf), [], fgs, i);
      var graphOk;
      graphOk, cycles := AnalyseFwGraph(s, g, cyclesOf, cycles, fgs[i], log);
      AppendAssoc(ev0, pre.events, q.events);
      if !graphOk {
        RunStops(FwGraphStep(s, g, cyclesOf), [], fgs, i + 1);
        return false, cycles;
      }
      i := i + 1;
    }
    assert fgs[..i] == fgs;
    ok := true;
  }

  /** Without a `forwarding_graphs` section the stage passes with a report;
      otherwise the forwarding graphs are loaded after `fw0` (the service's
      `load_forwarding_graphs`) and analysed on the topology graph (level
      1, with bridges). */
  method FwGraphsOf(s: ServiceState, fw0: seq<FwGraph>, c: Content, cyclesOf: DiGraph -> seq<seq<string>>,
                    log: EventLog)
    returns (ok: bool, graphs: seq<FwGraph>, cycles: seq<seq<seq<EdgeData>>>)
    modifies log
    ensures var r := FwGraphsSection(s, fw0, c, cyclesOf);
      ok == r.ok && graphs == r.state.fwGraphs && cycles == r.state.cycles &&
      log.events == old(log.events) + r.events
  {
    if c.forwardingGraphs.None? {
      log.Log(s.id, NsdTopFwgraphUnavailable);
      return true, fw0, [];
    }
    ghost var ev0 := log.events;
    graphs, ok := Services.Service.LoadGraphs(s, fw0, c.forwardingGraphs.value, log);
    ghost var ev1 := log.events;
    if !ok {
      log.Log(s.id, NsdTopBadsectionFwgraph);
      AppendAssoc(ev0, ev1[|ev0|..], log.events[|ev1|..]);
      return false, graphs, [];
    }
    var g := BuildServiceGraph(s, true);
    ok, cycles := AnalyseFwGraphs(s, g, cyclesOf, graphs, log);
    AppendAssoc(ev0, ev1[|ev0|..], log.events[|ev1|..]);
  }
}
