/**
 * storage.py `Service`: a service descriptor together with the function
 * objects it associates (shared with the storage, so held by reference),
 * the alias map from the service's `vnf_id`s to function ids, and the
 * forwarding graphs it loads.  The queries over a service are stated on the
 * value `View()` compiles from the objects.
 */
module Services {
  import opened Wrappers
  import opened Dicts
  import opened Events
  import opened Content
  import opened Folds
  import opened Links
  import opened Descriptors
  import opened FunctionQueries
  import opened Functions
  import opened ServiceQueries
  import opened ForwardingGraphs
  import opened Graphs
  import opened ServiceGraphs
  import FunctionStages

  /** The function objects of a dictionary of functions. */
  function FunctionObjects(es: seq<(string, Function)>): (fs: seq<Function>)
    ensures |fs| == |es| && forall i | 0 <= i < |es| :: fs[i] == es[i].1
    decreases |es|
  {
    if |es| == 0 then [] else FunctionObjects(es[..|es| - 1]) + [es[|es| - 1].1]
  }

  /** The descriptor objects of those functions. */
  function DescObjects(es: seq<(string, Function)>): (ds: seq<Descriptor>)
    ensures |ds| == |es| && forall i | 0 <= i < |es| :: ds[i] == es[i].1.desc
    decreases |es|
  {
    if |es| == 0 then [] else DescObjects(es[..|es| - 1]) + [es[|es| - 1].1.desc]
  }

  /** The value of each function, under its key. */
  function ViewsOf(es: seq<(string, Function)>): (vs: seq<(string, FunctionState)>)
    reads FunctionObjects(es), DescObjects(es)
    ensures |vs| == |es|
    ensures forall i | 0 <= i < |es| :: vs[i] == (es[i].0, es[i].1.View())
    decreases |es|
  {
    if |es| == 0 then []
    else
      var pre := es[..|es| - 1];
      assert forall i | 0 <= i < |pre| :: pre[i] == es[i];
      ViewsOf(pre) + [(es[|es| - 1].0, es[|es| - 1].1.View())]
  }

  /** The state and descriptor content of each function, in order. */
  function Inputs(es: seq<(string, Function)>): (ins: seq<(FunctionState, Option<Content>)>)
    reads FunctionObjects(es), DescObjects(es)
    ensures |ins| == |es|
    ensures forall i | 0 <= i < |es| :: ins[i] == (es[i].1.View(), es[i].1.desc.content)
    decreases |es|
  {
    if |es| == 0 then []
    else
      var pre := es[..|es| - 1];
      assert forall i | 0 <= i < |pre| :: pre[i] == es[i];
      Inputs(pre) + [(es[|es| - 1].1.View(), es[|es| - 1].1.desc.content)]
  }

  /** The state and descriptor content of each function, under its key. */
  function StatesOf(es: seq<(string, Function)>): (ss: seq<(string, (FunctionState, Option<Content>))>)
    reads FunctionObjects(es), DescObjects(es)
    ensures |ss| == |es|
    ensures forall i | 0 <= i < |es| :: ss[i] == (es[i].0, (es[i].1.View(), es[i].1.desc.content))
    decreases |es|
  {
    if |es| == 0 then []
    else
      var pre := es[..|es| - 1];
      assert forall i | 0 <= i < |pre| :: pre[i] == es[i];
      StatesOf(pre) + [(es[|es| - 1].0, (es[|es| - 1].1.View(), es[|es| - 1].1.desc.content))]
  }

  /** Looking a key up among the states finds the state of the function
      stored under it. */
  lemma StatesOfGet(d: Dict<string, Function>, k: string)
    ensures Dict(StatesOf(d.entries)).Get(k) ==
      match d.Get(k)
      case None => None
      case Some(f) => Some((f.View(), f.desc.content))
    ensures Dict(StatesOf(d.entries)).HasKey(k) <==> d.HasKey(k)
  {
    IndexOfSameKeys(d.entries, StatesOf(d.entries), k);
  }

  /** Adding a function under a new key adds its state under that key. */
  lemma StatesOfPut(d: Dict<string, Function>, k: string, f: Function)
    requires !d.HasKey(k)
    ensures StatesOf(d.Put(k, f).entries) == Dict(StatesOf(d.entries)).Put(k, (f.View(), f.desc.content)).entries
    ensures !Dict(StatesOf(d.entries)).HasKey(k)
  {
    IndexOfSameKeys(d.entries, StatesOf(d.entries), k);
    var a, b := StatesOf(d.Put(k, f).entries), StatesOf(d.entries) + [(k, (f.View(), f.desc.content))];
    assert d.Put(k, f).entries == d.entries + [(k, f)];
    forall i | 0 <= i < |a| ensures a[i] == b[i] {
      if i < |d.entries| {
        assert d.Put(k, f).entries[i] == d.entries[i];
      }
    }
  }

  /** Appending a function appends its value. */
  lemma ViewsOfSnoc(es: seq<(string, Function)>, k: string, f: Function)
    ensures ViewsOf(es + [(k, f)]) == ViewsOf(es) + [(k, f.View())]
  {
    var a, b := ViewsOf(es + [(k, f)]), ViewsOf(es) + [(k, f.View())];
    assert |a| == |b|;
    forall i | 0 <= i < |a| ensures a[i] == b[i] {
      if i < |es| {
        assert (es + [(k, f)])[i] == es[i];
      }
    }
  }

  class Service {
    const desc: Descriptor
    var functions: Dict<string, Function>
    var vnfIdMap: Dict<string, string>
    var fwGraphs: seq<FwGraph>

    /** The service as a value: its descriptor state, its functions' values
        and its alias map. */
    function View(): ServiceState
      reads this`functions, this`vnfIdMap, desc, FunctionObjects(functions.entries), DescObjects(functions.entries)
    {
      ServiceState(desc.id, desc.View(), Dict(ViewsOf(functions.entries)), vnfIdMap)
    }

    /** What `associate_function` keeps true, stated on the objects: the
        descriptor is a service's and loads valid state, every function is
        stored under its own id and is a function, every alias names a
        stored function, and no two aliases name the same one.  A function
        descriptor's id is fixed, so loading into a function cannot break
        it. */
    ghost predicate Valid()
      reads this`functions, this`vnfIdMap, desc
    {
      desc.kind == ServiceDoc && desc.Valid() && functions.Valid() && vnfIdMap.Valid() &&
      (forall i | 0 <= i < |functions.entries| ::
        functions.entries[i].1.desc.id == functions.entries[i].0 &&
        functions.entries[i].1.desc.kind == FunctionDoc) &&
      (forall i | 0 <= i < |vnfIdMap.entries| :: functions.HasKey(vnfIdMap.entries[i].1)) &&
      (forall i, j | 0 <= i < j < |vnfIdMap.entries| :: vnfIdMap.entries[i].1 != vnfIdMap.entries[j].1)
    }

    /** The object invariant gives the value invariant. */
    lemma ValidView()
      requires Valid()
      ensures View().Valid()
    {
      var es := functions.entries;
      forall k ensures Dict(ViewsOf(es)).HasKey(k) == functions.HasKey(k) {
        IndexOfSameKeys(es, ViewsOf(es), k);
      }
    }

    /** The service's descriptor is none of its functions' descriptors, so
        loading into it leaves the functions' values alone. */
    lemma OwnDescriptor()
      requires Valid()
      ensures desc !in DescObjects(functions.entries)
    {
      var ds := DescObjects(functions.entries);
      forall i | 0 <= i < |ds| ensures ds[i] != desc {
        assert ds[i].kind == FunctionDoc;
      }
    }

    /** `load_connection_points`, inherited from `Descriptor`: loads into
        the service's own descriptor and leaves its functions alone. */
    method LoadConnectionPoints(log: EventLog) returns (ok: bool)
      requires desc.content.Some? && desc !in DescObjects(functions.entries)
      modifies desc, log
      ensures var l := FunctionStages.LoadedCps(old(View()).id, old(View()).d, desc.content.value);
        ok == l.ok && View() == old(View()).(d := l.state) && log.events == old(log.events) + l.events
    {
      ok := desc.LoadConnectionPoints(log);
    }

    /** `load_virtual_links`, inherited from `Descriptor`, likewise. */
    method LoadVirtualLinks(log: EventLog) returns (ok: bool)
      requires desc.content.Some? && desc !in DescObjects(functions.entries)
      modifies desc, log
      ensures var l := FunctionStages.LoadedLinks(old(View()).id, old(View()).d, desc.content.value);
        ok == l.ok && View() == old(View()).(d := l.state) && log.events == old(log.events) + l.events
    {
      ok := desc.LoadVirtualLinks(log);
    }

    /** The value invariant, with the kinds, gives the object invariant. */
    lemma ViewValid()
      requires View().Valid() && desc.kind == ServiceDoc
      requires forall i | 0 <= i < |functions.entries| :: functions.entries[i].1.desc.kind == FunctionDoc
      ensures Valid()
    {
      var es := functions.entries;
      forall k ensures Dict(ViewsOf(es)).HasKey(k) == functions.HasKey(k) {
        IndexOfSameKeys(es, ViewsOf(es), k);
      }
    }

    constructor(desc: Descriptor)
      requires desc.kind == ServiceDoc
      ensures this.desc == desc && functions == Empty() && vnfIdMap == Empty() && fwGraphs == []
      ensures desc.Valid() ==> Valid()
    {
      this.desc := desc;
      functions := Empty();
      vnfIdMap := Empty();
      fwGraphs := [];
    }

    /** `mapped_function`: the function object an alias names, or null when
        the alias is unknown or its function is not stored. */
    function Mapped(alias: string): Function?
      reads this
    {
      match vnfIdMap.Get(alias)
      case None => null
      case Some(fid) =>
        match functions.Get(fid)
        case None => null
        case Some(f) => f
    }

    /** The object lookup and the value lookup agree. */
    lemma MappedView(alias: string)
      ensures Mapped(alias) == null <==> MappedFunction(View(), alias).None?
      ensures Mapped(alias) != null ==> MappedFunction(View(), alias) == Some(Mapped(alias).View())
    {
      match vnfIdMap.Get(alias)
      case None =>
      case Some(fid) =>
        IndexOfSameKeys(functions.entries, ViewsOf(functions.entries), fid);
    }

    /** `associate_function`: refused (nothing changes) when the object is
        not a function or its id is already stored; otherwise stored under
        its id, with the alias naming it. */
    method AssociateFunction(func: Function?, vnfId: string) returns (ok: bool)
      requires Valid()
      modifies this`functions, this`vnfIdMap
      ensures ok == (func != null && func.desc.kind == FunctionDoc && !old(functions).HasKey(func.desc.id))
      ensures !ok ==> functions == old(functions) && vnfIdMap == old(vnfIdMap)
      ensures ok ==> functions == old(functions).Put(func.desc.id, func) &&
                     vnfIdMap == old(vnfIdMap).Put(vnfId, func.desc.id)
      ensures func != null && func.desc.kind == FunctionDoc ==> View() == Associate(old(View()), func.View(), vnfId)
      ensures Valid()
    {
      if func == null || func.desc.kind != FunctionDoc {
        return false;
      }
      var fid := func.desc.id;
      ghost var s := View();
      IndexOfSameKeys(functions.entries, s.functions.entries, fid);
      if functions.HasKey(fid) {
        return false;
      }
      Store(func, vnfId);
      return true;
    }

    /** `associate_function` on a function object, stated on the
        dictionaries alone. */
    method AssociateObject(func: Function, vnfId: string) returns (ok: bool)
      requires Valid() && func.desc.kind == FunctionDoc
      modifies this`functions, this`vnfIdMap
      ensures ok == !old(functions).HasKey(func.desc.id)
      ensures !ok ==> functions == old(functions) && vnfIdMap == old(vnfIdMap)
      ensures ok ==> functions == old(functions).Put(func.desc.id, func) &&
                     vnfIdMap == old(vnfIdMap).Put(vnfId, func.desc.id)
      ensures Valid()
    {
      ok := AssociateFunction(func, vnfId);
    }

    /** The success path of `associate_function`. */
    method Store(func: Function, vnfId: string)
      requires Valid() && func.desc.kind == FunctionDoc && !functions.HasKey(func.desc.id)
      modifies this`functions, this`vnfIdMap
      ensures functions == old(functions).Put(func.desc.id, func)
      ensures vnfIdMap == old(vnfIdMap).Put(vnfId, func.desc.id)
      ensures View() == Associate(old(View()), func.View(), vnfId)
      ensures Valid()
    {
      var fid := func.desc.id;
      ghost var s := View();
      ghost var es := functions.entries;
      ghost var m := vnfIdMap;
      assert !s.functions.HasKey(fid) by {
        IndexOfSameKeys(es, s.functions.entries, fid);
      }
      assert s.Valid() by {
        ValidView();
      }
      assert functions.Put(fid, func).entries == es + [(fid, func)] by {
        PutShape(functions, fid, func);
      }
      functions := functions.Put(fid, func);
      vnfIdMap := vnfIdMap.Put(vnfId, fid);
      Associated(s, es, m, func, vnfId);
      AssociatedValid(s, func, vnfId);
    }

    /** Storing `func` under its id and naming it `alias` is the
        value-level association. */
    lemma Associated(s: ServiceState, es: seq<(string, Function)>, m: Dict<string, string>, func: Function, alias: string)
      requires s == ServiceState(desc.id, desc.View(), Dict(ViewsOf(es)), m)
      requires !Dict(es).HasKey(func.desc.id)
      requires functions.entries == es + [(func.desc.id, func)]
      requires vnfIdMap == m.Put(alias, func.desc.id)
      ensures View() == Associate(s, func.View(), alias)
    {
      ViewsOfSnoc(es, func.desc.id, func);
      IndexOfSameKeys(es, ViewsOf(es), func.desc.id);
    }

    /** The association keeps the invariant. */
    lemma AssociatedValid(s: ServiceState, func: Function, alias: string)
      requires s.Valid() && !s.functions.HasKey(func.desc.id)
      requires View() == Associate(s, func.View(), alias)
      requires desc.kind == ServiceDoc && func.desc.kind == FunctionDoc
      requires forall i | 0 <= i < |functions.entries| :: functions.entries[i].1.desc.kind == FunctionDoc
      ensures Valid()
    {
      AssociateSpec(s, func.View(), alias, alias);
      ViewValid();
    }

    /** `vnf_id(func)`: the first alias naming the function's id. */
    method VnfId(func: Function) returns (alias: Option<string>)
      ensures alias == ServiceQueries.VnfId(View(), func.desc.id)
    {
      var es := vnfIdMap.entries;
      var i := 0;
      while i < |es|
        invariant 0 <= i <= |es|
        invariant AliasOf(es[i..], func.desc.id) == AliasOf(es, func.desc.id)
      {
        assert es[i..][1..] == es[i + 1..];
        if es[i].1 == func.desc.id {
          return Some(es[i].0);
        }
        i := i + 1;
      }
      return None;
    }

    /** The points of one forwarding path into a position dictionary. */
    static method LoadPathPoints(s: ServiceState, cps: seq<FpCpDecl>, log: EventLog)
      returns (pathDict: Dict<int, string>, ok: bool)
      modifies log
      ensures var r := Run(FpCpStep(s), Empty(), cps);
        pathDict == r.state && ok == r.ok && log.events == old(log.events) + r.events
    {
      pathDict := Empty();
      ghost var ev0 := log.events;
      var k := 0;
      while k < |cps|
        invariant 0 <= k <= |cps|
        invariant Run(FpCpStep(s), Empty(), cps[..k]).ok
        invariant pathDict == Run(FpCpStep(s), Empty(), cps[..k]).state
        invariant log.events == ev0 + Run(FpCpStep(s), Empty(), cps[..k]).events
      {
        RunSnoc(FpCpStep(s), Empty(), cps, k);
        ghost var p := Run(FpCpStep(s), Empty(), cps[..k]);
        var cp := cps[k];
        if !ServiceRefResolved(s, cp.ref) {
          log.Log(s.id, FwgraphCpointUndefined);
          AppendAssoc(ev0, p.events, [Event(s.id, FwgraphCpointUndefined)]);
          RunStops(FpCpStep(s), Empty(), cps, k + 1);
          return pathDict, false;
        }
        if pathDict.HasKey(cp.position) {
          log.Log(s.id, FwgraphPositionDuplicate);
          AppendAssoc(ev0, p.events, [Event(s.id, FwgraphPositionDuplicate)]);
        } else {
          assert p.events + [] == p.events;
        }
        pathDict := pathDict.Put(cp.position, cp.ref);
        k := k + 1;
      }
      assert cps[..|cps|] == cps;
      return pathDict, true;
    }

    /** The paths of one forwarding graph, each ordered by position. */
    static method LoadPaths(s: ServiceState, fps: seq<FpDecl>, log: EventLog)
      returns (paths: seq<FwPath>, ok: bool)
      modifies log
      ensures var r := Run(PathStep(s), [], fps);
        paths == r.state && ok == r.ok && log.events == old(log.events) + r.events
    {
      paths := [];
      ghost var ev0 := log.events;
      var j := 0;
      while j < |fps|
        invariant 0 <= j <= |fps|
        invariant Run(PathStep(s), [], fps[..j]).ok
        invariant paths == Run(PathStep(s), [], fps[..j]).state
        invariant log.events == ev0 + Run(PathStep(s), [], fps[..j]).events
      {
        RunSnoc(PathStep(s), [], fps, j);
        ghost var p := Run(PathStep(s), [], fps[..j]);
        ghost var mid := log.events;
        var pathDict, pointsOk := LoadPathPoints(s, fps[j].cps, log);
        AppendAssoc(ev0, p.events, Run(FpCpStep(s), Empty(), fps[j].cps).events);
        if !pointsOk {
          RunStops(PathStep(s), [], fps, j + 1);
          return paths, false;
        }
        paths := paths + [FwPath(fps[j].fpId, Ordered(pathDict))];
        j := j + 1;
      }
      assert fps[..|fps|] == fps;
      return paths, true;
    }

    /** The forwarding graphs of a declared section, appended to `g0`. */
    static method LoadGraphs(s: ServiceState, g0: seq<FwGraph>, fgs: seq<FgDecl>, log: EventLog)
      returns (graphs: seq<FwGraph>, ok: bool)
      modifies log
      ensures var r := ForwardingGraphs.LoadForwardingGraphs(s, g0, fgs);
        graphs == r.state && ok == r.ok && log.events == old(log.events) + r.events
    {
      graphs := g0;
      ghost var ev0 := log.events;
      var i := 0;
      while i < |fgs|
        invariant 0 <= i <= |fgs|
        invariant Run(GraphStep(s), g0, fgs[..i]).ok
        invariant graphs == Run(GraphStep(s), g0, fgs[..i]).state
        invariant log.events == ev0 + Run(GraphStep(s), g0, fgs[..i]).events
      {
        RunSnoc(GraphStep(s), g0, fgs, i);
        ghost var p := Run(GraphStep(s), g0, fgs[..i]);
        var paths, pathsOk := LoadPaths(s, fgs[i].paths, log);
        AppendAssoc(ev0, p.events, Run(PathStep(s), [], fgs[i].paths).events);
        if !pathsOk {
          RunStops(GraphStep(s), g0, fgs, i + 1);
          return graphs, false;
        }
        graphs := graphs + [FwGraph(fgs[i].fgId, paths)];
        i := i + 1;
      }
      assert fgs[..|fgs|] == fgs;
      return graphs, true;
    }

    /** `load_forwarding_graphs`: a graph is appended only once all of its
        paths loaded; the first unresolved reference ends the loading. */
    method LoadForwardingGraphs(log: EventLog) returns (ok: bool)
      requires desc.content.Some? && desc.content.value.forwardingGraphs.Some?
      modifies this`fwGraphs, log
      ensures var r := ForwardingGraphs.LoadForwardingGraphs(old(View()), old(fwGraphs), desc.content.value.forwardingGraphs.value);
        fwGraphs == r.state && ok == r.ok && log.events == old(log.events) + r.events
    {
      var graphs;
      graphs, ok := LoadGraphs(View(), fwGraphs, desc.content.value.forwardingGraphs.value, log);
      fwGraphs := graphs;
    }

    /** `build_topology_graph(level=1, bridges)`: the graph of the service
        whose nodes are the functions' inner units and interfaces. */
    method BuildTopologyGraph(bridges: bool) returns (g: Graph)
      ensures g == ServiceGraph(old(View()), bridges)
    {
      g := BuildServiceGraph(View(), bridges);
    }
  }
}
