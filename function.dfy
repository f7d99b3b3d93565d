/**
 * storage.py `Function`: a function descriptor together with the units it
 * associates.  The descriptor part is the shared `Descriptor` object; the
 * unit dictionary is the state the unit loaders fill in place.  A unit is
 * stored as a value, so a change to a unit is a new value put back under
 * its id.
 */
module Functions {
  import opened Wrappers
  import opened Dicts
  import opened Events
  import opened Content
  import opened Folds
  import opened Links
  import opened Descriptors
  import opened Units
  import opened FunctionQueries
  import opened Refs
  import opened Graphs
  import opened FunctionGraphs

  class Function {
    const desc: Descriptor
    var units: Dict<string, Unit>

    function View(): FunctionState
      reads this, desc
    {
      FunctionState(desc.id, desc.View(), units)
    }

    ghost predicate Valid()
      reads this, desc
    {
      View().Valid()
    }

    /** A function whose objects did not change has the same value. */
    twostate lemma ViewKept()
      requires unchanged(this, desc)
      ensures View() == old(View())
    {
    }

    constructor(desc: Descriptor)
      requires desc.kind == FunctionDoc
      ensures this.desc == desc && units == Empty()
      ensures desc.Valid() ==> Valid()
    {
      this.desc := desc;
      units := Empty();
    }

    /** `Function.associate_unit`, with a duplicate rejected as intended. */
    method AssociateUnit(u: Unit) returns (ok: bool)
      modifies this
      ensures var r := Units.AssociateUnit(old(units), u); units == r.state && ok == r.ok
    {
      if units.HasKey(u.id) {
        return false;
      }
      units := units.Put(u.id, u);
      return true;
    }

    /** `Function.load_units`. */
    method LoadUnits() returns (ok: bool)
      requires desc.content.Some?
      modifies this
      ensures var r := Units.LoadUnits(old(units), desc.content.value); units == r.state && ok == r.ok
    {
      var c := desc.content.value;
      if c.vdus.Some? {
        var decls := c.vdus.value;
        ghost var u0 := units;
        for i := 0 to |decls|
          invariant Run(UnitStep(VDU), u0, decls[..i]).ok
          invariant units == Run(UnitStep(VDU), u0, decls[..i]).state
        {
          RunSnoc(UnitStep(VDU), u0, decls, i);
          var _ := AssociateUnit(NewUnit(decls[i].id, VDU));
        }
        assert decls[..|decls|] == decls;
        return true;
      } else if c.cdus.Some? {
        var decls := c.cdus.value;
        ghost var u0 := units;
        for i := 0 to |decls|
          invariant Run(UnitStep(CDU), u0, decls[..i]).ok
          invariant units == Run(UnitStep(CDU), u0, decls[..i]).state
        {
          RunSnoc(UnitStep(CDU), u0, decls, i);
          var u := NewUnit(decls[i].id, CDU);
          ghost var before := units;
          var added := AssociateUnit(u);
          if added && decls[i].parameters.Some? {
            PutPut(before, u.id, u, WithParams(u, decls[i].parameters));
            units := units.Put(u.id, WithParams(u, decls[i].parameters));
          }
        }
        assert decls[..|decls|] == decls;
        return true;
      }
      return false;
    }

    /** The connection points of one unit entry, added to unit `u`. */
    static method AddUnitConnectionPoints(u: Unit, decls: seq<CpDecl>, withPorts: bool, log: EventLog)
      returns (w: Unit)
      modifies log
      ensures w == AddUnitCps(u, decls, withPorts).0
      ensures log.events == old(log.events) + AddUnitCps(u, decls, withPorts).1
    {
      w := u;
      ghost var ev0 := log.events;
      for k := 0 to |decls|
        invariant w == AddUnitCps(u, decls[..k], withPorts).0
        invariant log.events == ev0 + AddUnitCps(u, decls[..k], withPorts).1
      {
        assert decls[..k + 1][..k] == decls[..k];
        var d := decls[k];
        var a := Links.AddConnectionPoint(w.id, w.cps, d.id);
        log.LogAll(a.events);
        w := w.(cps := a.state);
        if withPorts && d.port.Some? {
          w := w.AddPort(d.id, d.port.value);
        }
      }
      assert decls[..|decls|] == decls;
    }

    /** One entry of a units section: the unit must be associated and the
        entry must list connection points. */
    method LoadOneUnitCps(d: UnitDecl, withPorts: bool, log: EventLog) returns (ok: bool)
      modifies this, log
      ensures var q := UnitCpsEntry(withPorts, old(units), d);
        units == q.state && ok == q.ok && log.events == old(log.events) + q.events
    {
      UnitCpsStepCases(withPorts, units, d);
      var found := units.Get(d.id);
      if found.None? {
        return false;
      }
      if d.connectionPoints.None? || (withPorts && |d.connectionPoints.value| == 0) {
        return false;
      }
      var w := AddUnitConnectionPoints(found.value, d.connectionPoints.value, withPorts, log);
      units := units.Put(d.id, w);
      return true;
    }

    /** Entry `i` of the loop, after the entries before it were accepted. */
    method LoadUnitCpsAt(decls: seq<UnitDecl>, i: nat, withPorts: bool, log: EventLog,
                         ghost u0: Dict<string, Unit>, ghost ev0: seq<Event>) returns (accepted: bool)
      requires i < |decls|
      requires var r := Run(UnitCpsStep(withPorts), u0, decls[..i]);
        r.ok && units == r.state && log.events == ev0 + r.events
      modifies this, log
      ensures var r := Run(UnitCpsStep(withPorts), u0, decls[..i + 1]);
        units == r.state && accepted == r.ok && log.events == ev0 + r.events
    {
      ghost var pre := Run(UnitCpsStep(withPorts), u0, decls[..i]);
      ghost var q := UnitCpsEntry(withPorts, pre.state, decls[i]);
      RunSnoc(UnitCpsStep(withPorts), u0, decls, i);
      accepted := LoadOneUnitCps(decls[i], withPorts, log);
      AppendAssoc(ev0, pre.events, q.events);
    }

    method LoadUnitCpsOf(decls: seq<UnitDecl>, withPorts: bool, log: EventLog) returns (ok: bool)
      modifies this, log
      ensures var r := Run(UnitCpsStep(withPorts), old(units), decls);
        units == r.state && ok == r.ok && log.events == old(log.events) + r.events
    {
      ghost var u0 := units;
      ghost var ev0 := log.events;
      var i := 0;
      while i < |decls|
        invariant 0 <= i <= |decls|
        invariant Run(UnitCpsStep(withPorts), u0, decls[..i]).ok
        invariant units == Run(UnitCpsStep(withPorts), u0, decls[..i]).state
        invariant log.events == ev0 + Run(UnitCpsStep(withPorts), u0, decls[..i]).events
      {
        var accepted := LoadUnitCpsAt(decls, i, withPorts, log, u0, ev0);
        if !accepted {
          RunStops(UnitCpsStep(withPorts), u0, decls, i + 1);
          return false;
        }
        i := i + 1;
      }
      assert decls[..i] == decls;
      return true;
    }

    /** `Function.load_unit_connection_points`. */
    method LoadUnitConnectionPoints(log: EventLog) returns (ok: bool)
      requires desc.content.Some?
      modifies this, log
      ensures var r := LoadUnitCps(old(units), desc.content.value);
        units == r.state && ok == r.ok && log.events == old(log.events) + r.events
    {
      var c := desc.content.value;
      if c.vdus.Some? {
        ok := LoadUnitCpsOf(c.vdus.value, false, log);
      } else if c.cdus.Some? {
        ok := LoadUnitCpsOf(c.cdus.value, true, log);
      } else {
        ok := false;
      }
    }
 
    /** `Function.build_topology_graph` at level 0 or 1. */
    method BuildTopologyGraph(bridges: bool, level: nat, inner: bool) returns (g: Graph)
      requires level <= 1
      ensures g == FunctionGraph(View(), bridges, level, inner)
    {
      g := BuildGraph(View(), bridges, level, inner);
    }

    /** The builder on the function's current state. */
    static method BuildGraph(f: FunctionState, bridges: bool, level: nat, inner: bool) returns (g: Graph)
      ensures g == FunctionGraph(f, bridges, level, inner)
    {
      var refs := VlinkCpRefs(f.d);
      if bridges {
        refs := refs + VbridgeCpRefs(f.d);
      }
      g := AddRefNodes(EmptyGraph(), refs);
      g := AddLinkEdges(g, f.d, level);
      if inner && level == 1 {
        g := AddInnerEdges(g, f, bridges);
      }
      if bridges {
        g := AddBridgeEdges(g, f.d, level);
      }
      FunctionGraphSteps(f, bridges, level, inner);
    }

    /** Every reference becomes a node. */
    static method AddRefNodes(g0: Graph, refs: seq<string>) returns (g: Graph)
      ensures g == Apply(g0, NodeOps(refs))
    {
      g := g0;
      ghost var ops := NodeOps(refs);
      for k := 0 to |refs|
        invariant g == Apply(g0, ops[..k])
      {
        ApplyPrefix(g0, ops, k);
        g := g.AddNode(refs[k]);
      }
      assert ops[..|refs|] == ops;
    }

    /** Each link joins its endpoints, drawn as units at level 0. */
    static method AddLinkEdges(g0: Graph, d: DescState, level: nat) returns (g: Graph)
      ensures g == Apply(g0, LinkOps(d, level))
    {
      g := g0;
      var links := d.vlinks.entries;
      ghost var ops := LinkOps(d, level);
      for i := 0 to |links|
        invariant g == Apply(g0, ops[..i])
      {
        var u := LinkEndpoint(d, level, links[i].1.cprU);
        var v := LinkEndpoint(d, level, links[i].1.cprV);
        ApplyPrefix(g0, ops, i);
        g := g.AddEdge(u, v);
      }
      assert ops[..|links|] == ops;
    }

    /** Where the builder draws a link endpoint. */
    static method LinkEndpoint(d: DescState, level: nat, r: string) returns (e: string)
      ensures e == LinkEnd(d, level, r)
    {
      e := r;
      if level == 0 {
        var sr := Split(r);
        SplitHasColon(r);
        if r !in d.cps && |sr| > 1 {
          e := sr[0];
        }
      }
    }

    /** Where the builder draws a bridge reference. */
    static method BridgeEndpoint(level: nat, r: string) returns (e: string)
      ensures e == BridgeEnd(level, r)
    {
      var sr := Split(r);
      SplitHasColon(r);
      e := if level == 0 && |sr| > 1 then sr[0] else r;
    }

    /** The names the connection points of unit `uid` are joined under. */
    static method JoinNames(uid: string, cps: seq<string>) returns (join: seq<string>)
      ensures join == JoinCps(uid, cps)
    {
      join := [];
      for k := 0 to |cps|
        invariant join == JoinCps(uid, cps[..k])
      {
        assert cps[..k + 1][..k] == cps[..k];
        var sCp := Split(cps[k]);
        SplitHasColon(cps[k]);
        if |sCp| > 1 {
          join := join + [cps[k]];
        } else {
          join := join + [uid + ":" + cps[k]];
        }
      }
      assert cps[..|cps|] == cps;
    }

    /** The loop over `v_cp` for one `u_cp = join[x]`: equal names, edges
        already present and (without bridges) bridge references are skipped. */
    static method AddRow(g0: Graph, d: DescState, bridges: bool, join: seq<string>, x: nat) returns (g: Graph)
      requires g0.Valid() && x < |join|
      ensures g == Apply(g0, RowOps(d, bridges, join, x, |join|))
    {
      g := g0;
      var vbr := VbridgeCpRefs(d);
      for y := 0 to |join|
        invariant g == Apply(g0, RowOps(d, bridges, join, x, y))
      {
        RowStep(g0, d, bridges, join, x, y);
        var a := join[x];
        var b := join[y];
        if a == b {
        } else if g.HasEdge(a, b) {
          AddEdgePresent(g, a, b);
        } else if !bridges && (a in vbr || b in vbr) {
        } else {
          g := g.AddEdge(a, b);
        }
      }
    }

    /** The inner edges of one unit, `join` being its joined names. */
    static method AddJoins(g0: Graph, d: DescState, bridges: bool, join: seq<string>) returns (g: Graph)
      requires g0.Valid()
      ensures g == Apply(g0, JoinOps(d, bridges, join, |join|))
    {
      g := g0;
      for x := 0 to |join|
        invariant g == Apply(g0, JoinOps(d, bridges, join, x))
      {
        JoinStep(g0, d, bridges, join, x);
        g := AddRow(g, d, bridges, join, x);
      }
    }

    /** The connection points of each unit are joined to each other. */
    static method AddInnerEdges(g0: Graph, f: FunctionState, bridges: bool) returns (g: Graph)
      requires g0.Valid()
      ensures g == Apply(g0, InnerOps(f, bridges, |f.units.entries|))
    {
      g := g0;
      var us := f.units.entries;
      for i := 0 to |us|
        invariant g == Apply(g0, InnerOps(f, bridges, i))
      {
        InnerStep(g0, f, bridges, i);
        var join := JoinNames(us[i].0, us[i].1.cps);
        g := AddJoins(g, f.d, bridges, join);
      }
    }

    /** One bridge: its hub, then an edge to each reference. */
    static method AddBridge(g0: Graph, level: nat, id: string, brefs: seq<string>) returns (g: Graph)
      ensures g == Apply(g0, HubOps(Hub(id), level, brefs))
    {
      var hub := "br-" + id;
      g := g0.AddNode(hub);
      assert HubOps(hub, level, brefs[..0]) == [AddN(hub)];
      for m := 0 to |brefs|
        invariant g == Apply(g0, HubOps(hub, level, brefs[..m]))
      {
        var end := BridgeEndpoint(level, brefs[m]);
        HubStep(g0, hub, level, brefs, m);
        g := g.AddEdge(hub, end);
      }
      assert brefs[..|brefs|] == brefs;
    }

    /** Each bridge gets a hub joined to every reference. */
    static method AddBridgeEdges(g0: Graph, d: DescState, level: nat) returns (g: Graph)
      ensures g == Apply(g0, BridgeOps(d, level, |d.vbridges.entries|))
    {
      g := g0;
      var bs := d.vbridges.entries;
      for i := 0 to |bs|
        invariant g == Apply(g0, BridgeOps(d, level, i))
      {
        BridgeStep(g0, d, level, i);
        g := AddBridge(g, level, bs[i].0, bs[i].1.refs);
      }
    }
  }
}
