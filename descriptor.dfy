/**
 * storage.py `Descriptor` (with the `Node` it extends): the object whose
 * connection points, links and bridges the loaders fill in place.  Services
 * and functions embed one; `kind` records which, standing for the Python
 * subclass.
 */
module Descriptors {
  import opened Wrappers
  import opened Refs
  import opened Dicts
  import opened Events
  import opened Content
  import opened Folds
  import opened Links

  datatype DocKind = ServiceDoc | FunctionDoc | PackageDoc

  class Descriptor {
    const kind: DocKind
    /** `descriptor_id(content)`; the empty string stands for `None`. */
    const id: string
    /** `None` when the file could not be read or was empty. */
    const content: Option<Content>
    var connectionPoints: seq<string>
    var vlinks: Dict<string, VLink>
    var vbridges: Dict<string, VBridge>

    function View(): DescState
      reads this
    {
      DescState(connectionPoints, vlinks, vbridges)
    }

    ghost predicate Valid()
      reads this
    {
      View().Valid()
    }

    constructor(kind: DocKind, id: string, content: Option<Content>)
      ensures this.kind == kind && this.id == id && this.content == content
      ensures View() == EmptyState() && Valid()
    {
      this.kind := kind;
      this.id := id;
      this.content := content;
      connectionPoints := [];
      vlinks := Empty();
      vbridges := Empty();
    }

    /** `Node.add_connection_point`. */
    method AddConnectionPoint(cp: string, log: EventLog) returns (ok: bool)
      modifies this, log
      ensures var r := Links.AddConnectionPoint(id, old(connectionPoints), cp);
        connectionPoints == r.state && ok == r.ok && log.events == old(log.events) + r.events
      ensures vlinks == old(vlinks) && vbridges == old(vbridges)
    {
      if cp in connectionPoints {
        log.Log(id, DuplicateCpoint);
        return false;
      }
      var sCp := Split(cp);
      if |sCp| != 1 {
        log.Log(id, InvalidCpoint);
        return false;
      }
      connectionPoints := connectionPoints + [cp];
      return true;
    }

    /** The format check both link kinds make on their references: stops at
        the first reference with more than one separator. */
    static method RefsWellFormed(refs: seq<string>) returns (ok: bool)
      ensures ok == AllWellFormed(refs)
    {
      var i := 0;
      while i < |refs|
        invariant 0 <= i <= |refs|
        invariant forall j | 0 <= j < i :: WellFormedRef(refs[j])
      {
        if |Split(refs[i])| > 2 {
          return false;
        }
        i := i + 1;
      }
      return true;
    }

    /** `Descriptor.add_vlink`. */
    method AddVLink(vlId: string, refs: seq<string>, log: EventLog) returns (ok: bool)
      modifies this, log
      ensures var r := Links.AddVLink(old(View()), id, vlId, refs);
        View() == r.state && ok == r.ok && log.events == old(log.events) + r.events
    {
      if |refs| != 2 {
        log.Log(id, InvalidVlink);
        return false;
      }
      if vlinks.HasKey(vlId) || vbridges.HasKey(vlId) {
        log.Log(id, DuplicateVlink);
        return false;
      }
      ok := RefsWellFormed(refs);
      if !ok {
        log.Log(id, InvalidCpointRef);
        return;
      }
      vlinks := vlinks.Put(vlId, VLink(vlId, refs[0], refs[1]));
    }

    /** `Descriptor.add_vbridge`. */
    method AddVBridge(vbId: string, refs: seq<string>, log: EventLog) returns (ok: bool)
      modifies this, log
      ensures var r := Links.AddVBridge(old(View()), id, vbId, refs);
        View() == r.state && ok == r.ok && log.events == old(log.events) + r.events
    {
      if |refs| < 1 {
        log.Log(id, InvalidVlink);
        return false;
      }
      if vlinks.HasKey(vbId) || vbridges.HasKey(vbId) {
        log.Log(id, DuplicateVlink);
        return false;
      }
      ok := RefsWellFormed(refs);
      if !ok {
        log.Log(id, InvalidCpointRef);
        return;
      }
      vbridges := vbridges.Put(vbId, VBridge(vbId, refs));
    }

    /** `Descriptor.load_connection_points`: fails without the section. */
    method LoadConnectionPoints(log: EventLog) returns (ok: bool)
      requires content.Some?
      modifies this, log
      ensures content.value.connectionPoints.None? ==>
        !ok && View() == old(View()) && log.events == old(log.events)
      ensures content.value.connectionPoints.Some? ==>
        var r := LoadCps(id, old(connectionPoints), content.value.connectionPoints.value);
        ok == r.ok && connectionPoints == r.state && log.events == old(log.events) + r.events
      ensures vlinks == old(vlinks) && vbridges == old(vbridges)
    {
      if content.value.connectionPoints.None? {
        return false;
      }
      var decls := content.value.connectionPoints.value;
      ghost var cps0 := connectionPoints;
      ghost var ev0 := log.events;
      var i := 0;
      while i < |decls|
        invariant 0 <= i <= |decls|
        invariant Run(CpStep(id), cps0, decls[..i]).ok
        invariant connectionPoints == Run(CpStep(id), cps0, decls[..i]).state
        invariant log.events == ev0 + Run(CpStep(id), cps0, decls[..i]).events
        invariant vlinks == old(vlinks) && vbridges == old(vbridges)
      {
        RunSnoc(CpStep(id), cps0, decls, i);
        var added := AddConnectionPoint(decls[i].id, log);
        if !added {
          RunStops(CpStep(id), cps0, decls, i + 1);
          return false;
        }
        i := i + 1;
      }
      assert decls[..i] == decls;
      return true;
    }

    /** One entry of `virtual_links`, as the loop of
        `Descriptor.load_virtual_links` takes it: an entry without id is refused;
        the connectivity type, in lower case, picks a link or a bridge. */
    method LoadVirtualLink(vl: VlDecl, log: EventLog) returns (accepted: bool)
      modifies this, log
      ensures var q := LinkEntry(old(View()), id, vl);
        View() == q.state && accepted == q.ok && log.events == old(log.events) + q.events
    {
      accepted := true;
      if vl.id == "" {
        log.Log(id, InvalidVlink);
        accepted := false;
      } else {
        var vlType := Lower(vl.connectivityType);
        if vlType == "e-line" {
          accepted := AddVLink(vl.id, vl.refs, log);
        }
        if vlType == "e-lan" {
          accepted := AddVBridge(vl.id, vl.refs, log);
        }
        if vlType == "e-tree" {
          accepted := AddVBridge(vl.id, vl.refs, log);
        }
      }
    }

    method LoadVirtualLinks(log: EventLog) returns (ok: bool)
      requires content.Some?
      modifies this, log
      ensures content.value.virtualLinks.None? ==>
        !ok && View() == old(View()) && log.events == old(log.events)
      ensures content.value.virtualLinks.Some? ==>
        var r := LoadLinks(old(View()), id, content.value.virtualLinks.value);
        ok == r.ok && View() == r.state && log.events == old(log.events) + r.events
    {
      if content.value.virtualLinks.None? {
        return false;
      }
      var vls := content.value.virtualLinks.value;
      ghost var st0 := View();
      ghost var ev0 := log.events;
      var i := 0;
      while i < |vls|
        invariant 0 <= i <= |vls|
        invariant Run(LinkStep(id), st0, vls[..i]).ok
        invariant View() == Run(LinkStep(id), st0, vls[..i]).state
        invariant log.events == ev0 + Run(LinkStep(id), st0, vls[..i]).events
      {
        ghost var pre := Run(LinkStep(id), st0, vls[..i]);
        ghost var q := LinkEntry(pre.state, id, vls[i]);
        RunSnoc(LinkStep(id), st0, vls, i);
        var accepted := LoadVirtualLink(vls[i], log);
        AppendAssoc(ev0, pre.events, q.events);
        if !accepted {
          RunStops(LinkStep(id), st0, vls, i + 1);
          return false;
        }
        i := i + 1;
      }
      assert vls[..i] == vls;
      return true;
    }
  }
}
