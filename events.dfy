/**
 * The diagnostic sink.  Every `evtlog.log(title, detail, source_id, code)`
 * call of the core appends one event; the model keeps the source id and the
 * machine-readable event code and drops the free-text title and detail.
 */
module Events {

  datatype Event = Event(source: string, code: Code)

  /** The event codes the core raises, each named after its string
      (`Name`). */
  datatype Code =
    // Codes raised while loading descriptors.
    | DuplicateCpoint
    | InvalidCpoint
    | InvalidVlink
    | DuplicateVlink
    | InvalidCpointRef
    | FwgraphCpointUndefined
    | FwgraphPositionDuplicate
    // Codes raised by service validation.
    | ServiceInvalidDescriptor
    | NsdStxInvalid
    | NsdItgFunctionUnavailable
    | NsdItgFunctionInvalid
    | NsdItgBadsectionCpoints
    | NsdItgBadsectionVlinks
    | NsdItgUndeclaredCpoint
    | NsdItgUnusedCpoint
    | NsdItgUndefinedCpoint
    | NsdTopIsolatedVnfd
    | NsdTopLoopsInVnfd
    | NsdTopUnnusedCpsVnfd
    | NsdTopTopgraphFailed
    | NsdTopDisconnected
    | NsdTopFwgraphUnavailable
    | NsdTopBadsectionFwgraph
    | NsdTopCpointsOdd
    | NsdTopFwpathInvalid
    | NsdTopFwpathInsideVnf
    | NsdTopFwpathDisrupted
    | NsdTopFwgraphCycles
    // Codes raised by function validation.
    | FunctionInvalidDescriptor
    | VnfdStxInvalid
    | VnfdItgBadsectionCpoints
    | VnfdItgBadsectionVdus
    | VnfdItgVduBadsectionCpoints
    | VnfdItgBadsectionVlinks
    | VnfdItgUndeclaredCpoint
    | VnfdItgUnusedCpoint
    | VnfdItgUndefinedCpoint
    | VnfdItgDuplicatedPorts
    | VnfdTopIsolatedUnits
    | VnfdTopUnnusedCpsUnit
    | VnfdTopLoops
    | VnfdTopTopgraphFailed

  /** The string each code is logged under. */
  function Name(c: Code): string {
    match c
    case DuplicateCpoint => "evt_duplicate_cpoint"
    case InvalidCpoint => "evt_invalid_cpoint"
    case InvalidVlink => "evt_invalid_vlink"
    case DuplicateVlink => "evt_duplicate_vlink"
    case InvalidCpointRef => "evt_invalid_cpoint_ref"
    case FwgraphCpointUndefined => "evt_nsd_top_fwgraph_cpoint_undefined"
    case FwgraphPositionDuplicate => "evt_nsd_top_fwgraph_position_duplicate"
    case ServiceInvalidDescriptor => "evt_service_invalid_descriptor"
    case NsdStxInvalid => "evt_nsd_stx_invalid"
    case NsdItgFunctionUnavailable => "evt_nsd_itg_function_unavailable"
    case NsdItgFunctionInvalid => "evt_nsd_itg_function_invalid"
    case NsdItgBadsectionCpoints => "evt_nsd_itg_badsection_cpoints"
    case NsdItgBadsectionVlinks => "evt_nsd_itg_badsection_vlinks"
    case NsdItgUndeclaredCpoint => "evt_nsd_itg_undeclared_cpoint"
    case NsdItgUnusedCpoint => "evt_nsd_itg_unused_cpoint"
    case NsdItgUndefinedCpoint => "evt_nsd_itg_undefined_cpoint"
    case NsdTopIsolatedVnfd => "evt_nsd_top_topgraph_isolated_vnfd"
    case NsdTopLoopsInVnfd => "evt_nsd_top_topgraph_loops_in_vnfd"
    case NsdTopUnnusedCpsVnfd => "evt_nsd_top_topgraph_unnused_cps_vnfd"
    case NsdTopTopgraphFailed => "evt_nsd_top_topgraph_failed"
    case NsdTopDisconnected => "evt_nsd_top_topgraph_disconnected"
    case NsdTopFwgraphUnavailable => "evt_nsd_top_fwgraph_unavailable"
    case NsdTopBadsectionFwgraph => "evt_nsd_top_badsection_fwgraph"
    case NsdTopCpointsOdd => "evt_nsd_top_fwgraph_cpoints_odd"
    case NsdTopFwpathInvalid => "evt_nsd_top_fwpath_invalid"
    case NsdTopFwpathInsideVnf => "evt_nsd_top_fwpath_inside_vnf"
    case NsdTopFwpathDisrupted => "evt_nsd_top_fwpath_disrupted"
    case NsdTopFwgraphCycles => "evt_nsd_top_fwgraph_cycles"
    case FunctionInvalidDescriptor => "evt_function_invalid_descriptor"
    case VnfdStxInvalid => "evt_vnfd_stx_invalid"
    case VnfdItgBadsectionCpoints => "evt_vnfd_itg_badsection_cpoints"
    case VnfdItgBadsectionVdus => "evt_vnfd_itg_badsection_vdus"
    case VnfdItgVduBadsectionCpoints => "evt_vnfd_itg_vdu_badsection_cpoints"
    case VnfdItgBadsectionVlinks => "evt_vnfd_itg_badsection_vlinks"
    case VnfdItgUndeclaredCpoint => "evt_vnfd_itg_undeclared_cpoint"
    case VnfdItgUnusedCpoint => "evt_vnfd_itg_unused_cpoint"
    case VnfdItgUndefinedCpoint => "evt_vnfd_itg_undefined_cpoint"
    case VnfdItgDuplicatedPorts => "evt_vnfd_itg_duplicated_ports_in_CDUs"
    case VnfdTopIsolatedUnits => "evt_vnfd_top_isolated_units"
    case VnfdTopUnnusedCpsUnit => "evt_vnfd_top_unnused_cps_unit"
    case VnfdTopLoops => "evt_vnfd_top_loops"
    case VnfdTopTopgraphFailed => "evt_vnfd_top_topgraph_failed"
  }

  /** One event per item of `items`, all with the same source and code, as
      the loops that report every undeclared or unused connection point do. */
  function Repeat<T>(items: seq<T>, source: string, code: Code): (es: seq<Event>)
    ensures |es| == |items|
    ensures forall i | 0 <= i < |es| :: es[i] == Event(source, code)
  {
    seq(|items|, _ => Event(source, code))
  }

  /** The process-wide event logger, in the order events were raised. */
  class EventLog {
    var events: seq<Event>

    constructor()
      ensures events == []
    {
      events := [];
    }

    method Log(source: string, code: Code)
      modifies this
      ensures events == old(events) + [Event(source, code)]
    {
      events := events + [Event(source, code)];
    }

    /** `if cond: evtLOG.log(...)`. */
    method LogIf(cond: bool, source: string, code: Code)
      modifies this
      ensures events == old(events) + (if cond then [Event(source, code)] else [])
    {
      if cond {
        events := events + [Event(source, code)];
      }
    }

    /** The source's `for x in items: evtLOG.log(...)`: one event per item,
        all with the same source and code. */
    method LogEach<T>(items: seq<T>, source: string, code: Code)
      modifies this
      ensures events == old(events) + Repeat(items, source, code)
    {
      var i := 0;
      while i < |items|
        invariant 0 <= i <= |items|
        invariant events == old(events) + Repeat(items[..i], source, code)
      {
        assert Repeat(items[..i + 1], source, code) == Repeat(items[..i], source, code) + [Event(source, code)];
        Log(source, code);
        i := i + 1;
      }
      assert items[..i] == items;
    }

    /** Appends events an operation's specification computed, in order. */
    method LogAll(es: seq<Event>)
      modifies this
      ensures events == old(events) + es
    {
      events := events + es;
    }
  }
}
