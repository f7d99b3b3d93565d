/**
 * The loops of validator.py's `_validate_service_integrity` that read the
 * service's loaded references, on a snapshot of the service, each proved
 * against the function in `ServiceStages` that states it.
 */
module IntegrityStage {
  import opened Wrappers
  import opened Events
  import opened Links
  import opened ServiceQueries
  import opened FunctionStages
  import opened ServiceStages

  /** The loop over the references of every link: the first one that names
      neither a service connection point nor a connection point of the
      function its alias maps to. */
  method FindUnresolved(s: ServiceState, refs: seq<string>) returns (r: Option<string>)
    ensures r == FirstUnresolved(s, refs)
  {
    var i := 0;
    while i < |refs|
      invariant 0 <= i <= |refs|
      invariant FirstUnresolved(s, refs[i..]) == FirstUnresolved(s, refs)
    {
      if !ServiceRefResolved(s, refs[i]) {
        return Some(refs[i]);
      }
      assert refs[i..][1..] == refs[i + 1..];
      i := i + 1;
    }
    return None;
  }

  /** Undeclared references fail, one event each; unused connection points
      are reported, one event each; an unresolved link reference fails. */
  method RefChecksOf(s: ServiceState, log: EventLog) returns (ok: bool)
    modifies log
    ensures var k := RefChecks(s); ok == k.ok && log.events == old(log.events) + k.events
  {
    var undeclared := ServiceUndeclared(s);
    if undeclared != [] {
      log.LogEach(undeclared, s.id, NsdItgUndeclaredCpoint);
      return false;
    }
    log.LogEach(UnusedConnectionPoints(s.d), s.id, NsdItgUnusedCpoint);
    var x := FindUnresolved(s, VlinkCpRefs(s.d));
    if x.Some? {
      log.Log(s.id, NsdItgUndefinedCpoint);
      return false;
    }
    return true;
  }
}
