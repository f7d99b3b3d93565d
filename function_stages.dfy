/**
 * validator.py's stages for one function descriptor, as functions of the
 * function's loaded state: `_validate_function_integrity` loads the
 * descriptor's sections and checks the references and ports,
 * `_validate_function_topology` looks for loops and builds the topology
 * graph, and `validate_function` runs the enabled stages in order.  The
 * schema check is an outside verdict `schemaOk`.
 */
module FunctionStages {
  import opened Wrappers
  import opened Dicts
  import opened Events
  import opened Content
  import opened Folds
  import opened Links
  import opened Units
  import opened Descriptors
  import opened FunctionQueries
  import opened Graphs
  import opened FunctionGraphs
  import opened Configs

  /** What a checking stage that changes nothing yields: passed or not,
      and the events it logged. */
  datatype Report = Report(ok: bool, events: seq<Event>)

  // ------------------------------------------------ descriptor loaders

  /** `Descriptor.load_connection_points`: fails, silently and changing
      nothing, when the section is absent. */
  function LoadedCps(source: string, d: DescState, c: Content): (r: Step<DescState>)
    ensures r.state.vlinks == d.vlinks && r.state.vbridges == d.vbridges
    ensures c.connectionPoints.None? ==> r == Step(d, false, [])
  {
    if c.connectionPoints.None? then Step(d, false, [])
    else
      var l := LoadCps(source, d.cps, c.connectionPoints.value);
      Step(d.(cps := l.state), l.ok, l.events)
  }

  /** `Descriptor.load_virtual_links`: fails, silently and changing
      nothing, when the section is absent. */
  function LoadedLinks(source: string, d: DescState, c: Content): (r: Step<DescState>)
    ensures c.virtualLinks.None? ==> r == Step(d, false, [])
  {
    if c.virtualLinks.None? then Step(d, false, [])
    else LoadLinks(d, source, c.virtualLinks.value)
  }

  /** Loading either section keeps a valid descriptor state valid, whether
      the load succeeds or not. */
  lemma LoadedValid(source: string, d: DescState, c: Content)
    requires d.Valid()
    ensures LoadedCps(source, d, c).state.Valid() && LoadedLinks(source, d, c).state.Valid()
  {
    if c.connectionPoints.Some? {
      LoadCpsKeepsDistinct(source, d.cps, c.connectionPoints.value);
    }
    if c.virtualLinks.Some? {
      LoadLinksExtends(d, source, c.virtualLinks.value);
    }
  }

  // ---------------------------------------------------------- integrity

  /** The checks after loading: undeclared references fail the stage with
      one event each; unused connection points are only reported, one event
      each; then ports declared by two cloud-native units fail it.  The loop
      over link references between these cannot fail once no reference is
      undeclared (`RefScanAfterUndeclared`), so it adds nothing here. */
  function IntegrityChecks(f: FunctionState): (r: Report)
    ensures r.ok <==> Undeclared(f) == [] && SearchDuplicatePorts(f) == []
    ensures Undeclared(f) != [] ==> r.events == Repeat(Undeclared(f), f.id, VnfdItgUndeclaredCpoint)
    ensures Undeclared(f) == [] ==>
      |r.events| >= |UnusedConnectionPoints(f.d)| &&
      r.events[..|UnusedConnectionPoints(f.d)|] == Repeat(UnusedConnectionPoints(f.d), f.id, VnfdItgUnusedCpoint)
    ensures Undeclared(f) == [] && SearchDuplicatePorts(f) != [] ==>
      |r.events| > 0 && r.events[|r.events| - 1] == Event(f.id, VnfdItgDuplicatedPorts)
  {
    var undeclared := Undeclared(f);
    if undeclared != [] then Report(false, Repeat(undeclared, f.id, VnfdItgUndeclaredCpoint))
    else
      var unused := Repeat(UnusedConnectionPoints(f.d), f.id, VnfdItgUnusedCpoint);
      if SearchDuplicatePorts(f) != [] then Report(false, unused + [Event(f.id, VnfdItgDuplicatedPorts)])
      else Report(true, unused)
  }

  /** A later step, with the events logged before it in front. */
  function After<S>(es: seq<Event>, r: Step<S>): (q: Step<S>)
    ensures q.state == r.state && q.ok == r.ok && q.events == es + r.events
  {
    Step(r.state, r.ok, es + r.events)
  }

  /** `_validate_function_integrity` on the function's content: load the
      connection points, the units, the units' connection points and the
      links, each failure logging its own event and ending the stage, then
      run the checks.  Each load is one function below, handing on to the
      next. */
  function FunctionIntegrity(f: FunctionState, c: Content): (r: Step<FunctionState>)
    ensures r.state.id == f.id
  {
    var a := LoadedCps(f.id, f.d, c);
    var f1 := f.(d := a.state);
    if !a.ok then Step(f1, false, a.events + [Event(f.id, VnfdItgBadsectionCpoints)])
    else After(a.events, IntegrityFromUnits(f1, c))
  }

  function IntegrityFromUnits(f: FunctionState, c: Content): (r: Step<FunctionState>)
    ensures r.state.id == f.id
  {
    var b := LoadUnits(f.units, c);
    var f2 := f.(units := b.state);
    if !b.ok then Step(f2, false, b.events + [Event(f.id, VnfdItgBadsectionVdus)])
    else After(b.events, IntegrityFromUnitCps(f2, c))
  }

  function IntegrityFromUnitCps(f: FunctionState, c: Content): (r: Step<FunctionState>)
    ensures r.state.id == f.id
  {
    var u := LoadUnitCps(f.units, c);
    var f3 := f.(units := u.state);
    if !u.ok then Step(f3, false, u.events + [Event(f.id, VnfdItgVduBadsectionCpoints)])
    else After(u.events, IntegrityFromLinks(f3, c))
  }

  function IntegrityFromLinks(f: FunctionState, c: Content): (r: Step<FunctionState>)
    ensures r.state.id == f.id
  {
    var l := LoadedLinks(f.id, f.d, c);
    var f4 := f.(d := l.state);
    if !l.ok then Step(f4, false, l.events + [Event(f.id, VnfdItgBadsectionVlinks)])
    else
      var k := IntegrityChecks(f4);
      Step(f4, k.ok, l.events + k.events)
  }

  /** A function passes integrity only with every section present, no
      undeclared reference and no port declared twice; then the source's
      unguarded loop over link references can neither fail nor raise. */
  lemma FunctionIntegrityPassed(f: FunctionState, c: Content)
    requires FunctionIntegrity(f, c).ok
    ensures var g := FunctionIntegrity(f, c).state;
      c.connectionPoints.Some? && c.virtualLinks.Some? && (c.vdus.Some? || c.cdus.Some?) &&
      Undeclared(g) == [] && SearchDuplicatePorts(g) == [] &&
      RefScan(g, VlinkCpRefs(g.d)) == Returned(None)
  {
    var g := FunctionIntegrity(f, c).state;
    RefScanAfterUndeclared(g);
  }

  /** Integrity keeps a valid function state valid, wherever it stops. */
  lemma FunctionIntegrityValid(f: FunctionState, c: Content)
    requires f.Valid()
    ensures FunctionIntegrity(f, c).state.Valid()
  {
    var id := f.id;
    LoadedValid(id, f.d, c);
    var f1 := f.(d := LoadedCps(id, f.d, c).state);
    LoadUnitsValid(f1.units, c);
    var f2 := f1.(units := LoadUnits(f1.units, c).state);
    LoadUnitCpsValid(f2.units, c);
    var f3 := f2.(units := LoadUnitCps(f2.units, c).state);
    LoadedValid(id, f3.d, c);
  }

  // ----------------------------------------------------------- topology

  /** `_validate_function_topology`: isolated units and unused unit
      connection points are only reported; loops fail the stage; so does a
      topology graph (with bridges, level 0, inner connections) without
      nodes, since an empty graph is false. */
  function FunctionTopology(f: FunctionState): (r: Report)
    ensures r.ok <==> DetectLoops(f).entries == [] && FunctionGraph(f, true, 0, true).nodes != {}
    ensures DetectDisconnectedUnits(f) != [] <==> |r.events| > 0 && r.events[0] == Event(f.id, VnfdTopIsolatedUnits)
    ensures DetectUnusedCpsUnits(f) != [] ==> Event(f.id, VnfdTopUnnusedCpsUnit) in r.events
  {
    var isolated := if DetectDisconnectedUnits(f) != [] then [Event(f.id, VnfdTopIsolatedUnits)] else [];
    var unused := if DetectUnusedCpsUnits(f) != [] then [Event(f.id, VnfdTopUnnusedCpsUnit)] else [];
    var g := LoopsAndGraph(f);
    Report(g.ok, isolated + unused + g.events)
  }

  /** The failing part of the topology stage: loops, then an empty graph. */
  function LoopsAndGraph(f: FunctionState): (r: Report)
    ensures r.ok <==> DetectLoops(f).entries == [] && FunctionGraph(f, true, 0, true).nodes != {}
    ensures !r.ok ==> |r.events| == 1
    ensures r.ok ==> r.events == []
  {
    if DetectLoops(f).entries != [] then Report(false, [Event(f.id, VnfdTopLoops)])
    else if FunctionGraph(f, true, 0, true).nodes == {} then Report(false, [Event(f.id, VnfdTopTopgraphFailed)])
    else Report(true, [])
  }

  // --------------------------------------------------------- all stages

  /** The syntax stage: the outside schema verdict on the content. */
  predicate SyntaxOk(schemaOk: (DocKind, Content) -> bool, kind: DocKind, content: Option<Content>) {
    content.Some? && schemaOk(kind, content.value)
  }

  /** `validate_function` on a stored function, as intended: the enabled
      stages in the order syntax, integrity, topology, the first failing
      one ending the validation.  With integrity enabled but no syntax
      check, a function without content stands for the source's raise: it
      fails without an event. */
  function FunctionValidation(cfg: Config, schemaOk: (DocKind, Content) -> bool, f: FunctionState, content: Option<Content>)
    : (r: Step<FunctionState>)
    ensures r.state.id == f.id
  {
    if cfg.syntax && !SyntaxOk(schemaOk, FunctionDoc, content) then Step(f, false, [Event(f.id, VnfdStxInvalid)])
    else PastSyntax(cfg, f, content)
  }

  /** The stages after the syntax check. */
  function PastSyntax(cfg: Config, f: FunctionState, content: Option<Content>): (r: Step<FunctionState>)
    ensures r.state.id == f.id
  {
    if cfg.integrity && content.None? then Step(f, false, [])
    else
      var i := IntegrityIfEnabled(cfg, f, content);
      if !i.ok then i else After(i.events, TopologyIfEnabled(cfg, i.state))
  }

  /** The integrity stage when enabled (on present content), else a pass. */
  function IntegrityIfEnabled(cfg: Config, f: FunctionState, content: Option<Content>): (r: Step<FunctionState>)
    requires cfg.integrity ==> content.Some?
    ensures r.state.id == f.id
  {
    if cfg.integrity then FunctionIntegrity(f, content.value) else Step(f, true, [])
  }

  /** The topology stage when enabled, else a pass; it leaves the state. */
  function TopologyIfEnabled(cfg: Config, f: FunctionState): (r: Step<FunctionState>)
    ensures r.state == f
  {
    if cfg.topology then var t := FunctionTopology(f); Step(f, t.ok, t.events) else Step(f, true, [])
  }

  /** The stage order: a function is valid exactly when every enabled
      stage passes on the state the earlier ones left, a failed syntax
      check runs nothing else, a failed integrity stage skips topology,
      and topology never changes the state. */
  lemma FunctionValidationStages(cfg: Config, schemaOk: (DocKind, Content) -> bool, f: FunctionState, content: Option<Content>)
    ensures var r := FunctionValidation(cfg, schemaOk, f, content);
      r.ok <==>
        (cfg.syntax ==> SyntaxOk(schemaOk, FunctionDoc, content)) &&
        (cfg.integrity ==> content.Some? && FunctionIntegrity(f, content.value).ok) &&
        (cfg.topology ==> FunctionTopology(if cfg.integrity then FunctionIntegrity(f, content.value).state else f).ok)
    ensures var r := FunctionValidation(cfg, schemaOk, f, content);
      cfg.syntax && !SyntaxOk(schemaOk, FunctionDoc, content) ==> r.state == f && r.events == [Event(f.id, VnfdStxInvalid)]
    ensures var r := FunctionValidation(cfg, schemaOk, f, content);
      (!(cfg.syntax && !SyntaxOk(schemaOk, FunctionDoc, content)) && cfg.integrity && content.Some? &&
       !FunctionIntegrity(f, content.value).ok) ==> r == FunctionIntegrity(f, content.value)
    ensures var r := FunctionValidation(cfg, schemaOk, f, content);
      !cfg.integrity ==> r.state == f
  {
  }

  /** `validate_function` as written: once the function is stored, a
      failing stage still returns True. */
  function FunctionValidationAsWritten(cfg: Config, schemaOk: (DocKind, Content) -> bool, f: FunctionState, content: Option<Content>)
    : (r: Step<FunctionState>)
    ensures r.ok
  {
    var v := FunctionValidation(cfg, schemaOk, f, content);
    Step(v.state, true, v.events)
  }

  /** A function whose syntax is rejected: the intended validation fails,
      the code as written reports it valid after logging the error. */
  lemma FunctionValidationAsWrittenPasses(f: FunctionState, c: Content)
    ensures var cfg := Config(true, false, false, false, "", "", "");
      var schemaOk := (k: DocKind, x: Content) => false;
      !FunctionValidation(cfg, schemaOk, f, Some(c)).ok &&
      FunctionValidationAsWritten(cfg, schemaOk, f, Some(c)).ok &&
      FunctionValidationAsWritten(cfg, schemaOk, f, Some(c)).events == [Event(f.id, VnfdStxInvalid)]
  {
  }
}
