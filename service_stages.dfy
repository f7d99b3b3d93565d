/**
 * validator.py's stages for a service descriptor, as functions of the
 * service's loaded state: the integrity checks that follow loading the
 * service's functions, and `_validate_service_topology` with its
 * forwarding-path analysis.  `nx.simple_cycles` is an outside function
 * `cyclesOf`.
 */
module ServiceStages {
  import opened Wrappers
  import opened Dicts
  import opened Events
  import opened Content
  import opened Folds
  import opened Links
  import opened Refs
  import opened ServiceQueries
  import opened ForwardingGraphs
  import opened Graphs
  import opened ServiceGraphs
  import opened Traces
  import opened FwAnalysis
  import opened FunctionStages
  import opened Configs
  import opened Descriptors
  import opened FunctionQueries

  // ---------------------------------------------------------- integrity

  /** The last checks of `_validate_service_integrity`, once the functions
      are loaded and valid: load the service's connection points and links
      (each failure logging its event), fail on undeclared references (one
      event each), report unused connection points (one event each), and
      fail at the first link reference that does not resolve.  Each load is
      one function, handing on to the next. */
  function ServiceChecks(s: ServiceState, c: Content): (r: Step<ServiceState>)
    ensures r.state.id == s.id && r.state.functions == s.functions && r.state.vnfIdMap == s.vnfIdMap
  {
    var a := LoadedCps(s.id, s.d, c);
    var s1 := s.(d := a.state);
    if !a.ok then Step(s1, false, a.events + [Event(s.id, NsdItgBadsectionCpoints)])
    else After(a.events, ChecksFromLinks(s1, c))
  }

  function ChecksFromLinks(s: ServiceState, c: Content): (r: Step<ServiceState>)
    ensures r.state.id == s.id && r.state.functions == s.functions && r.state.vnfIdMap == s.vnfIdMap
  {
    var l := LoadedLinks(s.id, s.d, c);
    var s2 := s.(d := l.state);
    if !l.ok then Step(s2, false, l.events + [Event(s.id, NsdItgBadsectionVlinks)])
    else
      var k := RefChecks(s2);
      Step(s2, k.ok, l.events + k.events)
  }

  /** The checks on the loaded references. */
  function RefChecks(s: ServiceState): (r: Report)
    ensures r.ok <==> ServiceUndeclared(s) == [] && FirstUnresolved(s, VlinkCpRefs(s.d)).None?
    ensures ServiceUndeclared(s) != [] ==> r.events == Repeat(ServiceUndeclared(s), s.id, NsdItgUndeclaredCpoint)
    ensures ServiceUndeclared(s) == [] ==>
      |r.events| >= |UnusedConnectionPoints(s.d)| &&
      r.events[..|UnusedConnectionPoints(s.d)|] == Repeat(UnusedConnectionPoints(s.d), s.id, NsdItgUnusedCpoint)
    ensures !r.ok && ServiceUndeclared(s) == [] ==> |r.events| > 0 && r.events[|r.events| - 1] == Event(s.id, NsdItgUndefinedCpoint)
  {
    var id := s.id;
    if ServiceUndeclared(s) != [] then Report(false, Repeat(ServiceUndeclared(s), id, NsdItgUndeclaredCpoint))
    else
      var unused := Repeat(UnusedConnectionPoints(s.d), id, NsdItgUnusedCpoint);
      if FirstUnresolved(s, VlinkCpRefs(s.d)).Some? then Report(false, unused + [Event(id, NsdItgUndefinedCpoint)])
      else Report(true, unused)
  }

  /** After the loads, the checks pass exactly when no reference is
      undeclared and every link reference resolves: a plain one to a service
      connection point, `alias:cp` to a mapped function declaring `cp`.  A
      failure on resolution can only be an alias that maps to no function,
      and its event comes last. */
  lemma ServiceChecksResolve(s: ServiceState, c: Content)
    requires LoadedCps(s.id, s.d, c).ok && LoadedLinks(s.id, LoadedCps(s.id, s.d, c).state, c).ok
    ensures var r := ServiceChecks(s, c);
      r.ok <==> (ServiceUndeclared(r.state) == [] &&
        forall j | 0 <= j < |VlinkCpRefs(r.state.d)| :: ServiceRefResolved(r.state, VlinkCpRefs(r.state.d)[j]))
    ensures var r := ServiceChecks(s, c);
      !r.ok && ServiceUndeclared(r.state) == [] ==>
        r.events[|r.events| - 1] == Event(s.id, NsdItgUndefinedCpoint) &&
        var x := FirstUnresolved(r.state, VlinkCpRefs(r.state.d)).value;
        |Split(x)| == 2 && MappedFunction(r.state, Split(x)[0]).None?
  {
    var r := ServiceChecks(s, c);
    var x := FirstUnresolved(r.state, VlinkCpRefs(r.state.d));
    if !r.ok && ServiceUndeclared(r.state) == [] {
      var j :| 0 <= j < |VlinkCpRefs(r.state.d)| && VlinkCpRefs(r.state.d)[j] == x.value;
      UnresolvedAfterUndeclared(r.state, x.value);
    }
  }

  /** The checks keep a valid service valid. */
  lemma ServiceChecksValid(s: ServiceState, c: Content)
    requires s.Valid()
    ensures ServiceChecks(s, c).state.Valid()
  {
    LoadedValid(s.id, s.d, c);
    LoadedValid(s.id, LoadedCps(s.id, s.d, c).state, c);
  }

  // ------------------------------------------------ functions of a service

  /** The id `build_descriptor_id` gives a function the service declares. */
  function NfId(buildId: (string, string, string) -> string, nf: NfDecl): string {
    buildId(nf.vendor, nf.name, nf.version)
  }

  /** The ids of the declared functions, in order. */
  function NfIds(buildId: (string, string, string) -> string, nfs: seq<NfDecl>): (r: seq<string>)
    ensures |r| == |nfs| && forall k | 0 <= k < |nfs| :: r[k] == NfId(buildId, nfs[k])
    decreases |nfs|
  {
    if |nfs| == 0 then [] else NfIds(buildId, nfs[..|nfs| - 1]) + [NfId(buildId, nfs[|nfs| - 1])]
  }

  /** The descriptor ids (`descriptor_id`) of the descriptors found under
      `fids`, in order; None once one of `fids` is not found. */
  function FoundIds(idOf: Content -> string, files: Dict<string, Content>, fids: seq<string>): (r: Option<seq<string>>)
    decreases |fids|
  {
    if |fids| == 0 then Some([])
    else match FoundIds(idOf, files, fids[..|fids| - 1])
      case None => None
      case Some(p) =>
        match files.Get(fids[|fids| - 1])
        case None => None
        case Some(c) => Some(p + [idOf(c)])
  }

  /** Every id is found exactly when each of `fids` is a key of the
      descriptors found, and then each id is the one its descriptor
      declares. */
  lemma {:induction false} FoundIdsSpec(idOf: Content -> string, files: Dict<string, Content>, fids: seq<string>)
    ensures FoundIds(idOf, files, fids).Some? <==> forall k | 0 <= k < |fids| :: files.HasKey(fids[k])
    ensures FoundIds(idOf, files, fids).Some? ==>
      var ids := FoundIds(idOf, files, fids).value;
      |ids| == |fids| && forall k | 0 <= k < |fids| :: ids[k] == idOf(files.Get(fids[k]).value)
    decreases |fids|
  {
    if |fids| > 0 {
      var n := |fids|;
      var pre := fids[..n - 1];
      FoundIdsSpec(idOf, files, pre);
      assert forall k | 0 <= k < n - 1 :: pre[k] == fids[k];
      GetSomeHasKey(files, fids[n - 1]);
      if !files.HasKey(fids[n - 1]) {
        assert !(forall k | 0 <= k < n :: files.HasKey(fids[k]));
      }
    }
  }

  /** One more id found extends the ids found so far. */
  lemma FoundIdsSnoc(idOf: Content -> string, files: Dict<string, Content>, fids: seq<string>, i: nat, c: Content)
    requires i < |fids| && files.Get(fids[i]) == Some(c) && FoundIds(idOf, files, fids[..i]).Some?
    ensures FoundIds(idOf, files, fids[..i + 1]) == Some(FoundIds(idOf, files, fids[..i]).value + [idOf(c)])
  {
    assert fids[..i + 1][..i] == fids[..i];
  }

  /** Once one of `fids` is not found, none of the later prefixes is. */
  lemma {:induction false} FoundIdsStop(idOf: Content -> string, files: Dict<string, Content>, fids: seq<string>, i: nat)
    requires i < |fids| && files.Get(fids[i]).None?
    ensures FoundIds(idOf, files, fids).None?
    decreases |fids|
  {
    var n := |fids|;
    var pre := fids[..n - 1];
    if i < n - 1 {
      assert pre[i] == fids[i];
      FoundIdsStop(idOf, files, pre, i);
    }
  }

  /** The outcome and events of `_load_service_functions`: without a search
      path or a `network_functions` section it fails silently; with declared
      functions but no descriptor found, or with a declared function whose
      id is not among the descriptors found, it fails with one event. */
  function FunctionsFound(sid: string, dpath: string, nfs: Option<seq<NfDecl>>, files: Dict<string, Content>,
                          buildId: (string, string, string) -> string): (r: Report)
    ensures r.ok <==>
      dpath != "" && nfs.Some? && forall k | 0 <= k < |nfs.value| :: files.HasKey(NfId(buildId, nfs.value[k]))
    ensures r.events == if dpath != "" && nfs.Some? && !r.ok then [Event(sid, NsdItgFunctionUnavailable)] else []
  {
    if dpath == "" || nfs.None? then Report(false, [])
    else if nfs.value != [] && files.entries == [] then
      assert !files.HasKey(NfId(buildId, nfs.value[0]));
      Report(false, [Event(sid, NsdItgFunctionUnavailable)])
    else if forall k | 0 <= k < |nfs.value| :: files.HasKey(NfId(buildId, nfs.value[k])) then Report(true, [])
    else Report(false, [Event(sid, NsdItgFunctionUnavailable)])
  }

  /** The functions a service holds, each under its id with its state and
      its descriptor's content, and its alias map (`vnf_id` to function id). */
  datatype Held = Held(functions: Dict<string, (FunctionState, Option<Content>)>, aliases: Dict<string, string>)

  /** What `create_function` gives for a descriptor with id `id` and
      content `c`: the function already stored under `id` (`stored` maps
      each stored id to that function's state and content), or a new one
      with nothing loaded. */
  function Created(stored: Dict<string, (FunctionState, Option<Content>)>, id: string, c: Content)
    : (r: (FunctionState, Option<Content>))
    ensures stored.Get(id).None? ==> r.0.id == id && r.0.d.cps == [] && r.0.units == Empty() && r.1 == Some(c)
    ensures stored.Get(id).Some? ==> r == stored.Get(id).value
  {
    match stored.Get(id)
    case Some(x) => x
    case None => (FunctionState(id, EmptyState(), Empty()), Some(c))
  }

  /** `associate_function` on the function `create_function` gave for the
      descriptor `c` with id `id`: a service already holding a function
      with that id is left as it is; otherwise the function joins it under
      its id and the alias `vnfId` names it. */
  function AssociateHeld(stored: Dict<string, (FunctionState, Option<Content>)>, h: Held, id: string, c: Content,
                         vnfId: string): (r: Held)
    ensures h.functions.HasKey(id) ==> r == h
    ensures !h.functions.HasKey(id) ==>
      r.functions.Get(id) == Some(Created(stored, id, c)) && r.aliases.Get(vnfId) == Some(id)
    ensures KeysWithin(h.functions, r.functions) && r.functions.HasKey(id)
  {
    if h.functions.HasKey(id) then h
    else
      PutKeepsKeys(h.functions, id, Created(stored, id, c));
      GetPut(h.functions, id, Created(stored, id, c), id);
      GetPut(h.aliases, vnfId, id, vnfId);
      Held(h.functions.Put(id, Created(stored, id, c)), h.aliases.Put(vnfId, id))
  }

  /** One turn of the loop of `_load_service_functions`: a declared
      function whose id is not among the descriptors found ends the load;
      otherwise its descriptor is stored (`create_function`) and
      associated with the service under its `vnf_id`. */
  function LoadStep(idOf: Content -> string, buildId: (string, string, string) -> string,
                    files: Dict<string, Content>, stored: Dict<string, (FunctionState, Option<Content>)>)
    : (Held, NfDecl) -> Step<Held>
  {
    (h: Held, nf: NfDecl) =>
      match files.Get(NfId(buildId, nf))
      case None => Step(h, false, [])
      case Some(c) =>
        Step(AssociateHeld(stored, h, idOf(c), c, nf.vnfId), true, [])
  }

  /** One more declared function after a successful prefix of the load:
      found, it is associated; missing, the load fails there. */
  lemma LoadSnoc(idOf: Content -> string, buildId: (string, string, string) -> string,
                 files: Dict<string, Content>, stored: Dict<string, (FunctionState, Option<Content>)>,
                 h0: Held, nfs: seq<NfDecl>, i: nat)
    requires i < |nfs| && Run(LoadStep(idOf, buildId, files, stored), h0, nfs[..i]).ok
    ensures var p := Run(LoadStep(idOf, buildId, files, stored), h0, nfs[..i]);
      var r := Run(LoadStep(idOf, buildId, files, stored), h0, nfs[..i + 1]);
      match files.Get(NfId(buildId, nfs[i]))
      case None => !r.ok && r.state == p.state
      case Some(c) => r.ok && r.state == AssociateHeld(stored, p.state, idOf(c), c, nfs[i].vnfId)
  {
    RunSnoc(LoadStep(idOf, buildId, files, stored), h0, nfs, i);
  }

  /** The load succeeds exactly when every declared function is found,
      the verdict of `FunctionsFound` once a search path and a
      `network_functions` section are there; the loop itself logs nothing. */
  lemma {:induction false} LoadFunctionsOk(idOf: Content -> string, buildId: (string, string, string) -> string,
                                           files: Dict<string, Content>,
                                           stored: Dict<string, (FunctionState, Option<Content>)>,
                                           h0: Held, nfs: seq<NfDecl>)
    ensures var r := Run(LoadStep(idOf, buildId, files, stored), h0, nfs);
      (r.ok <==> forall k | 0 <= k < |nfs| :: files.HasKey(NfId(buildId, nfs[k]))) && r.events == []
    decreases |nfs|
  {
    if |nfs| > 0 {
      var n := |nfs|;
      var pre := nfs[..n - 1];
      var f := LoadStep(idOf, buildId, files, stored);
      LoadFunctionsOk(idOf, buildId, files, stored, h0, pre);
      assert forall k | 0 <= k < n - 1 :: pre[k] == nfs[k];
      var p := Run(f, h0, pre);
      var q := f(p.state, nfs[n - 1]);
      GetSomeHasKey(files, NfId(buildId, nfs[n - 1]));
      assert q.ok == files.HasKey(NfId(buildId, nfs[n - 1])) && q.events == [];
      assert Run(f, h0, nfs).ok == (p.ok && q.ok);
    }
  }

  /** The load keeps every function the service held, with its state and
      content, and after a successful load the service holds every
      declared function, under the id its descriptor declares. */
  lemma {:induction false} LoadFunctionsHolds(idOf: Content -> string, buildId: (string, string, string) -> string,
                                              files: Dict<string, Content>,
                                              stored: Dict<string, (FunctionState, Option<Content>)>,
                                              h0: Held, nfs: seq<NfDecl>)
    ensures var r := Run(LoadStep(idOf, buildId, files, stored), h0, nfs);
      forall id | h0.functions.HasKey(id) :: r.state.functions.Get(id) == h0.functions.Get(id)
    ensures var r := Run(LoadStep(idOf, buildId, files, stored), h0, nfs);
      r.ok ==> (FoundIds(idOf, files, NfIds(buildId, nfs)).Some? &&
                HasKeys(r.state.functions, FoundIds(idOf, files, NfIds(buildId, nfs)).value))
    decreases |nfs|
  {
    if |nfs| > 0 {
      var n := |nfs|;
      var pre := nfs[..n - 1];
      var f := LoadStep(idOf, buildId, files, stored);
      LoadFunctionsHolds(idOf, buildId, files, stored, h0, pre);
      assert NfIds(buildId, nfs)[..n - 1] == NfIds(buildId, pre);
      var p := Run(f, h0, pre);
      if p.ok {
        var a := p.state.functions;
        forall id | h0.functions.HasKey(id) ensures a.HasKey(id) {
          GetSomeHasKey(h0.functions, id);
          GetSomeHasKey(a, id);
        }
        match files.Get(NfId(buildId, nfs[n - 1]))
        case None =>
        case Some(c) =>
          var ids := FoundIds(idOf, files, NfIds(buildId, pre)).value;
          var b := AssociateHeld(stored, p.state, idOf(c), c, nfs[n - 1].vnfId).functions;
          HasKeysWithin(a, b, ids, idOf(c));
          if !a.HasKey(idOf(c)) {
            forall id | h0.functions.HasKey(id) ensures b.Get(id) == a.Get(id) {
              GetPut(a, idOf(c), Created(stored, idOf(c), c), id);
            }
          }
      }
    }
  }

  /** `validate_function` on one function of the service, given by its
      state and its descriptor's content. */
  function Validated(cfg: Config, schemaOk: (DocKind, Content) -> bool): ((FunctionState, Option<Content>)) -> Step<FunctionState> {
    (x: (FunctionState, Option<Content>)) => FunctionValidation(cfg, schemaOk, x.0, x.1)
  }

  /** The loop of `_validate_service_integrity` over the service's
      functions, each given by its state and its descriptor's content and
      put through `validate` (`validate_function`): the state each
      validation leaves is collected, and a failure is reported against the
      service and ends the loop. */
  function FunctionChecks(sid: string, validate: ((FunctionState, Option<Content>)) -> Step<FunctionState>,
                          ins: seq<(FunctionState, Option<Content>)>): Step<seq<FunctionState>>
  {
    Run(Collect(validate, Event(sid, NsdItgFunctionInvalid)), [], ins)
  }

  /** The loop validates the functions in order, each on its own state,
      and passes exactly when every function is valid; it stops at the
      first invalid one, whose failure is the last event. */
  lemma FunctionChecksSpec(sid: string, validate: ((FunctionState, Option<Content>)) -> Step<FunctionState>,
                           ins: seq<(FunctionState, Option<Content>)>)
    ensures var r := FunctionChecks(sid, validate, ins);
      |r.state| <= |ins| &&
      (forall k | 0 <= k < |r.state| :: r.state[k] == validate(ins[k]).state) &&
      (r.ok <==> forall k | 0 <= k < |ins| :: validate(ins[k]).ok) &&
      (r.ok ==> |r.state| == |ins|) &&
      (!r.ok ==>
        0 < |r.state| && |r.events| > 0 && r.events[|r.events| - 1] == Event(sid, NsdItgFunctionInvalid) &&
        !validate(ins[|r.state| - 1]).ok)
  {
    CollectSpec(validate, Event(sid, NsdItgFunctionInvalid), ins);
  }

  /** One more function validated: its state joins the ones collected, and
      a failure is reported after its own events. */
  lemma FunctionChecksSnoc(sid: string, validate: ((FunctionState, Option<Content>)) -> Step<FunctionState>,
                           ins: seq<(FunctionState, Option<Content>)>, i: nat)
    requires i < |ins| && FunctionChecks(sid, validate, ins[..i]).ok
    ensures var p := FunctionChecks(sid, validate, ins[..i]);
      var v := validate(ins[i]);
      FunctionChecks(sid, validate, ins[..i + 1]) ==
        Step(p.state + [v.state], v.ok,
             p.events + (if v.ok then v.events else v.events + [Event(sid, NsdItgFunctionInvalid)]))
  {
    RunSnoc(Collect(validate, Event(sid, NsdItgFunctionInvalid)), [], ins, i);
  }

  /** `ins` with the states of its first entries replaced by `states`. */
  function WithStates(ins: seq<(FunctionState, Option<Content>)>, states: seq<FunctionState>)
    : (r: seq<(FunctionState, Option<Content>)>)
    requires |states| <= |ins|
    ensures |r| == |ins|
    ensures forall k | 0 <= k < |ins| :: r[k] == if k < |states| then (states[k], ins[k].1) else ins[k]
    decreases |states|
  {
    if |states| == 0 then ins
    else
      var n := |states|;
      WithStates(ins, states[..n - 1])[n - 1 := (states[n - 1], ins[n - 1].1)]
  }

  /** Replacing one more state. */
  lemma WithStatesSnoc(ins: seq<(FunctionState, Option<Content>)>, states: seq<FunctionState>, x: FunctionState)
    requires |states| < |ins|
    ensures WithStates(ins, states + [x]) == WithStates(ins, states)[|states| := (x, ins[|states|].1)]
  {
    assert (states + [x])[..|states|] == states;
  }

  /** Where the loop over the functions stands after `i` of them: the run
      on the first `i` inputs `ins` ended with `ok`, its events follow `ev0` in `events`, and the inputs are now
      `cur`, holding the states it collected. */
  ghost predicate RunReached(sid: string, validate: ((FunctionState, Option<Content>)) -> Step<FunctionState>,
                             ins: seq<(FunctionState, Option<Content>)>, i: nat, ok: bool,
                             ev0: seq<Event>, events: seq<Event>, cur: seq<(FunctionState, Option<Content>)>)
  {
    i <= |ins| &&
    var p := FunctionChecks(sid, validate, ins[..i]);
    p.ok == ok && |p.state| == i && events == ev0 + p.events && cur == WithStates(ins, p.state)
  }

  /** Validating the next input, logging its events and, on failure, the
      service's event, and storing its new state, advances the run by one. */
  lemma RunAdvances(sid: string, validate: ((FunctionState, Option<Content>)) -> Step<FunctionState>,
                    ins: seq<(FunctionState, Option<Content>)>, i: nat, ev0: seq<Event>,
                    events: seq<Event>, cur: seq<(FunctionState, Option<Content>)>)
    requires i < |ins| && RunReached(sid, validate, ins, i, true, ev0, events, cur)
    ensures var v := validate(cur[i]);
      cur[i] == ins[i] &&
      RunReached(sid, validate, ins, i + 1, v.ok, ev0,
                 events + (if v.ok then v.events else v.events + [Event(sid, NsdItgFunctionInvalid)]),
                 cur[i := (v.state, cur[i].1)])
  {
    var p := FunctionChecks(sid, validate, ins[..i]);
    FunctionChecksSnoc(sid, validate, ins, i);
    var v := validate(ins[i]);
    WithStatesSnoc(ins, p.state, v.state);
    AppendAssoc(ev0, p.events, if v.ok then v.events else v.events + [Event(sid, NsdItgFunctionInvalid)]);
  }

  /** The whole run on the inputs `ins`: it ended with `ok`, its events
      follow `ev0` in `events`, and the inputs are now `cur`, the inputs
      it reached holding the states it collected and the rest unchanged. */
  ghost predicate RunDone(sid: string, validate: ((FunctionState, Option<Content>)) -> Step<FunctionState>,
                          ins: seq<(FunctionState, Option<Content>)>, ok: bool,
                          ev0: seq<Event>, events: seq<Event>, cur: seq<(FunctionState, Option<Content>)>)
  {
    var r := FunctionChecks(sid, validate, ins);
    ok == r.ok && events == ev0 + r.events && |r.state| <= |ins| && cur == WithStates(ins, r.state)
  }

  /** Nothing validated yet: the run on no inputs has passed, with no
      events, and the inputs are as they were. */
  lemma RunStarts(sid: string, validate: ((FunctionState, Option<Content>)) -> Step<FunctionState>,
                  ins: seq<(FunctionState, Option<Content>)>, ev0: seq<Event>)
    ensures RunReached(sid, validate, ins, 0, true, ev0, ev0, ins)
  {
    assert ins[..0] == [];
  }

  /** The loop ends with the whole run: after a failure, which ends the
      run, or after the last input. */
  lemma RunFinished(sid: string, validate: ((FunctionState, Option<Content>)) -> Step<FunctionState>,
                    ins: seq<(FunctionState, Option<Content>)>, i: nat, ok: bool,
                    ev0: seq<Event>, events: seq<Event>, cur: seq<(FunctionState, Option<Content>)>)
    requires RunReached(sid, validate, ins, i, ok, ev0, events, cur)
    requires ok ==> i == |ins|
    ensures RunDone(sid, validate, ins, ok, ev0, events, cur)
  {
    if !ok {
      RunStops(Collect(validate, Event(sid, NsdItgFunctionInvalid)), [], ins, i);
    } else {
      assert ins[..i] == ins;
    }
  }

  // ------------------------------------------------ forwarding analysis

  /** Some pair of the trace is broken. */
  predicate AnyBreak(ps: seq<PathPair>) {
    exists i | 0 <= i < |ps| :: ps[i].brk
  }

  /** One forwarding path before conversion: an odd number of connection
      points is reported; a trace with a break is reported and ends the
      whole topology stage. */
  function PathCheck(g: Graph, src: string, p: FwPath): (r: Step<()>)
    ensures r.ok <==> !AnyBreak(TracePairs(g, p.path))
    ensures |p.path| % 2 != 0 <==> |r.events| > 0 && r.events[0] == Event(src, NsdTopCpointsOdd)
  {
    var odd := OddEvents(src, p.path);
    if AnyBreak(TracePairs(g, p.path)) then Step((), false, odd + [Event(src, NsdTopFwpathInvalid)])
    else Step((), true, odd)
  }

  function PathCheckStep(g: Graph, src: string): ((), FwPath) -> Step<()> {
    (u: (), p: FwPath) => PathCheck(g, src, p)
  }

  /** The connection-point lists of the paths. */
  function PathsOf(ps: seq<FwPath>): (r: seq<seq<string>>)
    ensures |r| == |ps| && forall i | 0 <= i < |ps| :: r[i] == ps[i].path
    decreases |ps|
  {
    if |ps| == 0 then [] else PathsOf(ps[..|ps| - 1]) + [ps[|ps| - 1].path]
  }

  /** The `cycle_path` of each kept cycle. */
  function CyclePaths(fpg: DiGraph, kept: seq<seq<string>>): (r: seq<seq<EdgeData>>)
    ensures |r| == |kept| && forall i | 0 <= i < |kept| :: r[i] == CycleLinks(fpg, kept[i], |kept[i]|)
    decreases |kept|
  {
    if |kept| == 0 then []
    else CyclePaths(fpg, kept[..|kept| - 1]) + [CycleLinks(fpg, kept[|kept| - 1], |kept[|kept| - 1]|)]
  }

  /** The analysis of one forwarding graph, as intended: check every path,
      convert the paths into the digraph between VNFs (an internal error
      ends the stage without an event), keep the simple cycles longer than
      two, report each, and record their `cycle_path`s. */
  function FwGraphEntry(s: ServiceState, g: Graph, cyclesOf: DiGraph -> seq<seq<string>>,
                        acc: seq<seq<seq<EdgeData>>>, fg: FwGraph): (r: Step<seq<seq<seq<EdgeData>>>>)
    ensures r.ok ==> |r.state| == |acc| + 1 && r.state[..|acc|] == acc
    ensures !r.ok ==> r.state == acc
  {
    var src := s.id + ":" + fg.fgId;
    var checked := Run(PathCheckStep(g, src), (), fg.paths);
    if !checked.ok then Step(acc, false, checked.events)
    else
      var conv := Run(GraphConvStep(s, src), EmptyDiGraph(), PathsOf(fg.paths));
      if !conv.ok then Step(acc, false, checked.events + conv.events)
      else
        var kept := LongCycles(cyclesOf(conv.state));
        Step(acc + [CyclePaths(conv.state, kept)], true, checked.events + conv.events + CycleEvents(src, kept))
  }

  function FwGraphStep(s: ServiceState, g: Graph, cyclesOf: DiGraph -> seq<seq<string>>)
    : (seq<seq<seq<EdgeData>>>, FwGraph) -> Step<seq<seq<seq<EdgeData>>>> {
    (acc: seq<seq<seq<EdgeData>>>, fg: FwGraph) => FwGraphEntry(s, g, cyclesOf, acc, fg)
  }

  /** Some pair of `path` starts at a node missing from `g`, which makes
      `trace_path_pairs` as written raise. */
  predicate StartsAtMissing(g: Graph, path: seq<string>) {
    exists i | 0 <= i < |path| / 2 :: !g.HasNode(path[2 * i])
  }

  /** One forwarding path as written: the same checks as `PathCheck`, on
      the pairs of `trace_path_pairs` as written. */
  function PathCheckAsWritten(g: Graph, src: string, p: FwPath): Outcome<Step<()>> {
    match TracePairsAsWritten(g, p.path)
    case Raised(e) => Raised(e)
    case Returned(ps) =>
      var odd := OddEvents(src, p.path);
      if AnyBreak(ps) then Returned(Step((), false, odd + [Event(src, NsdTopFwpathInvalid)]))
      else Returned(Step((), true, odd))
  }

  /** As written, a path check raises exactly when a pair starts at a
      missing node, and otherwise passes; where the intended check passes,
      the two agree. */
  lemma PathCheckAsWrittenAgrees(g: Graph, src: string, p: FwPath)
    ensures PathCheckAsWritten(g, src, p).Raised? <==> StartsAtMissing(g, p.path)
    ensures PathCheckAsWritten(g, src, p).Raised? ==> PathCheckAsWritten(g, src, p) == Raised("NetworkXError")
    ensures PathCheckAsWritten(g, src, p).Returned? ==> PathCheckAsWritten(g, src, p).value.ok
    ensures PathCheck(g, src, p).ok ==> PathCheckAsWritten(g, src, p) == Returned(PathCheck(g, src, p))
  {
    TracePairsAsWrittenNeverBreaks(g, p.path);
    if StartsAtMissing(g, p.path) {
      var i :| 0 <= i < |p.path| / 2 && !g.HasNode(p.path[2 * i]);
      assert TracePairs(g, p.path)[i].brk;
    }
  }

  /** The paths of a forwarding graph checked in order, as written: a raise
      ends the analysis, and so would a break. */
  function PathChecksAsWritten(g: Graph, src: string, ps: seq<FwPath>): Outcome<Step<()>>
    decreases |ps|
  {
    if |ps| == 0 then Returned(Step((), true, []))
    else
      match PathChecksAsWritten(g, src, ps[..|ps| - 1])
      case Raised(e) => Raised(e)
      case Returned(r) =>
        if !r.ok then Returned(r)
        else
          match PathCheckAsWritten(g, src, ps[|ps| - 1])
          case Raised(e) => Raised(e)
          case Returned(q) => Returned(Step((), q.ok, r.events + q.events))
  }

  /** As written, checking the paths raises exactly when one of them has a
      pair starting at a missing node, and otherwise passes them all; where
      the intended checks pass, the two agree. */
  lemma {:induction false} PathChecksAsWrittenAgree(g: Graph, src: string, ps: seq<FwPath>)
    ensures PathChecksAsWritten(g, src, ps).Raised? <==> exists j | 0 <= j < |ps| :: StartsAtMissing(g, ps[j].path)
    ensures PathChecksAsWritten(g, src, ps).Raised? ==> PathChecksAsWritten(g, src, ps) == Raised("NetworkXError")
    ensures PathChecksAsWritten(g, src, ps).Returned? ==> PathChecksAsWritten(g, src, ps).value.ok
    ensures Run(PathCheckStep(g, src), (), ps).ok ==>
      PathChecksAsWritten(g, src, ps) == Returned(Run(PathCheckStep(g, src), (), ps))
    decreases |ps|
  {
    if |ps| > 0 {
      var n := |ps|;
      PathChecksAsWrittenAgree(g, src, ps[..n - 1]);
      PathCheckAsWrittenAgrees(g, src, ps[n - 1]);
      if PathChecksAsWritten(g, src, ps).Raised? {
        if PathChecksAsWritten(g, src, ps[..n - 1]).Raised? {
          var j :| 0 <= j < n - 1 && StartsAtMissing(g, ps[..n - 1][j].path);
          assert ps[j] == ps[..n - 1][j];
        }
      }
      if exists j | 0 <= j < n :: StartsAtMissing(g, ps[j].path) {
        var j :| 0 <= j < n && StartsAtMissing(g, ps[j].path);
        if j < n - 1 {
          assert ps[..n - 1][j] == ps[j];
        }
      }
    }
  }

  /** The analysis of one forwarding graph as written: the paths are
      checked with the pairs of `trace_path_pairs` as written, and after
      reporting cycles the stage reads the undefined name `evtiddocker`. */
  function FwGraphEntryAsWritten(s: ServiceState, g: Graph, cyclesOf: DiGraph -> seq<seq<string>>,
                                 acc: seq<seq<seq<EdgeData>>>, fg: FwGraph): Outcome<Step<seq<seq<seq<EdgeData>>>>>
  {
    var src := s.id + ":" + fg.fgId;
    match PathChecksAsWritten(g, src, fg.paths)
    case Raised(e) => Raised(e)
    case Returned(checked) =>
      if !checked.ok then Returned(Step(acc, false, checked.events))
      else
        var conv := Run(GraphConvStep(s, src), EmptyDiGraph(), PathsOf(fg.paths));
        if !conv.ok then Returned(Step(acc, false, checked.events + conv.events))
        else
          var kept := LongCycles(cyclesOf(conv.state));
          if kept != [] then Raised("NameError")
          else Returned(Step(acc + [CyclePaths(conv.state, kept)], true, checked.events + conv.events))
  }

  /** As written, the analysis of a forwarding graph raises a NetworkXError
      exactly when a path has a pair starting at a missing node, never ends
      at a broken path (only the internal conversion error ends it without
      a raise), and, where the intended analysis passes, raises exactly
      when that one reports a cycle and otherwise agrees with it. */
  lemma FwGraphEntryAsWrittenRaises(s: ServiceState, g: Graph, cyclesOf: DiGraph -> seq<seq<string>>,
                                    acc: seq<seq<seq<EdgeData>>>, fg: FwGraph)
    ensures FwGraphEntryAsWritten(s, g, cyclesOf, acc, fg) == Raised("NetworkXError") <==>
      exists j | 0 <= j < |fg.paths| :: StartsAtMissing(g, fg.paths[j].path)
    ensures FwGraphEntryAsWritten(s, g, cyclesOf, acc, fg).Returned? &&
            !FwGraphEntryAsWritten(s, g, cyclesOf, acc, fg).value.ok ==>
      !Run(GraphConvStep(s, s.id + ":" + fg.fgId), EmptyDiGraph(), PathsOf(fg.paths)).ok
    ensures var r := FwGraphEntry(s, g, cyclesOf, acc, fg);
      r.ok ==>
        (FwGraphEntryAsWritten(s, g, cyclesOf, acc, fg).Raised? <==>
           exists e | e in r.events :: e.code == NsdTopFwgraphCycles) &&
        (FwGraphEntryAsWritten(s, g, cyclesOf, acc, fg).Returned? ==>
           FwGraphEntryAsWritten(s, g, cyclesOf, acc, fg).value == r)
  {
    var src := s.id + ":" + fg.fgId;
    PathChecksAsWrittenAgree(g, src, fg.paths);
    var r := FwGraphEntry(s, g, cyclesOf, acc, fg);
    if r.ok && r.state[|acc|] != [] {
      CyclesLogged(s, g, cyclesOf, acc, fg);
    }
    if r.ok && r.state[|acc|] == [] {
      NoCyclesLogged(s, g, cyclesOf, acc, fg);
    }
  }

  /** Recorded cycles come with a cycle event. */
  lemma CyclesLogged(s: ServiceState, g: Graph, cyclesOf: DiGraph -> seq<seq<string>>,
                     acc: seq<seq<seq<EdgeData>>>, fg: FwGraph)
    requires var r := FwGraphEntry(s, g, cyclesOf, acc, fg); r.ok && r.state[|acc|] != []
    ensures exists e | e in FwGraphEntry(s, g, cyclesOf, acc, fg).events :: e.code == NsdTopFwgraphCycles
  {
    var r := FwGraphEntry(s, g, cyclesOf, acc, fg);
    var src := s.id + ":" + fg.fgId;
    var checked := Run(PathCheckStep(g, src), (), fg.paths);
    var conv := Run(GraphConvStep(s, src), EmptyDiGraph(), PathsOf(fg.paths));
    var kept := LongCycles(cyclesOf(conv.state));
    assert r.events == checked.events + conv.events + CycleEvents(src, kept);
    assert r.state[|acc|] == CyclePaths(conv.state, kept);
    assert r.events[|checked.events| + |conv.events|] == Event(src, NsdTopFwgraphCycles);
  }

  /** Without recorded cycles there is no cycle event: the path checks and
      the conversion log none. */
  lemma NoCyclesLogged(s: ServiceState, g: Graph, cyclesOf: DiGraph -> seq<seq<string>>,
                       acc: seq<seq<seq<EdgeData>>>, fg: FwGraph)
    requires var r := FwGraphEntry(s, g, cyclesOf, acc, fg); r.ok && r.state[|acc|] == []
    ensures forall e | e in FwGraphEntry(s, g, cyclesOf, acc, fg).events :: e.code != NsdTopFwgraphCycles
  {
    var r := FwGraphEntry(s, g, cyclesOf, acc, fg);
    var src := s.id + ":" + fg.fgId;
    var checked := Run(PathCheckStep(g, src), (), fg.paths);
    var conv := Run(GraphConvStep(s, src), EmptyDiGraph(), PathsOf(fg.paths));
    var kept := LongCycles(cyclesOf(conv.state));
    assert r.state[|acc|] == CyclePaths(conv.state, kept);
    assert CycleEvents(src, kept) == [];
    assert r.events == checked.events + conv.events;
    forall e | e in r.events ensures e.code != NsdTopFwgraphCycles {
      if e in checked.events {
        PathChecksCodes(g, src, fg.paths, e);
      } else {
        ConvertCodes(s, src, PathsOf(fg.paths), e);
      }
    }
  }


  /** Checking paths logs only odd-path and invalid-path events. */
  lemma {:induction false} PathChecksCodes(g: Graph, src: string, ps: seq<FwPath>, e: Event)
    requires e in Run(PathCheckStep(g, src), (), ps).events
    ensures e.code == NsdTopCpointsOdd || e.code == NsdTopFwpathInvalid
    decreases |ps|
  {
    var n := |ps|;
    var p := Run(PathCheckStep(g, src), (), ps[..n - 1]);
    if e in p.events {
      PathChecksCodes(g, src, ps[..n - 1], e);
    }
  }

  /** Converting paths logs only inside-VNF and disrupted-path events. */
  lemma {:induction false} ConvertCodes(s: ServiceState, src: string, paths: seq<seq<string>>, e: Event)
    requires e in Run(GraphConvStep(s, src), EmptyDiGraph(), paths).events
    ensures e.code == NsdTopFwpathInsideVnf || e.code == NsdTopFwpathDisrupted
    decreases |paths|
  {
    var n := |paths|;
    var p := Run(GraphConvStep(s, src), EmptyDiGraph(), paths[..n - 1]);
    if e in p.events {
      ConvertCodes(s, src, paths[..n - 1], e);
    } else {
      var fpg := p.state;
      PathConvertCodes(s, src, fpg, paths[n - 1], e);
    }
  }

  lemma {:induction false} PathConvertCodes(s: ServiceState, src: string, fpg: DiGraph, path: seq<string>, e: Event)
    requires e in ConvertPathSpec(s, src, fpg, path).events
    ensures e.code == NsdTopFwpathInsideVnf || e.code == NsdTopFwpathDisrupted
  {
    PointCodes(s, src, Start(fpg), path, e);
  }

  lemma {:induction false} PointCodes(s: ServiceState, src: string, c: Conv, path: seq<string>, e: Event)
    requires e in Run(ConvStep(s, src), c, path).events
    ensures e.code == NsdTopFwpathInsideVnf || e.code == NsdTopFwpathDisrupted
    decreases |path|
  {
    var n := |path|;
    var p := Run(ConvStep(s, src), c, path[..n - 1]);
    if e in p.events {
      PointCodes(s, src, c, path[..n - 1], e);
    }
  }

  // ----------------------------------------------------------- topology

  /** What the topology stage leaves: the service's forwarding graphs and
      the `cycle_path`s of each analysed forwarding graph. */
  datatype TopologyState = TopologyState(fwGraphs: seq<FwGraph>, cycles: seq<seq<seq<EdgeData>>>)

  /** The checks before the forwarding graphs: isolated VNFs and loops fail
      the stage; unused connection points are only reported; a topology
      graph (level 1, with bridges) without nodes fails; a disconnected one
      is only reported. */
  function TopologyChecks(s: ServiceState): Report
    requires s.Closed()
  {
    if DetectIsolatedVnfs(s) != [] then Report(false, [Event(s.id, NsdTopIsolatedVnfd)])
    else if DetectServiceLoops(s).entries != [] then Report(false, [Event(s.id, NsdTopLoopsInVnfd)])
    else GraphChecks(s.id, DetectUnusedCps(s) != [], ServiceGraph(s, true))
  }

  /** The checks pass exactly without isolated VNFs or loops and with a
      non-empty topology graph; when they pass, unused connection points and
      a disconnected graph are each reported exactly when present. */
  lemma TopologyChecksReport(s: ServiceState)
    requires s.Closed()
    ensures var r := TopologyChecks(s);
      (r.ok <==> DetectIsolatedVnfs(s) == [] && DetectServiceLoops(s).entries == [] && ServiceGraph(s, true).nodes != {}) &&
      (r.ok ==>
        (DetectUnusedCps(s) != [] <==> Event(s.id, NsdTopUnnusedCpsVnfd) in r.events) &&
        (!IsConnected(ServiceGraph(s, true)) <==> Event(s.id, NsdTopDisconnected) in r.events))
  {
  }

  /** The part of the checks that reads the topology graph `g`, given
      whether unused connection points were found. */
  function GraphChecks(id: string, unused: bool, g: Graph): (r: Report)
    requires g.Valid()
    ensures r.ok <==> g.nodes != {}
    ensures r.ok ==>
      (unused <==> Event(id, NsdTopUnnusedCpsVnfd) in r.events) &&
      (!IsConnected(g) <==> Event(id, NsdTopDisconnected) in r.events)
  {
    var reported := if unused then [Event(id, NsdTopUnnusedCpsVnfd)] else [];
    if g.nodes == {} then Report(false, reported + [Event(id, NsdTopTopgraphFailed)])
    else
      var disconnected := if IsConnected(g) then [] else [Event(id, NsdTopDisconnected)];
      assert Event(id, NsdTopUnnusedCpsVnfd) != Event(id, NsdTopDisconnected);
      Report(true, reported + disconnected)
  }

  /** `_validate_service_topology`, as intended: the checks; without a
      `forwarding_graphs` section the stage passes with a report; otherwise
      the forwarding graphs are loaded (a failure is reported and fails the
      stage) and every loaded forwarding graph is analysed in turn. */
  function ServiceTopology(s: ServiceState, fw0: seq<FwGraph>, c: Content, cyclesOf: DiGraph -> seq<seq<string>>)
    : (r: Step<TopologyState>)
    requires s.Closed()
  {
    var t := TopologyChecks(s);
    if !t.ok then Step(TopologyState(fw0, []), false, t.events)
    else After(t.events, FwGraphsSection(s, fw0, c, cyclesOf))
  }

  /** The forwarding-graph part of the stage, once the checks pass. */
  function FwGraphsSection(s: ServiceState, fw0: seq<FwGraph>, c: Content, cyclesOf: DiGraph -> seq<seq<string>>)
    : (r: Step<TopologyState>)
  {
    if c.forwardingGraphs.None? then
      Step(TopologyState(fw0, []), true, [Event(s.id, NsdTopFwgraphUnavailable)])
    else
      var l := LoadForwardingGraphs(s, fw0, c.forwardingGraphs.value);
      if !l.ok then Step(TopologyState(l.state, []), false, l.events + [Event(s.id, NsdTopBadsectionFwgraph)])
      else
        var a := Run(FwGraphStep(s, ServiceGraph(s, true), cyclesOf), [], l.state);
        Step(TopologyState(l.state, a.state), a.ok, l.events + a.events)
  }

  /** A service passes topology only without isolated VNFs or loops, with a
      non-empty topology graph, and, when it declares forwarding graphs,
      with every path of every loaded forwarding graph traced without a
      break and one list of `cycle_path`s per forwarding graph. */
  lemma ServiceTopologyPassed(s: ServiceState, fw0: seq<FwGraph>, c: Content, cyclesOf: DiGraph -> seq<seq<string>>)
    requires s.Closed() && ServiceTopology(s, fw0, c, cyclesOf).ok
    ensures DetectIsolatedVnfs(s) == [] && DetectServiceLoops(s).entries == [] && ServiceGraph(s, true).nodes != {}
    ensures var r := ServiceTopology(s, fw0, c, cyclesOf).state;
      c.forwardingGraphs.Some? ==>
        |r.cycles| == |r.fwGraphs| &&
        forall k, j | 0 <= k < |r.fwGraphs| && 0 <= j < |r.fwGraphs[k].paths| ::
          !AnyBreak(TracePairs(ServiceGraph(s, true), r.fwGraphs[k].paths[j].path))
  {
    TopologyChecksReport(s);
    FwGraphsSectionPassed(s, fw0, c, cyclesOf);
  }

  /** The forwarding-graph part of that statement. */
  lemma FwGraphsSectionPassed(s: ServiceState, fw0: seq<FwGraph>, c: Content, cyclesOf: DiGraph -> seq<seq<string>>)
    requires FwGraphsSection(s, fw0, c, cyclesOf).ok
    ensures var r := FwGraphsSection(s, fw0, c, cyclesOf).state;
      c.forwardingGraphs.Some? ==>
        |r.cycles| == |r.fwGraphs| &&
        forall k, j | 0 <= k < |r.fwGraphs| && 0 <= j < |r.fwGraphs[k].paths| ::
          !AnyBreak(TracePairs(ServiceGraph(s, true), r.fwGraphs[k].paths[j].path))
  {
    if c.forwardingGraphs.Some? {
      AnalysisPassed(s, ServiceGraph(s, true), cyclesOf, FwGraphsSection(s, fw0, c, cyclesOf).state.fwGraphs);
    }
  }

  /** A passing analysis checked every path and recorded one entry per
      forwarding graph. */
  lemma {:induction false} AnalysisPassed(s: ServiceState, g: Graph, cyclesOf: DiGraph -> seq<seq<string>>, fgs: seq<FwGraph>)
    requires Run(FwGraphStep(s, g, cyclesOf), [], fgs).ok
    ensures |Run(FwGraphStep(s, g, cyclesOf), [], fgs).state| == |fgs|
    ensures forall k, j | 0 <= k < |fgs| && 0 <= j < |fgs[k].paths| :: !AnyBreak(TracePairs(g, fgs[k].paths[j].path))
    decreases |fgs|
  {
    if |fgs| > 0 {
      var n := |fgs|;
      var pre := fgs[..n - 1];
      var p := Run(FwGraphStep(s, g, cyclesOf), [], pre);
      assert p.ok;
      AnalysisPassed(s, g, cyclesOf, pre);
      var fg := fgs[n - 1];
      assert FwGraphEntry(s, g, cyclesOf, p.state, fg).ok;
      RunOk(PathCheckStep(g, s.id + ":" + fg.fgId), (), fg.paths);
      forall k, j | 0 <= k < n && 0 <= j < |fgs[k].paths| ensures !AnyBreak(TracePairs(g, fgs[k].paths[j].path)) {
        if k < n - 1 {
          assert fgs[k] == pre[k];
        }
      }
    }
  }
}
