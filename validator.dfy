/**
 * validator.py `Validator`: the configuration it is given, the descriptor
 * store it fills, the process-wide event log, and the staged validation of
 * services and functions.  The schema validator, `build_descriptor_id`,
 * the search for function descriptors on disk (`list_files` followed by
 * `read_descriptor_files`) and networkx's `simple_cycles` are outside
 * functions the validator is built with.
 */
module Validation {
  import opened Wrappers
  import opened Dicts
  import opened Events
  import opened Content
  import opened Folds
  import opened Links
  import opened Units
  import opened Descriptors
  import opened FunctionQueries
  import opened Functions
  import opened Graphs
  import opened FunctionGraphs
  import opened Configs
  import opened FunctionStages
  import opened ServiceQueries
  import opened ForwardingGraphs
  import opened ServiceGraphs
  import opened Services
  import opened ServiceStages
  import opened Storage
  import opened IntegrityStage
  import opened TopologyStage

  /** Every function in `es` is the function `fs` stores under its key. */
  ghost predicate HeldBy(fs: Dict<string, Function>, es: seq<(string, Function)>) {
    forall j | 0 <= j < |es| :: fs.Get(es[j].0) == Some(es[j].1)
  }

  /** Where the loop over the functions `es` stands after `i` of them. */
  ghost predicate ChecksReached(es: seq<(string, Function)>, sid: string,
                                validate: ((FunctionState, Option<Content>)) -> Step<FunctionState>,
                                ins: seq<(FunctionState, Option<Content>)>, i: nat, ok: bool,
                                ev0: seq<Event>, events: seq<Event>)
    reads FunctionObjects(es), DescObjects(es)
  {
    RunReached(sid, validate, ins, i, ok, ev0, events, Inputs(es))
  }

  /** Every function state in `ins` keeps its invariant. */
  ghost predicate StatesValid(ins: seq<(FunctionState, Option<Content>)>) {
    forall k | 0 <= k < |ins| :: ins[k].0.Valid()
  }

  /** The objects that validating the functions in `es` may change. */
  function Moved(es: seq<(string, Function)>): set<object> {
    (set k | 0 <= k < |es| :: es[k].1 as object) + (set k | 0 <= k < |es| :: es[k].1.desc as object)
  }

  /** A service is none of those objects. */
  lemma ServiceNotMoved(es: seq<(string, Function)>, s: Service)
    ensures s !in Moved(es)
  {
  }

  /** Among functions stored by their descriptors' ids, a held function
      sharing a stored function's descriptor is that function; so the
      descriptor of a stored function that is not held is not moved. */
  lemma DescMovedWithFunction(fs: Dict<string, Function>, es: seq<(string, Function)>, j: nat)
    requires fs.Valid() && j < |fs.entries| && HeldBy(fs, es)
    requires forall i | 0 <= i < |fs.entries| :: fs.entries[i].1.desc.id == fs.entries[i].0
    requires forall k | 0 <= k < |es| :: es[k].1.desc.id == es[k].0
    ensures fs.entries[j].1 !in Moved(es) ==> fs.entries[j].1.desc !in Moved(es)
  {
    GetEntry(fs, j);
    var g := fs.entries[j].1;
    forall k | 0 <= k < |es| && es[k].1.desc == g.desc ensures es[k].1 == g {
      assert fs.Get(es[k].0) == Some(es[k].1);
    }
  }

  /** Nor is a validator. */
  lemma ValidatorNotMoved(es: seq<(string, Function)>, v: Validator)
    ensures v !in Moved(es)
  {
  }

  /** Nor is the store. */
  lemma StoreNotMoved(es: seq<(string, Function)>, st: DescriptorStorage)
    ensures st !in Moved(es)
  {
  }

  /** A descriptor of another kind is none of those objects. */
  lemma NotMoved(es: seq<(string, Function)>, d: Descriptor)
    requires forall k | 0 <= k < |es| :: es[k].1.desc.kind == FunctionDoc
    requires d.kind != FunctionDoc
    ensures d !in Moved(es)
  {
  }

  /** The part of `_validate_service_integrity` after the load, on
      values: the functions `ins` validated by `validate` in turn up to the
      first invalid one, leaving them at `cur` (what `RunDone` says); an
      invalid one ends the stage, after which nothing more is logged;
      otherwise the service checks run on `sv`, the service holding those
      states, leaving the service at `after`. */
  ghost predicate ChecksOutcome(sid: string, validate: ((FunctionState, Option<Content>)) -> Step<FunctionState>,
                                c: Content, ins: seq<(FunctionState, Option<Content>)>, passed: bool,
                                ev0: seq<Event>, evLoop: seq<Event>, cur: seq<(FunctionState, Option<Content>)>,
                                sv: ServiceState, ok: bool, after: ServiceState, events: seq<Event>)
  {
    RunDone(sid, validate, ins, passed, ev0, evLoop, cur) &&
    (!passed ==> !ok && events == evLoop) &&
    (passed ==> var r := ServiceChecks(sv, c); ok == r.ok && after == r.state && events == evLoop + r.events)
  }

  /** What `_validate_service_integrity` did, on values: whether the
      functions were found, the inputs the held functions were validated
      from, whether they all passed, the log after that loop, the inputs
      they were left at, the service the checks ran on, the verdict, the
      service it left and the log it left. */
  datatype IntegrityTrace = IntegrityTrace(
    found: bool, ins: seq<(FunctionState, Option<Content>)>, passed: bool, evLoop: seq<Event>,
    cur: seq<(FunctionState, Option<Content>)>, sv: ServiceState, ok: bool, after: ServiceState, events: seq<Event>)

  /** The functions a service holds, as states and contents under their
      ids, and its aliases. */
  function HeldOf(s: Service): Held
    reads s, FunctionObjects(s.functions.entries), DescObjects(s.functions.entries)
  {
    Held(Dict(StatesOf(s.functions.entries)), s.vnfIdMap)
  }

  /** The states and contents held, in order. */
  function HeldInputs(hs: seq<(string, (FunctionState, Option<Content>))>): (ins: seq<(FunctionState, Option<Content>)>)
    ensures |ins| == |hs| && forall i | 0 <= i < |hs| :: ins[i] == hs[i].1
    decreases |hs|
  {
    if |hs| == 0 then [] else HeldInputs(hs[..|hs| - 1]) + [hs[|hs| - 1].1]
  }

  /** Each held key with the state at the same position of `cur`. */
  function Settled(hs: seq<(string, (FunctionState, Option<Content>))>, cur: seq<(FunctionState, Option<Content>)>)
    : (r: seq<(string, FunctionState)>)
    requires |cur| == |hs|
    ensures |r| == |hs| && forall i | 0 <= i < |hs| :: r[i] == (hs[i].0, cur[i].0)
    decreases |hs|
  {
    if |hs| == 0 then []
    else
      var n := |hs| - 1;
      Settled(hs[..n], cur[..n]) + [(hs[n].0, cur[n].0)]
  }

  /** The states and contents of the functions `es`, under their keys, are
      their inputs. */
  lemma StatesAsInputs(es: seq<(string, Function)>)
    ensures HeldInputs(StatesOf(es)) == Inputs(es)
  {
  }

  /** The values of the functions `es`, under the keys of `hs`, are the
      states of their inputs. */
  lemma ViewsAsSettled(es: seq<(string, Function)>, hs: seq<(string, (FunctionState, Option<Content>))>)
    requires |hs| == |es| && forall i | 0 <= i < |es| :: hs[i].0 == es[i].0
    ensures ViewsOf(es) == Settled(hs, Inputs(es))
  {
  }

  /** The service the checks of `_validate_service_integrity` run on, once
      `_load_service_functions` left it holding `h`: the held functions are
      validated from their states and contents in `h`, in order, and the
      service holds them, under the same keys, at the states `cur` they
      were left at, with the aliases of `h`. */
  ghost predicate LoadedInto(sid: string, h: Held, t: IntegrityTrace) {
    t.ins == HeldInputs(h.functions.entries) && t.sv.id == sid && t.sv.vnfIdMap == h.aliases &&
    |t.cur| == |h.functions.entries| && t.sv.functions == Dict(Settled(h.functions.entries, t.cur))
  }

  /** The service `sid` with descriptor state `d` holding `h`: each held
      function under its key at its state, and the aliases of `h`. */
  function HeldState(sid: string, d: DescState, h: Held): ServiceState
  {
    ServiceState(sid, d, Dict(Settled(h.functions.entries, HeldInputs(h.functions.entries))), h.aliases)
  }

  /** A service reads as the state of what it holds. */
  lemma ViewAsHeld(s: Service)
    ensures s.View() == HeldState(s.desc.id, s.desc.View(), HeldOf(s))
  {
    var es := s.functions.entries;
    StatesAsInputs(es);
    ViewsAsSettled(es, StatesOf(es));
  }

  /** What `_load_service_functions` leaves a service holding `h0` with,
      the store holding `stored0`: once a search path is set and the
      service declares its functions, what `LoadStep` run over the
      declared functions gives, up to the first one missing; otherwise
      `h0`. */
  function LoadedHeld(dpath: string, nfs: Option<seq<NfDecl>>, files: Dict<string, Content>,
                      idOf: Content -> string, buildId: (string, string, string) -> string,
                      stored0: Dict<string, (FunctionState, Option<Content>)>, h0: Held): Held
  {
    if dpath != "" && nfs.Some? then Run(LoadStep(idOf, buildId, files, stored0), h0, nfs.value).state else h0
  }

  /** `_validate_service_integrity` on the service `sid` with content `c`
      and descriptor state `d0`, the log being `ev0`, the store holding
      functions whose states and contents are `stored0` and the service
      holding `h0`: when a declared function has no descriptor among
      `files` the stage fails, reporting the functions unavailable, and
      the service keeps the functions and aliases the load got to
      (`LoadedHeld`); otherwise the service holds what `LoadStep` run over the declared
      functions gives, those functions are validated and the service
      checks run on the service holding them, with its descriptor as it
      was (`ChecksOutcome`). */
  ghost predicate IntegrityOutcome(cfg: Config, schemaOk: (DocKind, Content) -> bool, files: Dict<string, Content>,
                                   idOf: Content -> string, buildId: (string, string, string) -> string,
                                   stored0: Dict<string, (FunctionState, Option<Content>)>, h0: Held,
                                   sid: string, c: Content, d0: DescState, ev0: seq<Event>, t: IntegrityTrace)
  {
    var r := FunctionsFound(sid, cfg.dpath, c.networkFunctions, files, buildId);
    t.found == r.ok &&
    (!t.found ==>
       !t.ok && t.events == ev0 + r.events + [Event(sid, NsdItgFunctionUnavailable)] &&
       t.after == HeldState(sid, d0, LoadedHeld(cfg.dpath, c.networkFunctions, files, idOf, buildId, stored0, h0))) &&
    (t.found ==>
       c.networkFunctions.Some? &&
       LoadedInto(sid, Run(LoadStep(idOf, buildId, files, stored0), h0, c.networkFunctions.value).state, t) &&
       t.sv == t.after.(d := d0) &&
       ChecksOutcome(sid, Validated(cfg, schemaOk), c, t.ins, t.passed, ev0 + r.events, t.evLoop, t.cur, t.sv,
                     t.ok, t.after, t.events))
  }

  /** `validate_service` past the creation of the service, for a
      configuration `_assert_configuration` accepts: the syntax stage,
      then integrity when enabled, then topology when enabled, the first
      failing stage ending the validation with a failure.  `fw0` and `fw`
      are the service's forwarding graphs before and after, `cycles` the
      cycles the topology stage found. */
  ghost predicate ServiceOutcome(cfg: Config, schemaOk: (DocKind, Content) -> bool, files: Dict<string, Content>,
                                 idOf: Content -> string, buildId: (string, string, string) -> string,
                                 cyclesOf: DiGraph -> seq<seq<string>>,
                                 stored0: Dict<string, (FunctionState, Option<Content>)>, h0: Held,
                                 sid: string, c: Content, d0: DescState, fw0: seq<FwGraph>, ev0: seq<Event>,
                                 t: IntegrityTrace, ok: bool, cycles: seq<seq<seq<EdgeData>>>, fw: seq<FwGraph>,
                                 events: seq<Event>)
  {
    if !schemaOk(ServiceDoc, c) then
      !ok && events == ev0 + [Event(sid, NsdStxInvalid)] && fw == fw0 && cycles == []
    else if !cfg.integrity then
      ok && events == ev0 && fw == fw0 && cycles == []
    else
      IntegrityOutcome(cfg, schemaOk, files, idOf, buildId, stored0, h0, sid, c, d0, ev0, t) &&
      TopologyOutcome(cfg, cyclesOf, c, fw0, t, ok, cycles, fw, events)
  }

  /** A failed load, as values, is what `IntegrityOutcome` allows. */
  lemma UnavailableOutcome(cfg: Config, schemaOk: (DocKind, Content) -> bool, files: Dict<string, Content>,
                           idOf: Content -> string, buildId: (string, string, string) -> string,
                           stored0: Dict<string, (FunctionState, Option<Content>)>, h0: Held,
                           sid: string, c: Content, d0: DescState, ev0: seq<Event>, t: IntegrityTrace)
    requires var r := FunctionsFound(sid, cfg.dpath, c.networkFunctions, files, buildId);
      !r.ok && !t.found && !t.ok && t.events == ev0 + r.events + [Event(sid, NsdItgFunctionUnavailable)]
    requires t.after == HeldState(sid, d0, LoadedHeld(cfg.dpath, c.networkFunctions, files, idOf, buildId, stored0, h0))
    ensures IntegrityOutcome(cfg, schemaOk, files, idOf, buildId, stored0, h0, sid, c, d0, ev0, t)
  {
  }

  /** What follows `_validate_service_integrity` in `validate_service`:
      when it failed, or topology is disabled, the validation ends with its
      verdict; otherwise the topology stage runs on the service it left. */
  ghost predicate TopologyOutcome(cfg: Config, cyclesOf: DiGraph -> seq<seq<string>>, c: Content, fw0: seq<FwGraph>,
                                  t: IntegrityTrace, ok: bool, cycles: seq<seq<seq<EdgeData>>>, fw: seq<FwGraph>,
                                  events: seq<Event>)
  {
    if !t.ok || !cfg.topology then
      ok == t.ok && events == t.events && fw == fw0 && cycles == []
    else
      t.after.Closed() &&
      var r := ServiceTopology(t.after, fw0, c, cyclesOf);
      ok == r.ok && fw == r.state.fwGraphs && cycles == r.state.cycles && events == t.events + r.events
  }

  /** Functions and descriptors that did not change give the same
      inputs and views. */
  twostate lemma HeldKept(es: seq<(string, Function)>)
    requires unchanged(FunctionObjects(es))
    requires unchanged(DescObjects(es))
    ensures Inputs(es) == old(Inputs(es)) && ViewsOf(es) == old(ViewsOf(es)) && StatesOf(es) == old(StatesOf(es))
  {
    forall k | 0 <= k < |es| ensures es[k].1.View() == old(es[k].1.View()) {
      assert FunctionObjects(es)[k] == es[k].1 && DescObjects(es)[k] == es[k].1.desc;
      assert es[k].1 in FunctionObjects(es) && es[k].1.desc in DescObjects(es);
      es[k].1.ViewKept();
    }
  }

  /** No two entries share a function object or a descriptor. */
  ghost predicate Apart(es: seq<(string, Function)>) {
    forall i, k | 0 <= i < |es| && 0 <= k < |es| && i != k :: es[i].1 != es[k].1 && es[i].1.desc != es[k].1.desc
  }

  /** Storing a function under a new id keeps every held function stored. */
  lemma HeldAfterPut(fs: Dict<string, Function>, es: seq<(string, Function)>, k: string, f: Function)
    requires HeldBy(fs, es) && !fs.HasKey(k)
    ensures HeldBy(fs.Put(k, f), es)
  {
    forall j | 0 <= j < |es| ensures fs.Put(k, f).Get(es[j].0) == Some(es[j].1) {
      GetSomeHasKey(fs, es[j].0);
      GetPut(fs, k, f, es[j].0);
    }
  }

  /** A function stored under its key may join the held ones. */
  lemma HeldSnoc(fs: Dict<string, Function>, es: seq<(string, Function)>, k: string, f: Function)
    requires HeldBy(fs, es) && fs.Get(k) == Some(f)
    ensures HeldBy(fs, es + [(k, f)])
  {
    forall j | 0 <= j < |es| + 1 ensures fs.Get((es + [(k, f)])[j].0) == Some((es + [(k, f)])[j].1) {
      if j < |es| {
        assert (es + [(k, f)])[j] == es[j];
      }
    }
  }

  /** One turn of the load keeps the store's record: a function not yet
      held reads as before the load, and every function stored before the
      load stays stored. */
  lemma LoadStepKeeps(s0: Dict<string, Function>, s1: Dict<string, Function>, s2: Dict<string, Function>,
                      h: Held, h': Held, id: string, f: Function)
    requires KeysWithin(h.functions, h'.functions) && h'.functions.HasKey(id)
    requires forall k | !h.functions.HasKey(k) :: s1.Get(k) == s0.Get(k)
    requires forall k | s0.HasKey(k) :: s1.Get(k) == s0.Get(k)
    requires s1.HasKey(id) ==> s2 == s1
    requires !s1.HasKey(id) ==> s2 == s1.Put(id, f)
    ensures forall k | !h'.functions.HasKey(k) :: s2.Get(k) == s0.Get(k)
    ensures forall k | s0.HasKey(k) :: s2.Get(k) == s0.Get(k)
  {
    forall k | !h'.functions.HasKey(k) || s0.HasKey(k) ensures s2.Get(k) == s0.Get(k) {
      GetPut(s1, id, f, k);
      if k == id {
        GetSomeHasKey(s0, k);
        GetSomeHasKey(s1, k);
      }
    }
  }

  /** A function the store gained reads differently from before, so the
      service holds it. */
  lemma GainedHeld(s0: Dict<string, Function>, s: Dict<string, Function>, fs: Dict<string, Function>)
    requires forall k | !Dict(StatesOf(fs.entries)).HasKey(k) :: s.Get(k) == s0.Get(k)
    ensures forall k | s.HasKey(k) && !s0.HasKey(k) :: fs.HasKey(k)
  {
    forall k | s.HasKey(k) && !s0.HasKey(k) ensures fs.HasKey(k) {
      GetSomeHasKey(s, k);
      GetSomeHasKey(s0, k);
      StatesOfGet(fs, k);
    }
  }

  class Validator {
    /** `_syntax`, `_integrity`, `_topology`, `_custom`, `_dpath`,
        `_dext` and `_cfile`. */
    var cfg: Config
    const storage: DescriptorStorage
    /** `evtLOG`. */
    const log: EventLog
    /** `SchemaValidator.validate`: whether the content fits the schema of
        its kind. */
    const schemaOk: (DocKind, Content) -> bool
    /** `build_descriptor_id(vendor, name, version)`. */
    const buildId: (string, string, string) -> string
    /** The function descriptors found under a search path with an
        extension, keyed by their id. */
    const readFunctions: (string, string) -> Dict<string, Content>
    /** `nx.simple_cycles`. */
    const simpleCycles: DiGraph -> seq<seq<string>>

    /** The stored function objects and their descriptors. */
    function StoredFunctions(): set<object>
      reads storage
    {
      (set i | 0 <= i < |storage.functions.entries| :: storage.functions.entries[i].1 as object) +
      (set i | 0 <= i < |storage.functions.entries| :: storage.functions.entries[i].1.desc as object)
    }

    /** The stored service objects and their descriptors. */
    function StoredServices(): set<object>
      reads storage
    {
      (set i | 0 <= i < |storage.services.entries| :: storage.services.entries[i].1 as object) +
      (set i | 0 <= i < |storage.services.entries| :: storage.services.entries[i].1.desc as object)
    }

    /** The store is consistent, every stored object keeps its own
        invariant, and every function a stored service holds is the
        function stored under its id. */
    ghost predicate Valid()
      reads storage, StoredFunctions(), StoredServices()
    {
      storage.Valid() && FunctionsValid() && ServicesValid()
    }

    ghost predicate FunctionsValid()
      reads storage, StoredFunctions()
    {
      forall i | 0 <= i < |storage.functions.entries| :: storage.functions.entries[i].1.Valid()
    }

    ghost predicate ServicesValid()
      reads storage, StoredServices()
    {
      forall i | 0 <= i < |storage.services.entries| ::
        storage.services.entries[i].1.Valid() &&
        HeldBy(storage.functions, storage.services.entries[i].1.functions.entries)
    }

    /** A function, its descriptor and the log are none of the stored
        services' objects. */
    lemma ApartFromServices(f: Function)
      requires storage.Valid() && f.desc.kind == FunctionDoc
      ensures f !in StoredServices() && f.desc !in StoredServices() && log !in StoredServices()
    {
      forall i | 0 <= i < |storage.services.entries| ensures storage.services.entries[i].1.desc != f.desc {
        assert storage.services.entries[i].1.desc.kind == ServiceDoc;
      }
    }

    /** Stored services whose objects did not change keep their
        invariant. */
    twostate lemma ServicesKept()
      requires old(ServicesValid()) && unchanged(storage) && unchanged(old(StoredServices()))
      ensures ServicesValid()
    {
    }

    /** When only one stored function and its descriptor changed, and that
        function keeps its invariant, every stored function does. */
    twostate lemma FunctionsKept(f: Function)
      requires old(FunctionsValid()) && old(storage.Valid()) && unchanged(storage)
      requires old(storage.functions.Get(f.desc.id)) == Some(f) && f.Valid()
      requires forall o | o in old(StoredFunctions()) && o != f && o != f.desc :: unchanged(o)
      ensures FunctionsValid()
    {
      forall i | 0 <= i < |storage.functions.entries| ensures storage.functions.entries[i].1.Valid() {
        var g := storage.functions.entries[i].1;
        if g != f {
          GetEntry(storage.functions, i);
          assert g in old(StoredFunctions()) && g.desc in old(StoredFunctions());
        }
      }
    }

    /** Appending a new function, valid itself, to the store keeps every
        stored function valid and adds only that function and its
        descriptor to the stored objects. */
    twostate lemma FunctionsAfterStore(new f: Function)
      requires old(FunctionsValid()) && unchanged(old(StoredFunctions())) && f.Valid()
      requires storage.functions.entries == old(storage.functions.entries) + [(f.desc.id, f)]
      ensures FunctionsValid() && old(StoredFunctions()) <= StoredFunctions()
      ensures forall o | o in StoredFunctions() :: o in old(StoredFunctions()) || o == f || o == f.desc
    {
      var n := |old(storage.functions.entries)|;
      forall o | o in old(StoredFunctions()) ensures o in StoredFunctions() {
        var i :| 0 <= i < n &&
          (o == old(storage.functions.entries)[i].1 || o == old(storage.functions.entries)[i].1.desc);
        assert storage.functions.entries[i] == old(storage.functions.entries)[i];
      }
      forall i | 0 <= i < n ensures storage.functions.entries[i].1.Valid() {
        assert storage.functions.entries[i] == old(storage.functions.entries)[i];
        assert storage.functions.entries[i].1 in old(StoredFunctions());
        assert storage.functions.entries[i].1.desc in old(StoredFunctions());
      }
      forall o | o in StoredFunctions() ensures o in old(StoredFunctions()) || o == f || o == f.desc {
        var i :| 0 <= i < |storage.functions.entries| &&
          (o == storage.functions.entries[i].1 || o == storage.functions.entries[i].1.desc);
        if i < n {
          assert storage.functions.entries[i] == old(storage.functions.entries)[i];
        }
      }
    }

    /** Storing a function under a new id leaves every stored service valid
        and holding stored functions. */
    twostate lemma ServicesAfterStore(new f: Function)
      requires old(ServicesValid()) && unchanged(old(StoredServices()))
      requires storage.services == old(storage.services)
      requires !old(storage.functions).HasKey(f.desc.id)
      requires storage.functions == old(storage.functions).Put(f.desc.id, f)
      ensures ServicesValid()
    {
      forall i | 0 <= i < |storage.services.entries|
        ensures storage.services.entries[i].1.Valid() &&
          HeldBy(storage.functions, storage.services.entries[i].1.functions.entries)
      {
        var s := storage.services.entries[i].1;
        assert s in old(StoredServices()) && s.desc in old(StoredServices());
        HeldAfterPut(old(storage.functions), s.functions.entries, f.desc.id, f);
      }
    }

    /** The log is none of the stored objects, and those are allocated. */
    lemma LogApart()
      ensures log !in StoredFunctions() && log !in StoredServices()
      ensures forall o | o in StoredServices() :: allocated(o)
      ensures forall o | o in StoredFunctions() :: allocated(o)
    {
    }

    /** The stored objects are allocated. */
    lemma StoredAllocated()
      ensures forall o | o in StoredServices() :: allocated(o)
      ensures forall o | o in StoredFunctions() :: allocated(o)
    {
    }

    /** When only one stored service and its descriptor changed, the
        service keeping its invariant and holding stored functions, every
        stored service does. */
    twostate lemma ServicesKeptBut(service: Service)
      requires old(ServicesValid()) && old(storage.Valid()) && unchanged(storage)
      requires old(storage.services.Get(service.desc.id)) == Some(service)
      requires service.Valid() && HeldBy(storage.functions, service.functions.entries)
      requires unchanged(old(StoredServices()) - {service, service.desc})
      ensures ServicesValid()
    {
      forall i | 0 <= i < |storage.services.entries|
        ensures storage.services.entries[i].1.Valid() &&
          HeldBy(storage.functions, storage.services.entries[i].1.functions.entries)
      {
        var s := storage.services.entries[i].1;
        if s != service {
          GetEntry(storage.services, i);
          assert s in old(StoredServices()) && s.desc in old(StoredServices());
          assert s.desc != service.desc;
        }
      }
    }

    /** While the store and every stored function are unchanged, the stored
        functions keep their invariant. */
    twostate lemma FunctionsKeptAll()
      requires old(FunctionsValid()) && unchanged(storage) && unchanged(old(StoredFunctions()))
      ensures FunctionsValid()
    {
    }

    /** The service is the one stored under its id. */
    predicate Stored(service: Service)
      reads storage
    {
      storage.services.Get(service.desc.id) == Some(service)
    }

    /** A stored service keeps its invariant and holds stored functions. */
    lemma StoredServiceValid(service: Service)
      requires Valid() && Stored(service)
      ensures service.Valid() && HeldBy(storage.functions, service.functions.entries)
      ensures service.desc.kind == ServiceDoc && service.desc.content.Some?
      ensures service in StoredServices() && service.desc in StoredServices()
    {
      GetEntryOf(storage.services, service.desc.id);
    }

    /** A stored function keeps its invariant and its descriptor's id is the
        one its content yields. */
    lemma StoredFunctionValid(f: Function)
      requires Valid() && storage.functions.Get(f.desc.id) == Some(f)
      ensures f.Valid() && f.desc.kind == FunctionDoc && f.desc.id == storage.DescriptorId(f.desc.content)
      ensures f in StoredFunctions() && f.desc in StoredFunctions()
    {
      GetEntryOf(storage.functions, f.desc.id);
    }

    /** What validating a function file may change: the stored function its
        content resolves to, and that function's descriptor. */
    function Touched(file: DescriptorFile): set<object>
      reads storage
    {
      if file.Missing? then {}
      else
        var f := storage.GetFunction(storage.DescriptorId(file.content));
        if f == null then {} else {f, f.desc}
    }

    /** `Validator.__init__`: every stage but the custom rules enabled, the
        current directory as search path and rules file, the workspace's
        default extension, an empty store and a reset event log. */
    constructor(defaultExt: string, idOf: Content -> string, schemaOk: (DocKind, Content) -> bool,
                buildId: (string, string, string) -> string,
                readFunctions: (string, string) -> Dict<string, Content>,
                simpleCycles: DiGraph -> seq<seq<string>>)
      ensures cfg == Config(true, true, true, false, ".", defaultExt, ".")
      ensures fresh(storage) && fresh(log) && log.events == []
      ensures storage.idOf == idOf && storage.packages == Empty() && storage.services == Empty() &&
        storage.functions == Empty()
      ensures this.schemaOk == schemaOk && this.buildId == buildId && this.readFunctions == readFunctions &&
        this.simpleCycles == simpleCycles
      ensures Valid()
    {
      cfg := Config(true, true, true, false, ".", defaultExt, ".");
      storage := new DescriptorStorage(idOf);
      log := new EventLog();
      this.schemaOk := schemaOk;
      this.buildId := buildId;
      this.readFunctions := readFunctions;
      this.simpleCycles := simpleCycles;
    }

    /** `configure`: every setting given replaces the current one; the
        others stay. */
    method Configure(syntax: Option<bool>, integrity: Option<bool>, topology: Option<bool>, custom: Option<bool>,
                     dpath: Option<string>, dext: Option<string>, cfile: Option<string>)
      modifies this`cfg
      ensures cfg == Config(
        syntax.GetOr(old(cfg).syntax), integrity.GetOr(old(cfg).integrity), topology.GetOr(old(cfg).topology),
        custom.GetOr(old(cfg).custom), dpath.GetOr(old(cfg).dpath), dext.GetOr(old(cfg).dext),
        cfile.GetOr(old(cfg).cfile))
    {
      cfg := Config(
        syntax.GetOr(cfg.syntax), integrity.GetOr(cfg.integrity), topology.GetOr(cfg.topology),
        custom.GetOr(cfg.custom), dpath.GetOr(cfg.dpath), dext.GetOr(cfg.dext), cfile.GetOr(cfg.cfile));
    }

    // ------------------------------------------------------- functions

    /** `validate_function` on one file: a missing file logs an event and
        fails; otherwise the function is stored (or the one already stored
        under the same id is taken) and its stages run on it, the first
        failing one ending the validation with a failure. */
    method ValidateFunction(path: string, file: DescriptorFile) returns (ok: bool)
      requires Valid()
      modifies storage`functions, log, Touched(file)
      ensures Valid() && storage.services == old(storage.services)
      ensures forall o | o in StoredFunctions() :: o in old(StoredFunctions()) || fresh(o)
      ensures file.Missing? ==>
        !ok && storage.functions == old(storage.functions) &&
        log.events == old(log.events) + [Event(path, FunctionInvalidDescriptor)]
      ensures file.Present? ==>
        var id := storage.DescriptorId(file.content);
        var f := storage.GetFunction(id);
        f != null && f.desc.id == id &&
        (old(storage.functions.HasKey(id)) ==> storage.functions == old(storage.functions)) &&
        (!old(storage.functions.HasKey(id)) ==>
          fresh(f) && f.desc.content == file.content && storage.functions == old(storage.functions).Put(id, f)) &&
        var r := FunctionValidation(cfg, schemaOk,
          if old(storage.functions.HasKey(id)) then old(storage.GetFunction(id).View())
          else FunctionState(id, EmptyState(), Empty()),
          f.desc.content);
        ok == r.ok && f.View() == r.state && log.events == old(log.events) + r.events
    {
      if file.Missing? {
        log.Log(path, FunctionInvalidDescriptor);
        return false;
      }
      ok := ValidateContent(file.content);
    }

    /** The same, for a file that was read. */
    method ValidateContent(content: Option<Content>) returns (ok: bool)
      requires Valid()
      modifies storage`functions, log, Touched(Present(content))
      ensures Valid() && storage.services == old(storage.services)
      ensures forall o | o in StoredFunctions() :: o in old(StoredFunctions()) || fresh(o)
      ensures var id := storage.DescriptorId(content);
        var f := storage.GetFunction(id);
        f != null && f.desc.id == id &&
        (old(storage.functions.HasKey(id)) ==> storage.functions == old(storage.functions)) &&
        (!old(storage.functions.HasKey(id)) ==>
          fresh(f) && f.desc.content == content && storage.functions == old(storage.functions).Put(id, f)) &&
        var r := FunctionValidation(cfg, schemaOk,
          if old(storage.functions.HasKey(id)) then old(storage.GetFunction(id).View())
          else FunctionState(id, EmptyState(), Empty()),
          f.desc.content);
        ok == r.ok && f.View() == r.state && log.events == old(log.events) + r.events
    {
      ghost var id := storage.DescriptorId(content);
      ghost var g := storage.GetFunction(id);
      var f := StoreFunction(Present(content));
      assert g != null ==> f == g;
      ok := ValidateStored(f);
    }

    /** `create_function` followed by what keeps the validator's invariant:
        a new function is stored under a new id, so every function a
        service holds stays stored. */
    method StoreFunction(file: DescriptorFile) returns (f: Function?)
      requires Valid()
      modifies storage`functions
      ensures Valid() && storage.services == old(storage.services)
      ensures unchanged(old(StoredFunctions())) && old(StoredFunctions()) <= StoredFunctions()
      ensures forall o | o in StoredFunctions() :: o in old(StoredFunctions()) || fresh(o)
      ensures file.Missing? ==> f == null && storage.functions == old(storage.functions)
      ensures file.Present? ==>
        f != null && f.desc.id == storage.DescriptorId(file.content) && storage.functions.Get(f.desc.id) == Some(f) &&
        f.desc.kind == FunctionDoc
      ensures file.Present? && old(storage.functions.HasKey(storage.DescriptorId(file.content))) ==>
        storage.functions == old(storage.functions)
      ensures file.Present? && !old(storage.functions.HasKey(storage.DescriptorId(file.content))) ==>
        fresh(f) && fresh(f.desc) && f.desc.content == file.content &&
        f.View() == FunctionState(f.desc.id, EmptyState(), Empty()) &&
        storage.functions == old(storage.functions).Put(f.desc.id, f)
    {
      if file.Missing? || !storage.functions.HasKey(storage.DescriptorId(file.content)) {
        f := StoreNewFunction(file);
      } else {
        f := StoreKnownFunction(file);
      }
    }

    /** `create_function` for a file whose id is not stored yet. */
    method StoreNewFunction(file: DescriptorFile) returns (f: Function?)
      requires Valid()
      requires file.Present? ==> !storage.functions.HasKey(storage.DescriptorId(file.content))
      modifies storage`functions
      ensures Valid() && storage.services == old(storage.services)
      ensures unchanged(old(StoredFunctions())) && old(StoredFunctions()) <= StoredFunctions()
      ensures forall o | o in StoredFunctions() :: o in old(StoredFunctions()) || fresh(o)
      ensures file.Missing? ==> f == null && storage.functions == old(storage.functions)
      ensures file.Present? ==>
        f != null && fresh(f) && fresh(f.desc) && f.desc.id == storage.DescriptorId(file.content) &&
        f.desc.kind == FunctionDoc && f.desc.content == file.content &&
        f.View() == FunctionState(f.desc.id, EmptyState(), Empty()) &&
        storage.functions.Get(f.desc.id) == Some(f) && storage.functions == old(storage.functions).Put(f.desc.id, f)
    {
      ghost var fs0 := storage.functions;
      f := storage.CreateFunction(file);
      if file.Present? {
        PutShape(fs0, f.desc.id, f);
        FunctionsAfterStore(f);
        ServicesAfterStore(f);
      }
    }

    /** `create_function` for a file whose id is stored: the stored
        function is returned and nothing changes. */
    method StoreKnownFunction(file: DescriptorFile) returns (f: Function?)
      requires Valid() && file.Present? && storage.functions.HasKey(storage.DescriptorId(file.content))
      modifies storage`functions
      ensures Valid() && storage.services == old(storage.services)
      ensures storage.functions == old(storage.functions) && StoredFunctions() == old(StoredFunctions())
      ensures unchanged(old(StoredFunctions()))
      ensures f != null && f.desc.id == storage.DescriptorId(file.content) &&
        storage.functions.Get(f.desc.id) == Some(f) && f.desc.kind == FunctionDoc
    {
      f := storage.CreateFunction(file);
      StoreKept();
    }

    /** When the store and its objects did not change, neither did the
        invariant or the stored objects. */
    twostate lemma StoreKept()
      requires old(Valid()) && unchanged(storage)
      requires unchanged(old(StoredFunctions())) && unchanged(old(StoredServices()))
      ensures Valid() && StoredFunctions() == old(StoredFunctions())
    {
      ServicesKept();
    }

    /** The stages on a stored function; its own objects are the only ones
        they change, so the invariant holds after. */
    method ValidateStored(f: Function) returns (ok: bool)
      requires Valid() && storage.functions.Get(f.desc.id) == Some(f)
      modifies f, f.desc, log
      ensures Valid()
      ensures var r := FunctionValidation(cfg, schemaOk, old(f.View()), f.desc.content);
        ok == r.ok && f.View() == r.state && log.events == old(log.events) + r.events
    {
      StoredFunctionValid(f);
      ApartFromServices(f);
      ok := FunctionStagesOf(f);
      FunctionsKept(f);
      ServicesKept();
    }

    /** The checks of `_validate_function_integrity` after the loads. */
    method FunctionChecksStage(f: Function) returns (ok: bool)
      modifies log
      ensures var k := IntegrityChecks(f.View()); ok == k.ok && log.events == old(log.events) + k.events
    {
      var s := f.View();
      var undeclared := Undeclared(s);
      if undeclared != [] {
        log.LogEach(undeclared, s.id, VnfdItgUndeclaredCpoint);
        return false;
      }
      log.LogEach(UnusedConnectionPoints(s.d), s.id, VnfdItgUnusedCpoint);
      if SearchDuplicatePorts(s) != [] {
        log.Log(s.id, VnfdItgDuplicatedPorts);
        return false;
      }
      return true;
    }

    /** `_validate_function_integrity`: each load in turn, the first that
        fails logging its event and ending the stage, then the checks. */
    method FunctionIntegrityStage(f: Function) returns (ok: bool)
      requires f.desc.content.Some? && f.units.Valid()
      modifies f, f.desc, log
      ensures var r := FunctionIntegrity(old(f.View()), f.desc.content.value);
        ok == r.ok && f.View() == r.state && log.events == old(log.events) + r.events
    {
      ghost var ev0 := log.events;
      ok := f.desc.LoadConnectionPoints(log);
      if !ok {
        log.Log(f.desc.id, VnfdItgBadsectionCpoints);
        return;
      }
      ghost var ev1 := log.events;
      ok := UnitsStage(f);
      AppendAssoc(ev0, ev1[|ev0|..], log.events[|ev1|..]);
    }

    /** The rest of the stage once the connection points are loaded. */
    method UnitsStage(f: Function) returns (ok: bool)
      requires f.desc.content.Some? && f.units.Valid()
      modifies f, f.desc, log
      ensures var r := IntegrityFromUnits(old(f.View()), f.desc.content.value);
        ok == r.ok && f.View() == r.state && log.events == old(log.events) + r.events
    {
      LoadUnitsShape(f.units, f.desc.content.value);
      ok := f.LoadUnits();
      if !ok {
        log.Log(f.desc.id, VnfdItgBadsectionVdus);
        return;
      }
      ok := UnitCpsStage(f);
    }

    /** The rest of the stage once the units are loaded. */
    method UnitCpsStage(f: Function) returns (ok: bool)
      requires f.desc.content.Some?
      modifies f, f.desc, log
      ensures var r := IntegrityFromUnitCps(old(f.View()), f.desc.content.value);
        ok == r.ok && f.View() == r.state && log.events == old(log.events) + r.events
    {
      ghost var ev0 := log.events;
      ok := f.LoadUnitConnectionPoints(log);
      if !ok {
        log.Log(f.desc.id, VnfdItgVduBadsectionCpoints);
        return;
      }
      ghost var ev1 := log.events;
      ok := LinksStage(f);
      AppendAssoc(ev0, ev1[|ev0|..], log.events[|ev1|..]);
    }

    /** The rest of the stage once the units' connection points are loaded. */
    method LinksStage(f: Function) returns (ok: bool)
      requires f.desc.content.Some?
      modifies f.desc, log
      ensures var r := IntegrityFromLinks(old(f.View()), f.desc.content.value);
        ok == r.ok && f.View() == r.state && log.events == old(log.events) + r.events
    {
      ghost var ev0 := log.events;
      ok := f.desc.LoadVirtualLinks(log);
      if !ok {
        log.Log(f.desc.id, VnfdItgBadsectionVlinks);
        return;
      }
      ghost var ev1 := log.events;
      ok := FunctionChecksStage(f);
      AppendAssoc(ev0, ev1[|ev0|..], log.events[|ev1|..]);
    }

    /** `_validate_function_topology`. */
    method FunctionTopologyStage(f: Function) returns (ok: bool)
      modifies log
      ensures var t := FunctionTopology(f.View()); ok == t.ok && log.events == old(log.events) + t.events
    {
      ok := TopologyOf(f.View(), log);
    }

    static method TopologyOf(s: FunctionState, log: EventLog) returns (ok: bool)
      modifies log
      ensures var t := FunctionTopology(s); ok == t.ok && log.events == old(log.events) + t.events
    {
      ghost var ev0 := log.events;
      ghost var isolated := if DetectDisconnectedUnits(s) != [] then [Event(s.id, VnfdTopIsolatedUnits)] else [];
      ghost var unused := if DetectUnusedCpsUnits(s) != [] then [Event(s.id, VnfdTopUnnusedCpsUnit)] else [];
      log.LogIf(DetectDisconnectedUnits(s) != [], s.id, VnfdTopIsolatedUnits);
      log.LogIf(DetectUnusedCpsUnits(s) != [], s.id, VnfdTopUnnusedCpsUnit);
      ghost var ev1 := log.events;
      ok := LoopsAndGraphOf(s, log);
      ghost var rest := LoopsAndGraph(s).events;
      assert FunctionTopology(s).events == isolated + unused + rest;
      AppendAssoc(ev0, isolated, unused);
      AppendAssoc(ev0, isolated + unused, rest);
    }

    static method LoopsAndGraphOf(s: FunctionState, log: EventLog) returns (ok: bool)
      modifies log
      ensures var t := LoopsAndGraph(s); ok == t.ok && log.events == old(log.events) + t.events
    {
      if DetectLoops(s).entries != [] {
        log.Log(s.id, VnfdTopLoops);
        return false;
      }
      var g := Function.BuildGraph(s, true, 0, true);
      if g.nodes == {} {
        log.Log(s.id, VnfdTopTopgraphFailed);
        return false;
      }
      return true;
    }

    /** The stages of `validate_function` on a stored function, the first
        failing one ending the validation with a failure. */
    method FunctionStagesOf(f: Function) returns (ok: bool)
      requires f.Valid()
      modifies f, f.desc, log
      ensures var r := FunctionValidation(cfg, schemaOk, old(f.View()), f.desc.content);
        ok == r.ok && f.View() == r.state && log.events == old(log.events) + r.events
      ensures f.Valid()
    {
      if cfg.syntax && !SyntaxOk(schemaOk, FunctionDoc, f.desc.content) {
        log.Log(f.desc.id, VnfdStxInvalid);
        return false;
      }
      ok := PastSyntaxStage(f);
    }

    /** Integrity, then topology, each when enabled. */
    method PastSyntaxStage(f: Function) returns (ok: bool)
      requires f.Valid()
      modifies f, f.desc, log
      ensures var r := PastSyntax(cfg, old(f.View()), f.desc.content);
        ok == r.ok && f.View() == r.state && log.events == old(log.events) + r.events
      ensures f.Valid()
    {
      if cfg.integrity && f.desc.content.None? {
        return false;
      }
      ghost var ev0 := log.events;
      ok := IntegrityIfEnabledStage(f);
      if !ok {
        return;
      }
      ghost var ev1 := log.events;
      ok := TopologyIfEnabledStage(f);
      AppendAssoc(ev0, ev1[|ev0|..], log.events[|ev1|..]);
    }

    /** The integrity stage, when enabled. */
    method IntegrityIfEnabledStage(f: Function) returns (ok: bool)
      requires f.Valid() && (cfg.integrity ==> f.desc.content.Some?)
      modifies f, f.desc, log
      ensures var r := IntegrityIfEnabled(cfg, old(f.View()), f.desc.content);
        ok == r.ok && f.View() == r.state && log.events == old(log.events) + r.events
      ensures f.Valid()
    {
      if !cfg.integrity {
        return true;
      }
      FunctionIntegrityValid(f.View(), f.desc.content.value);
      ok := FunctionIntegrityStage(f);
    }

    /** The topology stage, when enabled. */
    method TopologyIfEnabledStage(f: Function) returns (ok: bool)
      modifies log
      ensures var r := TopologyIfEnabled(cfg, f.View()); ok == r.ok && log.events == old(log.events) + r.events
    {
      if !cfg.topology {
        return true;
      }
      ok := FunctionTopologyStage(f);
    }

    // -------------------------------------------------------- services

    /** `_load_service_functions`: the function descriptors found under the
        search path with the extension are matched, in order, against the
        functions the service declares; each one found is stored and
        associated with the service under its `vnf_id`, and the first one
        missing ends the loop with a failure. */
    method LoadServiceFunctions(service: Service) returns (ok: bool)
      requires Valid() && Stored(service) && service.desc.content.Some?
      modifies storage`functions, service`functions, service`vnfIdMap, log
      ensures Valid() && Stored(service) && storage.services == old(storage.services)
      ensures forall o | o in StoredFunctions() :: o in old(StoredFunctions()) || fresh(o)
      ensures KeysWithin(old(service.functions), service.functions)
      ensures var files := readFunctions(cfg.dpath, cfg.dext);
        var nfs := service.desc.content.value.networkFunctions;
        var r := FunctionsFound(service.desc.id, cfg.dpath, nfs, files, buildId);
        ok == r.ok && log.events == old(log.events) + r.events &&
        (ok ==> var found := FoundIds(storage.idOf, files, NfIds(buildId, nfs.value));
          found.Some? && HasKeys(service.functions, found.value))
      ensures FunctionsLoaded(service)
      ensures forall k | old(storage.functions.HasKey(k)) :: storage.functions.Get(k) == old(storage.functions.Get(k))
      ensures forall k | storage.functions.HasKey(k) && !old(storage.functions.HasKey(k)) :: service.functions.HasKey(k)
    {
      var report;
      ok, report := LoadFound(service);
      LogApart();
      label Loaded:
      log.LogIf(report, service.desc.id, NsdItgFunctionUnavailable);
      StoreKept@Loaded();
      HeldKept@Loaded(service.functions.entries);
    }

    /** What `_load_service_functions` leaves: the service holds what
        `LoadedHeld` gives from the functions stored and held before, that
        is, once a search path is set and the service declares its
        functions, the functions and aliases `LoadStep` run over the
        declared functions gives up to the first one missing; otherwise the
        service is left as it was. */
    twostate predicate FunctionsLoaded(service: Service)
      reads this, storage, service, service.desc
      reads FunctionObjects(service.functions.entries), DescObjects(service.functions.entries)
    {
      service.desc.content.Some? &&
      var files := readFunctions(cfg.dpath, cfg.dext);
      var nfs := service.desc.content.value.networkFunctions;
      HeldOf(service) ==
        LoadedHeld(cfg.dpath, nfs, files, storage.idOf, buildId, old(Dict(StatesOf(storage.functions.entries))),
                   old(HeldOf(service))) &&
      (cfg.dpath == "" || nfs.None? ==>
         service.functions == old(service.functions) && service.vnfIdMap == old(service.vnfIdMap))
    }

    /** `_load_service_functions` without its report: whether every
        declared function was found, and whether the missing ones are to be
        reported. */
    method LoadFound(service: Service) returns (ok: bool, report: bool)
      requires Valid() && Stored(service) && service.desc.content.Some?
      modifies storage`functions, service`functions, service`vnfIdMap
      ensures Valid() && Stored(service) && storage.services == old(storage.services)
      ensures forall o | o in StoredFunctions() :: o in old(StoredFunctions()) || fresh(o)
      ensures KeysWithin(old(service.functions), service.functions)
      ensures var files := readFunctions(cfg.dpath, cfg.dext);
        var nfs := service.desc.content.value.networkFunctions;
        var r := FunctionsFound(service.desc.id, cfg.dpath, nfs, files, buildId);
        ok == r.ok && r.events == (if report then [Event(service.desc.id, NsdItgFunctionUnavailable)] else []) &&
        (ok ==> var found := FoundIds(storage.idOf, files, NfIds(buildId, nfs.value));
          found.Some? && HasKeys(service.functions, found.value))
      ensures FunctionsLoaded(service)
      ensures forall k | old(storage.functions.HasKey(k)) :: storage.functions.Get(k) == old(storage.functions.Get(k))
      ensures forall k | storage.functions.HasKey(k) && !old(storage.functions.HasKey(k)) :: service.functions.HasKey(k)
    {
      if cfg.dpath == "" {
        return false, false;
      }
      var files := readFunctions(cfg.dpath, cfg.dext);
      var nfs := service.desc.content.value.networkFunctions;
      if nfs.None? {
        return false, false;
      }
      if nfs.value != [] && files.entries == [] {
        ghost var step := LoadStep(storage.idOf, buildId, files, Dict(StatesOf(storage.functions.entries)));
        ghost var h0 := Held(Dict(StatesOf(service.functions.entries)), service.vnfIdMap);
        assert nfs.value[..0] == [];
        assert files.Get(NfId(buildId, nfs.value[0])).None?;
        RunSnoc(step, h0, nfs.value, 0);
        RunStops(step, h0, nfs.value, 1);
        return false, true;
      }
      ok := AssociateDeclared(service, files, nfs.value);
      report := !ok;
      FoundIdsSpec(storage.idOf, files, NfIds(buildId, nfs.value));
    }

    /** The loop of `_load_service_functions`: each declared function whose
        id is among the descriptors found is stored and associated, in
        order, up to the first one missing.  The service's functions and
        aliases end as `LoadStep` run over the declared functions says,
        from the states of the functions stored before; the store keeps
        every function it had, and every function it gains is one the
        service now holds. */
    method AssociateDeclared(service: Service, files: Dict<string, Content>, nfs: seq<NfDecl>) returns (ok: bool)
      requires Valid() && Stored(service)
      modifies storage`functions, service`functions, service`vnfIdMap
      ensures Valid() && Stored(service) && storage.services == old(storage.services)
      ensures forall o | o in StoredFunctions() :: o in old(StoredFunctions()) || fresh(o)
      ensures KeysWithin(old(service.functions), service.functions)
      ensures var found := FoundIds(storage.idOf, files, NfIds(buildId, nfs));
        ok == found.Some? && (ok ==> HasKeys(service.functions, found.value))
      ensures var r := Run(LoadStep(storage.idOf, buildId, files, old(Dict(StatesOf(storage.functions.entries)))),
                           old(Held(Dict(StatesOf(service.functions.entries)), service.vnfIdMap)), nfs);
        ok == r.ok && Held(Dict(StatesOf(service.functions.entries)), service.vnfIdMap) == r.state
      ensures forall k | old(storage.functions.HasKey(k)) :: storage.functions.Get(k) == old(storage.functions.Get(k))
      ensures forall k | storage.functions.HasKey(k) && !old(storage.functions.HasKey(k)) :: service.functions.HasKey(k)
    {
      ghost var fs0 := service.functions;
      ghost var s0 := storage.functions;
      ghost var stored0 := Dict(StatesOf(s0.entries));
      ghost var h0 := Held(Dict(StatesOf(fs0.entries)), service.vnfIdMap);
      forall k ensures h0.functions.HasKey(k) <==> fs0.HasKey(k) {
        StatesOfGet(fs0, k);
      }
      ghost var stored: set<object> := StoredFunctions();
      ghost var added: set<object> := {};
      var i := 0;
      while i < |nfs|
        invariant 0 <= i <= |nfs|
        invariant Valid() && Stored(service) && storage.services == old(storage.services)
        invariant StoredFunctions() <= stored + added && forall o | o in added :: fresh(o)
        invariant Dict(StatesOf(s0.entries)) == stored0
        invariant Run(LoadStep(storage.idOf, buildId, files, stored0), h0, nfs[..i]).ok
        invariant LoadReached(service, files, nfs, i, s0, stored0, h0)
      {
        var found;
        ghost var gained;
        found, gained := AssociateAt(service, files, nfs, i, s0, stored0, h0);
        added := added + gained;
        if !found {
          RunStops(LoadStep(storage.idOf, buildId, files, stored0), h0, nfs, i + 1);
          DeclaredLoaded(service, files, nfs, i + 1, s0, stored0, h0, fs0);
          return false;
        }
        i := i + 1;
      }
      assert nfs[..i] == nfs;
      DeclaredLoaded(service, files, nfs, i, s0, stored0, h0, fs0);
      return true;
    }

    /** Where the load stands after `i` of the declared functions: the
        service holds what `LoadStep` run over them gives, the store reads
        as before the load for every function the service does not hold,
        and keeps every function it had. */
    ghost predicate LoadReached(service: Service, files: Dict<string, Content>, nfs: seq<NfDecl>, i: nat,
                                s0: Dict<string, Function>, stored0: Dict<string, (FunctionState, Option<Content>)>,
                                h0: Held)
      reads storage, service, FunctionObjects(service.functions.entries), DescObjects(service.functions.entries)
      requires i <= |nfs|
    {
      var r := Run(LoadStep(storage.idOf, buildId, files, stored0), h0, nfs[..i]);
      Held(Dict(StatesOf(service.functions.entries)), service.vnfIdMap) == r.state &&
      (forall k | !r.state.functions.HasKey(k) :: storage.functions.Get(k) == s0.Get(k)) &&
      (forall k | s0.HasKey(k) :: storage.functions.Get(k) == s0.Get(k))
    }

    /** One turn of the load: the `i`-th declared function is looked up
        among the descriptors found, and when found stored and associated. */
    method AssociateAt(service: Service, files: Dict<string, Content>, nfs: seq<NfDecl>, i: nat,
                       ghost s0: Dict<string, Function>, ghost stored0: Dict<string, (FunctionState, Option<Content>)>,
                       ghost h0: Held)
      returns (found: bool, ghost gained: set<object>)
      requires Valid() && Stored(service) && i < |nfs|
      requires Dict(StatesOf(s0.entries)) == stored0
      requires Run(LoadStep(storage.idOf, buildId, files, stored0), h0, nfs[..i]).ok
      requires LoadReached(service, files, nfs, i, s0, stored0, h0)
      modifies storage`functions, service`functions, service`vnfIdMap
      ensures Valid() && Stored(service) && storage.services == old(storage.services)
      ensures StoredFunctions() <= old(StoredFunctions()) + gained && forall o | o in gained :: fresh(o)
      ensures found == Run(LoadStep(storage.idOf, buildId, files, stored0), h0, nfs[..i + 1]).ok
      ensures LoadReached(service, files, nfs, i + 1, s0, stored0, h0)
    {
      LoadSnoc(storage.idOf, buildId, files, stored0, h0, nfs, i);
      var c := files.Get(NfId(buildId, nfs[i]));
      if c.None? {
        return false, {};
      }
      ghost var h := Run(LoadStep(storage.idOf, buildId, files, stored0), h0, nfs[..i]).state;
      ghost var s1 := storage.functions;
      ghost var id := storage.idOf(c.value);
      StoredAgree(s0, h, id, c.value, nfs[i].vnfId);
      ghost var f := StoreAndAssociate(service, c.value, nfs[i].vnfId);
      LoadStepKeeps(s0, s1, storage.functions, h, AssociateHeld(stored0, h, id, c.value, nfs[i].vnfId), id, f);
      return true, StoredFunctions() - old(StoredFunctions());
    }

    /** What the whole load promises, from where it ended: it succeeded
        exactly when every declared function was found, the service then
        holds each of them, and it still holds every function it held. */
    lemma DeclaredLoaded(service: Service, files: Dict<string, Content>, nfs: seq<NfDecl>, i: nat,
                         s0: Dict<string, Function>, stored0: Dict<string, (FunctionState, Option<Content>)>,
                         h0: Held, fs0: Dict<string, Function>)
      requires i <= |nfs| && LoadReached(service, files, nfs, i, s0, stored0, h0)
      requires Run(LoadStep(storage.idOf, buildId, files, stored0), h0, nfs[..i]) ==
        Run(LoadStep(storage.idOf, buildId, files, stored0), h0, nfs)
      requires forall k :: h0.functions.HasKey(k) <==> fs0.HasKey(k)
      ensures var r := Run(LoadStep(storage.idOf, buildId, files, stored0), h0, nfs);
        var found := FoundIds(storage.idOf, files, NfIds(buildId, nfs));
        r.ok == found.Some? && (r.ok ==> HasKeys(service.functions, found.value)) &&
        Held(Dict(StatesOf(service.functions.entries)), service.vnfIdMap) == r.state
      ensures KeysWithin(fs0, service.functions)
      ensures forall k | s0.HasKey(k) :: storage.functions.Get(k) == s0.Get(k)
      ensures forall k | storage.functions.HasKey(k) && !s0.HasKey(k) :: service.functions.HasKey(k)
    {
      var step := LoadStep(storage.idOf, buildId, files, stored0);
      LoadFunctionsOk(storage.idOf, buildId, files, stored0, h0, nfs);
      LoadFunctionsHolds(storage.idOf, buildId, files, stored0, h0, nfs);
      FoundIdsSpec(storage.idOf, files, NfIds(buildId, nfs));
      var r := Run(step, h0, nfs);
      forall k | r.state.functions.HasKey(k) ensures service.functions.HasKey(k) {
        StatesOfGet(service.functions, k);
      }
      forall k | fs0.HasKey(k) ensures service.functions.HasKey(k) {
        GetSomeHasKey(h0.functions, k);
        GetSomeHasKey(r.state.functions, k);
      }
      GainedHeld(s0, storage.functions, service.functions);
    }

    /** A function the service does not hold yet reads from the store as
        before the load, so `create_function` gives it as the store before
        the load would have. */
    lemma StoredAgree(s0: Dict<string, Function>, h: Held, id: string, c: Content, vnfId: string)
      requires !h.functions.HasKey(id) ==> storage.functions.Get(id) == s0.Get(id)
      ensures AssociateHeld(Dict(StatesOf(storage.functions.entries)), h, id, c, vnfId) ==
        AssociateHeld(Dict(StatesOf(s0.entries)), h, id, c, vnfId)
    {
      if !h.functions.HasKey(id) {
        StatesOfGet(s0, id);
        StatesOfGet(storage.functions, id);
      }
    }

    /** `create_function` on a descriptor found for the service, then
        `associate_function` under the declared `vnf_id`: the service's
        functions and aliases change as `AssociateHeld` says, from the
        states of the functions stored before; the store gains at most the
        function under the descriptor's id and keeps every other. */
    method StoreAndAssociate(service: Service, content: Content, vnfId: string) returns (ghost f: Function)
      requires Valid() && Stored(service)
      modifies storage`functions, service`functions, service`vnfIdMap
      ensures Valid() && Stored(service) && storage.services == old(storage.services)
      ensures forall o | o in StoredFunctions() :: o in old(StoredFunctions()) || fresh(o)
      ensures f.desc.id == storage.idOf(content) && storage.functions.Get(f.desc.id) == Some(f)
      ensures old(storage.functions.HasKey(storage.idOf(content))) ==> storage.functions == old(storage.functions)
      ensures !old(storage.functions.HasKey(storage.idOf(content))) ==>
        storage.functions == old(storage.functions).Put(f.desc.id, f)
      ensures Held(Dict(StatesOf(service.functions.entries)), service.vnfIdMap) ==
        AssociateHeld(old(Dict(StatesOf(storage.functions.entries))),
                      old(Held(Dict(StatesOf(service.functions.entries)), service.vnfIdMap)),
                      storage.idOf(content), content, vnfId)
    {
      ghost var es := service.functions.entries;
      ghost var st := Dict(StatesOf(storage.functions.entries));
      StatesOfGet(storage.functions, storage.idOf(content));
      HeldStored(service);
      f := StoreThenAssociate(service, content, vnfId);
      StoreAssociated(service, f, content, vnfId, es, st);
    }

    /** `create_function` then `associate_function`, on the objects. */
    method StoreThenAssociate(service: Service, content: Content, vnfId: string) returns (ghost f: Function)
      requires Valid() && Stored(service)
      modifies storage`functions, service`functions, service`vnfIdMap
      ensures Valid() && Stored(service) && storage.services == old(storage.services)
      ensures unchanged(old(StoredFunctions()))
      ensures forall o | o in StoredFunctions() :: o in old(StoredFunctions()) || fresh(o)
      ensures f.desc.id == storage.idOf(content) && storage.functions.Get(f.desc.id) == Some(f)
      ensures old(storage.functions.HasKey(storage.idOf(content))) ==> storage.functions == old(storage.functions)
      ensures !old(storage.functions.HasKey(storage.idOf(content))) ==>
        fresh(f) && f.desc.content == Some(content) && f.View() == FunctionState(f.desc.id, EmptyState(), Empty()) &&
        storage.functions == old(storage.functions).Put(f.desc.id, f)
      ensures old(service.functions.HasKey(storage.idOf(content))) ==>
        service.functions == old(service.functions) && service.vnfIdMap == old(service.vnfIdMap)
      ensures !old(service.functions.HasKey(storage.idOf(content))) ==>
        service.functions == old(service.functions).Put(f.desc.id, f) &&
        service.vnfIdMap == old(service.vnfIdMap).Put(vnfId, f.desc.id)
    {
      var g := StoreFunction(Present(Some(content)));
      StoredAllocated();
      AssociateStored(service, g, vnfId);
      f := g;
    }

    /** Once `create_function` and `associate_function` have run, leaving
        every function object held or stored before as it was: the states
        the service holds are those `AssociateHeld` gives. */
    twostate lemma StoreAssociated(service: Service, new f: Function, new content: Content, new vnfId: string,
                                   new es: seq<(string, Function)>,
                                   new st: Dict<string, (FunctionState, Option<Content>)>)
      requires es == old(service.functions.entries) && Moved(es) <= old(StoredFunctions())
      requires unchanged(old(StoredFunctions()))
      requires st == old(Dict(StatesOf(storage.functions.entries)))
      requires st.Get(storage.idOf(content)) ==
        old(match storage.functions.Get(storage.idOf(content))
            case None => None
            case Some(g) => Some((g.View(), g.desc.content)))
      requires f.desc.id == storage.idOf(content) && storage.functions.Get(f.desc.id) == Some(f)
      requires old(storage.functions.HasKey(storage.idOf(content))) ==>
        storage.functions == old(storage.functions)
      requires !old(storage.functions.HasKey(storage.idOf(content))) ==>
        f.desc.content == Some(content) && f.View() == FunctionState(f.desc.id, EmptyState(), Empty())
      requires old(service.functions.HasKey(storage.idOf(content))) ==>
        service.functions == old(service.functions) && service.vnfIdMap == old(service.vnfIdMap)
      requires !old(service.functions.HasKey(storage.idOf(content))) ==>
        service.functions == old(service.functions).Put(f.desc.id, f) &&
        service.vnfIdMap == old(service.vnfIdMap).Put(vnfId, f.desc.id)
      ensures Held(Dict(StatesOf(service.functions.entries)), service.vnfIdMap) ==
        AssociateHeld(old(Dict(StatesOf(storage.functions.entries))),
                      old(Held(Dict(StatesOf(service.functions.entries)), service.vnfIdMap)),
                      storage.idOf(content), content, vnfId)
    {
      var id := storage.idOf(content);
      forall k | 0 <= k < |es| ensures unchanged(es[k].1, es[k].1.desc) {
        assert es[k].1 in Moved(es) && es[k].1.desc in Moved(es);
      }
      assert unchanged(FunctionObjects(es)) && unchanged(DescObjects(es));
      if old(storage.functions.HasKey(id)) {
        GetEntryOf(storage.functions, id);
        assert f in old(StoredFunctions()) && f.desc in old(StoredFunctions());
        f.ViewKept();
      }
      assert Created(st, id, content) == (f.View(), f.desc.content);
      StatesAssociated(service, f, st, id, content, vnfId);
    }

    /** The states the service holds after `associate_function`, from the
        states it held before. */
    twostate lemma StatesAssociated(service: Service, new f: Function,
                                    new st: Dict<string, (FunctionState, Option<Content>)>, new id: string,
                                    new content: Content, new vnfId: string)
      requires unchanged(FunctionObjects(old(service.functions.entries)))
      requires unchanged(DescObjects(old(service.functions.entries)))
      requires old(service.functions.HasKey(id)) ==>
        service.functions == old(service.functions) && service.vnfIdMap == old(service.vnfIdMap)
      requires !old(service.functions.HasKey(id)) ==>
        service.functions == old(service.functions).Put(id, f) && service.vnfIdMap == old(service.vnfIdMap).Put(vnfId, id) &&
        Created(st, id, content) == (f.View(), f.desc.content)
      ensures Held(Dict(StatesOf(service.functions.entries)), service.vnfIdMap) ==
        AssociateHeld(st, old(Held(Dict(StatesOf(service.functions.entries)), service.vnfIdMap)), id, content, vnfId)
    {
      var fs0 := old(service.functions);
      HeldKept(fs0.entries);
      StatesOfGet(fs0, id);
      GetSomeHasKey(fs0, id);
      GetSomeHasKey(Dict(StatesOf(fs0.entries)), id);
      if !fs0.HasKey(id) {
        StatesOfPut(fs0, id, f);
      }
    }

    /** `associate_function` on a stored function: a function the service
        already holds under that id is refused, and nothing changes;
        otherwise it joins the service's functions and the alias names it. */
    method AssociateStored(service: Service, f: Function, vnfId: string)
      requires Valid() && Stored(service) && storage.functions.Get(f.desc.id) == Some(f) && f.desc.kind == FunctionDoc
      requires forall o | o in StoredFunctions() :: allocated(o)
      modifies service`functions, service`vnfIdMap
      ensures Valid() && unchanged(old(StoredFunctions()))
      ensures old(service.functions.HasKey(f.desc.id)) ==>
        service.functions == old(service.functions) && service.vnfIdMap == old(service.vnfIdMap)
      ensures !old(service.functions.HasKey(f.desc.id)) ==>
        service.functions == old(service.functions).Put(f.desc.id, f) &&
        service.vnfIdMap == old(service.vnfIdMap).Put(vnfId, f.desc.id)
    {
      StoredServiceValid(service);
      ServiceApart(service);
      StoredAllocated();
      ghost var es := service.functions.entries;
      var associated := service.AssociateObject(f, vnfId);
      if associated {
        PutShape(old(service.functions), f.desc.id, f);
        HeldSnoc(storage.functions, es, f.desc.id, f);
      }
      FunctionsKeptAll();
      ServicesKeptBut(service);
    }

    /** The loop of `_validate_service_integrity` over the service's
        functions: each is validated in turn (`validate_function` on its
        file finds the stored function itself), and the first invalid one
        is reported against the service and ends the loop.  The functions
        validated are left in the states collected; the rest are left
        alone. */
    method ValidateServiceFunctions(service: Service) returns (ok: bool)
      requires Valid() && Stored(service)
      modifies Moved(service.functions.entries), log
      ensures Valid() && unchanged(storage) && unchanged(service) && unchanged(service.desc)
      ensures RunDone(service.desc.id, Validated(cfg, schemaOk), old(Inputs(service.functions.entries)), ok,
                      old(log.events), log.events, Inputs(service.functions.entries))
    {
      PrepareRevalidation(service);
      var es := service.functions.entries;
      ServiceNotMoved(es, service);
      StoreNotMoved(es, storage);
      StoredServiceValid(service);
      HeldValid(service);
      NotMoved(es, service.desc);
      ok := CheckFunctions(es, service.desc.id);
      HeldRevalidated(service);
    }

    /** The loop itself, on distinct valid functions. */
    method CheckFunctions(es: seq<(string, Function)>, sid: string) returns (ok: bool)
      requires Apart(es) && forall k | 0 <= k < |es| :: es[k].1.Valid()
      modifies Moved(es), log
      ensures forall k | 0 <= k < |es| :: es[k].1.Valid()
      ensures RunDone(sid, Validated(cfg, schemaOk), old(Inputs(es)), ok, old(log.events), log.events, Inputs(es))
    {
      ghost var ins := Inputs(es);
      ghost var ev0 := log.events;
      RunStarts(sid, Validated(cfg, schemaOk), ins, ev0);
      var i := 0;
      ok := true;
      while i < |es| && ok
        invariant 0 <= i <= |es|
        invariant ChecksReached(es, sid, Validated(cfg, schemaOk), ins, i, ok, ev0, log.events)
        invariant StatesValid(Inputs(es))
      {
        ok := CheckStep(es, i, sid, ins, ev0);
        i := i + 1;
      }
      RunFinished(sid, Validated(cfg, schemaOk), ins, i, ok, ev0, log.events, Inputs(es));
    }

    /** One turn of that loop: where it stands at `i` gives where it stands
        at `i + 1`, passed or not. */
    method CheckStep(es: seq<(string, Function)>, i: nat, sid: string,
                     ghost ins: seq<(FunctionState, Option<Content>)>, ghost ev0: seq<Event>)
      returns (ok: bool)
      requires Apart(es) && i < |es| == |ins| && StatesValid(Inputs(es))
      requires ChecksReached(es, sid, Validated(cfg, schemaOk), ins, i, true, ev0, log.events)
      modifies es[i].1, es[i].1.desc, log
      ensures StatesValid(Inputs(es))
      ensures ChecksReached(es, sid, Validated(cfg, schemaOk), ins, i + 1, ok, ev0, log.events)
    {
      ghost var in0 := Inputs(es);
      ghost var events0 := log.events;
      RunAdvances(sid, Validated(cfg, schemaOk), ins, i, ev0, events0, in0);
      ok := StagesAt(es, i, sid);
    }

    /** The stages on the `i`-th of a sequence of distinct functions, with
        a failure reported against the service `sid`; only the `i`-th input
        changes. */
    method StagesAt(es: seq<(string, Function)>, i: nat, sid: string) returns (ok: bool)
      requires i < |es| && es[i].1.Valid() && Apart(es)
      modifies es[i].1, es[i].1.desc, log
      ensures es[i].1.Valid()
      ensures var in0 := old(Inputs(es));
        var v := Validated(cfg, schemaOk)(in0[i]);
        ok == v.ok &&
        log.events == old(log.events) + (if v.ok then v.events else v.events + [Event(sid, NsdItgFunctionInvalid)]) &&
        Inputs(es) == in0[i := (v.state, in0[i].1)]
    {
      var f := es[i].1;
      ghost var in0 := Inputs(es);
      assert in0[i] == (f.View(), f.desc.content);
      ok := FunctionStagesOf(f);
      ghost var ev1 := log.events;
      log.LogIf(!ok, sid, NsdItgFunctionInvalid);
      AppendAssoc(old(log.events), ev1[|old(log.events)|..], log.events[|ev1|..]);
      forall k | 0 <= k < |es| && k != i ensures Inputs(es)[k] == in0[k] {
        es[k].1.ViewKept();
      }
      assert Inputs(es) == in0[i := (f.View(), f.desc.content)];
    }

    /** The functions a service holds are distinct objects with distinct
        descriptors, for their ids are their distinct keys. */
    lemma HeldDistinct(service: Service)
      requires service.Valid()
      ensures Apart(service.functions.entries)
    {
    }

    /** The functions a stored service holds keep their invariant and
        are stored functions. */
    lemma HeldValid(service: Service)
      requires Valid() && Stored(service)
      ensures forall k | 0 <= k < |service.functions.entries| ::
        service.functions.entries[k].1.Valid() && service.functions.entries[k].1.desc.kind == FunctionDoc
    {
      StoredServiceValid(service);
      var es := service.functions.entries;
      forall k | 0 <= k < |es| ensures es[k].1.Valid() && es[k].1.desc.kind == FunctionDoc {
        GetEntryOf(storage.functions, es[k].0);
      }
    }

    /** What the invariant is kept by, when a stored service's functions
        are validated: the store's invariant, the service's own and the
        stored functions it holds, and the log apart from stored objects. */
    ghost predicate Revalidatable(service: Service)
      reads storage, StoredFunctions(), StoredServices(), service, service.desc
    {
      Valid() && Stored(service) && service.Valid() && HeldBy(storage.functions, service.functions.entries) &&
      service in StoredServices() && log !in StoredServices() && log !in StoredFunctions()
    }

    /** A stored service in a valid store is ready for that: its functions
        are distinct, keep their invariant, and the stored objects are
        allocated. */
    lemma PrepareRevalidation(service: Service)
      requires Valid() && Stored(service)
      ensures Revalidatable(service) && Apart(service.functions.entries)
      ensures forall k | 0 <= k < |service.functions.entries| :: service.functions.entries[k].1.Valid()
      ensures forall o | o in StoredServices() :: allocated(o)
      ensures forall o | o in StoredFunctions() :: allocated(o)
    {
      StoredServiceValid(service);
      LogApart();
      GetEntryOf(storage.services, service.desc.id);
      HeldDistinct(service);
      HeldValid(service);
    }

    /** When only the functions a stored service holds, their descriptors
        and the log changed, and each of those functions keeps its
        invariant, the whole invariant is kept. */
    twostate lemma HeldRevalidated(service: Service)
      requires old(Revalidatable(service))
      requires old(forall o | o in StoredServices() :: allocated(o)) && old(forall o | o in StoredFunctions() :: allocated(o))
      requires forall o: object | o != log && o !in Moved(old(service.functions.entries)) && old(allocated(o)) :: unchanged(o)
      requires forall k | 0 <= k < |old(service.functions.entries)| :: old(service.functions.entries)[k].1.Valid()
      ensures Valid()
    {
      StoreNotMoved(old(service.functions.entries), storage);
      assert unchanged(storage);
      FunctionsRevalidated(service);
      HeldServicesKept(service);
    }

    /** The stored functions keep their invariant: the moved ones by
        assumption, the others because they did not change. */
    twostate lemma FunctionsRevalidated(service: Service)
      requires old(Revalidatable(service))
      requires old(forall o | o in StoredServices() :: allocated(o)) && old(forall o | o in StoredFunctions() :: allocated(o))
      requires forall o: object | o != log && o !in Moved(old(service.functions.entries)) && old(allocated(o)) :: unchanged(o)
      requires forall k | 0 <= k < |old(service.functions.entries)| :: old(service.functions.entries)[k].1.Valid()
      ensures FunctionsValid()
    {
      var es := old(service.functions.entries);
      var moved := Moved(es);
      StoreNotMoved(es, storage);
      assert unchanged(storage);
      forall j | 0 <= j < |storage.functions.entries| ensures storage.functions.entries[j].1.Valid() {
        var g := storage.functions.entries[j].1;
        assert g in old(StoredFunctions()) && g.desc in old(StoredFunctions());
        DescMovedWithFunction(storage.functions, es, j);
        if g !in moved {
          assert unchanged(g) && unchanged(g.desc);
          g.ViewKept();
          assert old(storage.functions.entries[j].1.Valid());
        }
      }
    }

    /** The stored services and their descriptors did not change, and the
        service whose functions were validated still holds them. */
    twostate lemma HeldServicesKept(service: Service)
      requires old(Revalidatable(service))
      requires old(forall o | o in StoredServices() :: allocated(o)) && old(forall o | o in StoredFunctions() :: allocated(o))
      requires forall o: object | o != log && o !in Moved(old(service.functions.entries)) && old(allocated(o)) :: unchanged(o)
      requires forall k | 0 <= k < |old(service.functions.entries)| :: old(service.functions.entries)[k].1.Valid()
      ensures ServicesValid()
    {
      var es := old(service.functions.entries);
      var moved := Moved(es);
      StoreNotMoved(es, storage);
      assert unchanged(storage);
      ServiceNotMoved(es, service);
      assert service.functions.entries == es;
      assert HeldBy(storage.functions, es);
      forall j | 0 <= j < |storage.services.entries|
        ensures storage.services.entries[j].1.Valid() &&
          HeldBy(storage.functions, storage.services.entries[j].1.functions.entries)
      {
        var s := storage.services.entries[j].1;
        assert s in old(StoredServices()) && s.desc in old(StoredServices());
        assert s.desc.kind == ServiceDoc;
        NotMoved(es, s.desc);
        ServiceNotMoved(es, s);
      }
    }

    /** `_validate_service_integrity` on a stored service, its outcome
        given as values: the service's functions are loaded, a failure
        being reported as unavailable functions and ending the stage; then
        the functions are validated and the service checked. */
    method IntegrityTraced(service: Service, ghost stored0: Dict<string, (FunctionState, Option<Content>)>, ghost h0: Held)
      returns (ok: bool, ghost t: IntegrityTrace)
      requires Valid() && Stored(service) && service.desc.content.Some?
      requires Dict(StatesOf(storage.functions.entries)) == stored0 && HeldOf(service) == h0
      modifies storage`functions, service`functions, service`vnfIdMap, log, StoredFunctions(), service.desc
      ensures Valid() == true && Stored(service) && storage.services == old(storage.services)
      ensures IntegrityOutcome(cfg, schemaOk, readFunctions(cfg.dpath, cfg.dext), storage.idOf, buildId,
                               stored0, h0, service.desc.id,
                               service.desc.content.value, old(service.desc.View()), old(log.events), t) == true
      ensures ok == t.ok && t.after == service.View() && t.events == log.events
    {
      StoredAllocated();
      ghost var d0, ev0 := service.desc.View(), log.events;
      var found := LoadHeld(service, stored0, h0);
      ghost var c := cfg;
      ok, t := AfterLoad(service, found, stored0, h0, d0, ev0);
      assert cfg == c;
    }

    /** `_load_service_functions` on a stored service holding `h0`, the
        store holding `stored0`: the verdict and report of
        `FunctionsFound`, the service left holding `LoadedHeld`. */
    method LoadHeld(service: Service, ghost stored0: Dict<string, (FunctionState, Option<Content>)>, ghost h0: Held)
      returns (ok: bool)
      requires Valid() && Stored(service) && service.desc.content.Some?
      requires Dict(StatesOf(storage.functions.entries)) == stored0 && HeldOf(service) == h0
      modifies storage`functions, service`functions, service`vnfIdMap, log
      ensures Valid() && Stored(service) && storage.services == old(storage.services)
      ensures forall o | o in StoredFunctions() :: o in old(StoredFunctions()) || fresh(o)
      ensures var nfs := service.desc.content.value.networkFunctions;
        var files := readFunctions(cfg.dpath, cfg.dext);
        var r := FunctionsFound(service.desc.id, cfg.dpath, nfs, files, buildId);
        ok == r.ok && log.events == old(log.events) + r.events &&
        HeldOf(service) == LoadedHeld(cfg.dpath, nfs, files, storage.idOf, buildId, stored0, h0)
    {
      ok := LoadServiceFunctions(service);
    }

    /** `_validate_service_integrity` past the load, which left the
        service holding `LoadedHeld`: a failure is reported as unavailable
        functions and ends the stage; otherwise the functions are validated
        and the service checked. */
    method AfterLoad(service: Service, found: bool, ghost stored0: Dict<string, (FunctionState, Option<Content>)>,
                     ghost h0: Held, ghost d0: DescState, ghost ev0: seq<Event>)
      returns (ok: bool, ghost t: IntegrityTrace)
      requires Valid() && Stored(service) && service.desc.content.Some? && service.desc.View() == d0
      requires var nfs := service.desc.content.value.networkFunctions;
        var files := readFunctions(cfg.dpath, cfg.dext);
        var r := FunctionsFound(service.desc.id, cfg.dpath, nfs, files, buildId);
        found == r.ok && log.events == ev0 + r.events &&
        HeldOf(service) == LoadedHeld(cfg.dpath, nfs, files, storage.idOf, buildId, stored0, h0)
      modifies log, StoredFunctions(), service.desc
      ensures Valid() && Stored(service) && storage.services == old(storage.services)
      ensures storage.functions == old(storage.functions) && service.functions == old(service.functions)
      ensures IntegrityOutcome(cfg, schemaOk, readFunctions(cfg.dpath, cfg.dext), storage.idOf, buildId,
                               stored0, h0, service.desc.id, service.desc.content.value, d0, ev0, t) == true
      ensures ok == t.ok && t.after == service.View() && t.events == log.events
    {
      ghost var c := cfg;
      if !found {
        t := ReportUnavailable(service, HeldOf(service));
        assert cfg == c;
        UnavailableOutcome(cfg, schemaOk, readFunctions(cfg.dpath, cfg.dext), storage.idOf, buildId, stored0, h0,
                           service.desc.id, service.desc.content.value, d0, ev0, t);
        return false, t;
      }
      ghost var h := HeldOf(service);
      SelfApart();
      ok, t := FoundTraced(service);
      assert cfg == c && LoadedInto(service.desc.id, h, t);
    }

    /** A failed load reported: the stage fails, the service holding `h`. */
    method ReportUnavailable(service: Service, ghost h: Held) returns (ghost t: IntegrityTrace)
      requires Valid() && Stored(service) && HeldOf(service) == h
      modifies log
      ensures Valid() && log.events == old(log.events) + [Event(service.desc.id, NsdItgFunctionUnavailable)]
      ensures t == IntegrityTrace(false, [], false, [], [], service.View(), false, service.View(), log.events)
      ensures service.View() == HeldState(service.desc.id, service.desc.View(), h)
    {
      LogApart();
      ServiceApart(service);
      ViewAsHeld(service);
      Report(service.desc.id, NsdItgFunctionUnavailable);
      t := IntegrityTrace(false, [], false, [], [], service.View(), false, service.View(), log.events);
    }

    /** The integrity stage, then, when it passed and topology is enabled,
        the topology stage. */
    method IntegrityThenTopology(service: Service, ghost stored0: Dict<string, (FunctionState, Option<Content>)>, ghost h0: Held)
      returns (ok: bool, cycles: seq<seq<seq<EdgeData>>>, ghost t: IntegrityTrace)
      requires Valid() && Stored(service) && service.desc.content.Some?
      requires Dict(StatesOf(storage.functions.entries)) == stored0 && HeldOf(service) == h0
      modifies storage`functions, service`functions, service`vnfIdMap, service`fwGraphs, log, StoredFunctions(), service.desc
      ensures Valid() && Stored(service) && storage.services == old(storage.services)
      ensures IntegrityOutcome(cfg, schemaOk, readFunctions(cfg.dpath, cfg.dext), storage.idOf, buildId,
                               stored0, h0, service.desc.id,
                               service.desc.content.value, old(service.desc.View()), old(log.events), t) == true
      ensures TopologyOutcome(cfg, simpleCycles, service.desc.content.value, old(service.fwGraphs), t, ok, cycles,
                              service.fwGraphs, log.events)
    {
      ServiceApart(service);
      SelfApart();
      ghost var fw0, c := service.fwGraphs, cfg;
      ok, t := IntegrityTraced(service, stored0, h0);
      assert service.fwGraphs == fw0 && cfg == c;
      ok, cycles := TopologyIfPassed(service, ok, t);
    }

    /** The topology stage, when the integrity stage passed and topology
        is enabled. */
    method TopologyIfPassed(service: Service, passed: bool, ghost t: IntegrityTrace)
      returns (ok: bool, cycles: seq<seq<seq<EdgeData>>>)
      requires Valid() && Stored(service) && service.View() == t.after && log.events == t.events && t.ok == passed
      modifies service`fwGraphs, log
      ensures Valid() && service.desc.content.Some?
      ensures TopologyOutcome(cfg, simpleCycles, service.desc.content.value, old(service.fwGraphs), t, ok, cycles,
                              service.fwGraphs, log.events)
    {
      if !passed || !cfg.topology {
        StoredServiceValid(service);
        return passed, [];
      }
      ok, cycles := TopologyAfter(service, t.after);
    }

    /** The topology stage on a stored service whose value is `v`. */
    method TopologyAfter(service: Service, ghost v: ServiceState) returns (ok: bool, cycles: seq<seq<seq<EdgeData>>>)
      requires Valid() && Stored(service) && service.View() == v
      modifies service`fwGraphs, log
      ensures Valid() && v.Closed() && service.desc.content.Some?
      ensures var r := ServiceTopology(v, old(service.fwGraphs), service.desc.content.value, simpleCycles);
        ok == r.ok && service.fwGraphs == r.state.fwGraphs && cycles == r.state.cycles &&
        log.events == old(log.events) + r.events
    {
      LogApart();
      ServiceApart(service);
      StoredServiceValid(service);
      service.ValidView();
      label Before:
      ok, cycles := ServiceTopologyStage(service);
      FwGraphsChanged@Before(service);
    }

    /** `validate_service`: a configuration `_assert_configuration`
        refuses ends it with a failure, nothing logged to the event log
        (`errors` are the messages for the general log); a file that yields
        no service is reported and fails; otherwise the service is stored,
        or the one already stored under its id is taken, and its stages
        run on it (`ServiceOutcome`).  `t` is what the integrity stage did
        and `cycles` what the topology stage found. */
    method ValidateService(path: string, file: DescriptorFile)
      returns (ok: bool, errors: seq<ConfigError>, ghost t: IntegrityTrace, ghost cycles: seq<seq<seq<EdgeData>>>)
      requires Valid()
      modifies storage`services, storage`functions, log, StoredFunctions(), StoredServices()
      ensures Valid()
      ensures errors == AssertConfiguration(cfg, ServiceScope).1
      ensures !ConfigOk(cfg, ServiceScope) ==>
        !ok && storage.services == old(storage.services) && storage.functions == old(storage.functions) &&
        log.events == old(log.events)
      ensures ConfigOk(cfg, ServiceScope) ==> ServiceFileOutcome(path, file, ok, t, cycles) == true
    {
      errors := AssertConfiguration(cfg, ServiceScope).1;
      if !AssertConfiguration(cfg, ServiceScope).0 {
        var none := EmptyService("", EmptyState());
        return false, errors, IntegrityTrace(false, [], false, [], [], none, false, none, []), [];
      }
      SelfApart();
      ghost var c := cfg;
      ok, t, cycles := ValidateServiceFile(path, file);
      assert cfg == c;
    }

    /** What `validate_service` does with a file once the configuration is
        accepted: a file that yields no service is reported and fails;
        otherwise the service is stored, or the one already stored under
        its id is taken, and its stages run on it. */
    twostate predicate ServiceFileOutcome(path: string, file: DescriptorFile, ok: bool, t: IntegrityTrace,
                                          cycles: seq<seq<seq<EdgeData>>>)
      reads this, storage, log, StoredServices()
    {
      (file.Missing? || storage.DescriptorId(file.content) == "" ==>
        !ok && storage.services == old(storage.services) && storage.functions == old(storage.functions) &&
        log.events == old(log.events) + [Event(path, ServiceInvalidDescriptor)]) &&
      (file.Present? && storage.DescriptorId(file.content) != "" ==>
        var id := storage.DescriptorId(file.content);
        var s := storage.GetService(id);
        s != null && s.desc.content.Some? &&
        (old(storage.services.HasKey(id)) ==> storage.services == old(storage.services)) &&
        (!old(storage.services.HasKey(id)) ==>
          fresh(s) && s.desc.content == file.content && storage.services == old(storage.services).Put(id, s)) &&
        ServiceOutcome(cfg, schemaOk, readFunctions(cfg.dpath, cfg.dext), storage.idOf, buildId, simpleCycles,
                       old(Dict(StatesOf(storage.functions.entries))),
                       if old(storage.services.HasKey(id)) then old(HeldOf(storage.GetService(id))) else Held(Empty(), Empty()),
                       id, s.desc.content.value,
                       if old(storage.services.HasKey(id)) then old(storage.GetService(id).desc.View()) else EmptyState(),
                       if old(storage.services.HasKey(id)) then old(storage.GetService(id).fwGraphs) else [],
                       old(log.events), t, ok, cycles, s.fwGraphs, log.events))
    }

    /** `validate_service` past an accepted configuration. */
    method ValidateServiceFile(path: string, file: DescriptorFile)
      returns (ok: bool, ghost t: IntegrityTrace, ghost cycles: seq<seq<seq<EdgeData>>>)
      requires Valid() && ConfigOk(cfg, ServiceScope)
      modifies storage`services, storage`functions, log, StoredFunctions(), StoredServices()
      ensures Valid() && ServiceFileOutcome(path, file, ok, t, cycles)
    {
      var none := EmptyService("", EmptyState());
      t, cycles := IntegrityTrace(false, [], false, [], [], none, false, none, []), [];
      ghost var id := if file.Present? then storage.DescriptorId(file.content) else "";
      ghost var existed := storage.services.HasKey(id);
      ghost var d0 := if existed then storage.GetService(id).desc.View() else EmptyState();
      ghost var fw0 := if existed then storage.GetService(id).fwGraphs else [];
      ghost var stored0 := Dict(StatesOf(storage.functions.entries));
      ghost var h0 := if existed then HeldOf(storage.GetService(id)) else Held(Empty(), Empty());
      label Before:
      var service := CreateStoredService(file);
      if service == null {
        Report(path, ServiceInvalidDescriptor);
        return false, t, cycles;
      }
      CreatedHeld@Before(service, id, stored0, h0);
      assert service.desc.View() == d0 && service.fwGraphs == fw0;
      ok, cycles, t := StoredServiceStages(service, d0, fw0, log.events, stored0, h0);
      assert storage.GetService(id) == service;
    }

    /** `create_service` on the validator's store: a new service holds no
        functions and the stored objects are left alone, so the invariant
        holds after. */
    method CreateStoredService(file: DescriptorFile) returns (s: Service?)
      requires Valid()
      modifies storage`services
      ensures Valid() && storage.functions == old(storage.functions) && StoredFunctions() == old(StoredFunctions())
      ensures file.Missing? || storage.DescriptorId(file.content) == "" ==>
        s == null && storage.services == old(storage.services)
      ensures file.Present? && storage.DescriptorId(file.content) != "" ==>
        var id := storage.DescriptorId(file.content);
        s != null && s.desc.id == id && Stored(s) &&
        (old(storage.services.HasKey(id)) ==> storage.services == old(storage.services)) &&
        (!old(storage.services.HasKey(id)) ==>
          fresh(s) && fresh(s.desc) && s.desc.content == file.content && s.desc.View() == EmptyState() && s.fwGraphs == [] &&
          s.functions == Empty() && s.vnfIdMap == Empty() && storage.services == old(storage.services).Put(id, s))
      ensures s != null && old(storage.services).HasKey(s.desc.id) ==>
        s in old(StoredServices()) && s.desc in old(StoredServices())
      ensures unchanged(old(StoredFunctions())) && unchanged(old(StoredServices()))
    {
      LogApart();
      label Before:
      s := storage.CreateService(file);
      if s != null && !old(storage.services).HasKey(s.desc.id) {
        ServiceStored@Before(s);
      } else {
        StoreKept@Before();
        if s != null {
          StoredServiceValid(s);
          assert StoredServices() == old(StoredServices());
        }
      }
    }

    /** Once `create_service` has run, leaving the stored objects as they
        were: the stored functions read as before, and the service it gave
        holds what the service stored under its id held before, or nothing
        for a new one. */
    twostate lemma CreatedHeld(new s: Service, id: string, new stored0: Dict<string, (FunctionState, Option<Content>)>,
                               new h0: Held)
      requires old(Valid()) && Valid() && unchanged(old(StoredFunctions())) && unchanged(old(StoredServices()))
      requires storage.functions == old(storage.functions) && stored0 == old(Dict(StatesOf(storage.functions.entries)))
      requires old(storage.services.HasKey(id)) ==> storage.services == old(storage.services) && Stored(s) && s.desc.id == id
      requires !old(storage.services.HasKey(id)) ==> s.functions == Empty() && s.vnfIdMap == Empty()
      requires h0 == if old(storage.services.HasKey(id)) then old(HeldOf(storage.GetService(id))) else Held(Empty(), Empty())
      ensures Dict(StatesOf(storage.functions.entries)) == stored0 && HeldOf(s) == h0
    {
      StoredKept();
      if old(storage.services.HasKey(id)) {
        HeldOfKept(s);
      }
    }

    /** The stored functions did not change, so they read as before. */
    twostate lemma StoredKept()
      requires unchanged(old(StoredFunctions())) && storage.functions == old(storage.functions)
      ensures StatesOf(storage.functions.entries) == old(StatesOf(storage.functions.entries))
    {
      var es := storage.functions.entries;
      forall k | 0 <= k < |es| ensures unchanged(es[k].1, es[k].1.desc) {
        assert es[k].1 in old(StoredFunctions()) && es[k].1.desc in old(StoredFunctions());
      }
      HeldKept(es);
    }

    /** A stored service that did not change, holding stored functions that
        did not change, holds what it held. */
    twostate lemma HeldOfKept(s: Service)
      requires Valid() && Stored(s) && unchanged(old(StoredFunctions())) && unchanged(s)
      requires storage.functions == old(storage.functions)
      ensures HeldOf(s) == old(HeldOf(s))
    {
      HeldStored(s);
      var fs := s.functions.entries;
      forall k | 0 <= k < |fs| ensures unchanged(fs[k].1, fs[k].1.desc) {
        assert fs[k].1 in StoredFunctions() && fs[k].1.desc in StoredFunctions();
      }
      HeldKept(fs);
    }

    /** Storing a new service holding no functions keeps the invariant. */
    twostate lemma ServiceStored(new s: Service)
      requires old(Valid()) && storage.Valid() && storage.functions == old(storage.functions)
      requires unchanged(old(StoredFunctions())) && unchanged(old(StoredServices()))
      requires s.Valid() && s.functions == Empty() && !old(storage.services).HasKey(s.desc.id)
      requires storage.services == old(storage.services).Put(s.desc.id, s)
      ensures Valid() && StoredFunctions() == old(StoredFunctions())
    {
      forall i | 0 <= i < |storage.functions.entries| ensures storage.functions.entries[i].1.Valid() {
        assert storage.functions.entries[i].1 in old(StoredFunctions());
        assert storage.functions.entries[i].1.desc in old(StoredFunctions());
      }
      PutShape(old(storage.services), s.desc.id, s);
      var n := |old(storage.services.entries)|;
      forall i | 0 <= i < |storage.services.entries|
        ensures storage.services.entries[i].1.Valid() &&
          HeldBy(storage.functions, storage.services.entries[i].1.functions.entries)
      {
        if i < n {
          assert storage.services.entries[i] == old(storage.services.entries)[i];
          var x := storage.services.entries[i].1;
          assert x in old(StoredServices()) && x.desc in old(StoredServices());
        }
      }
    }

    /** `validate_service` on the service created: the syntax stage, then
        the enabled ones among integrity and topology. */
    method StoredServiceStages(service: Service, ghost d0: DescState, ghost fw0: seq<FwGraph>, ghost ev0: seq<Event>,
                               ghost stored0: Dict<string, (FunctionState, Option<Content>)>, ghost h0: Held)
      returns (ok: bool, cycles: seq<seq<seq<EdgeData>>>, ghost t: IntegrityTrace)
      requires Valid() && Stored(service) && ConfigOk(cfg, ServiceScope)
      requires service.desc.View() == d0 && service.fwGraphs == fw0 && log.events == ev0
      requires Dict(StatesOf(storage.functions.entries)) == stored0 && HeldOf(service) == h0
      modifies storage`functions, service`functions, service`vnfIdMap, service`fwGraphs, log, StoredFunctions(), service.desc
      ensures Valid() && Stored(service) && storage.services == old(storage.services)
      ensures service.desc.content.Some? &&
        ServiceOutcome(cfg, schemaOk, readFunctions(cfg.dpath, cfg.dext), storage.idOf, buildId, simpleCycles,
                       stored0, h0, service.desc.id,
                       service.desc.content.value, d0, fw0, ev0, t, ok, cycles, service.fwGraphs, log.events)
    {
      StoredServiceValid(service);
      if !schemaOk(ServiceDoc, service.desc.content.value) {
        ok, cycles, t := SyntaxRejected(service, d0, fw0, ev0, stored0, h0);
      } else if !cfg.integrity {
        ok, cycles, t := IntegrityDisabled(service, d0, fw0, ev0, stored0, h0);
      } else {
        ok, cycles, t := SyntaxPassedStages(service, d0, fw0, ev0, stored0, h0);
      }
    }

    /** A passed syntax stage with integrity disabled: the service is valid
        and nothing is logged. */
    method IntegrityDisabled(service: Service, ghost d0: DescState, ghost fw0: seq<FwGraph>, ghost ev0: seq<Event>,
                             ghost stored0: Dict<string, (FunctionState, Option<Content>)>, ghost h0: Held)
      returns (ok: bool, cycles: seq<seq<seq<EdgeData>>>, ghost t: IntegrityTrace)
      requires service.desc.content.Some? && schemaOk(ServiceDoc, service.desc.content.value) && !cfg.integrity
      requires service.fwGraphs == fw0 && log.events == ev0
      ensures service.desc.content.Some? &&
        ServiceOutcome(cfg, schemaOk, readFunctions(cfg.dpath, cfg.dext), storage.idOf, buildId, simpleCycles,
                       stored0, h0, service.desc.id,
                       service.desc.content.value, d0, fw0, ev0, t, ok, cycles, service.fwGraphs, log.events)
    {
      var none := EmptyService(service.desc.id, EmptyState());
      t := IntegrityTrace(false, [], false, [], [], none, false, none, []);
      return true, [], t;
    }

    /** The syntax stage of `validate_service` failing: the error is logged
        and the service is invalid. */
    method SyntaxRejected(service: Service, ghost d0: DescState, ghost fw0: seq<FwGraph>, ghost ev0: seq<Event>,
                          ghost stored0: Dict<string, (FunctionState, Option<Content>)>, ghost h0: Held)
      returns (ok: bool, cycles: seq<seq<seq<EdgeData>>>, ghost t: IntegrityTrace)
      requires Valid() && Stored(service)
      requires service.desc.content.Some? && !schemaOk(ServiceDoc, service.desc.content.value)
      requires service.fwGraphs == fw0 && log.events == ev0
      modifies log
      ensures Valid() && Stored(service) && storage.services == old(storage.services)
      ensures service.desc.content.Some? &&
        ServiceOutcome(cfg, schemaOk, readFunctions(cfg.dpath, cfg.dext), storage.idOf, buildId, simpleCycles,
                       stored0, h0, service.desc.id,
                       service.desc.content.value, d0, fw0, ev0, t, ok, cycles, service.fwGraphs, log.events)
    {
      var none := EmptyService(service.desc.id, EmptyState());
      t := IntegrityTrace(false, [], false, [], [], none, false, none, []);
      SelfApart();
      Report(service.desc.id, NsdStxInvalid);
      return false, [], t;
    }

    /** The stages after a passed syntax stage with integrity enabled:
        integrity, then topology when enabled. */
    method SyntaxPassedStages(service: Service, ghost d0: DescState, ghost fw0: seq<FwGraph>, ghost ev0: seq<Event>,
                              ghost stored0: Dict<string, (FunctionState, Option<Content>)>, ghost h0: Held)
      returns (ok: bool, cycles: seq<seq<seq<EdgeData>>>, ghost t: IntegrityTrace)
      requires Valid() && Stored(service) && ConfigOk(cfg, ServiceScope)
      requires service.desc.content.Some? && schemaOk(ServiceDoc, service.desc.content.value) && cfg.integrity
      requires service.desc.View() == d0 && service.fwGraphs == fw0 && log.events == ev0
      requires Dict(StatesOf(storage.functions.entries)) == stored0 && HeldOf(service) == h0
      modifies storage`functions, service`functions, service`vnfIdMap, service`fwGraphs, log, StoredFunctions(), service.desc
      ensures Valid() && Stored(service) && storage.services == old(storage.services)
      ensures service.desc.content.Some? &&
        ServiceOutcome(cfg, schemaOk, readFunctions(cfg.dpath, cfg.dext), storage.idOf, buildId, simpleCycles,
                       stored0, h0, service.desc.id,
                       service.desc.content.value, d0, fw0, ev0, t, ok, cycles, service.fwGraphs, log.events)
    {
      SelfApart();
      ghost var c := cfg;
      ok, cycles, t := IntegrityThenTopology(service, stored0, h0);
      assert cfg == c;
    }

    /** An event logged against a descriptor; nothing else changes. */
    method Report(source: string, code: Code)
      requires Valid()
      modifies log
      ensures Valid() && log.events == old(log.events) + [Event(source, code)]
    {
      label Reported:
      log.Log(source, code);
      StoreKept@Reported();
    }

    /** The validator is none of the stored objects. */
    lemma SelfApart()
      ensures this !in StoredFunctions() && this !in StoredServices()
    {
    }

    /** The integrity stage once every declared function was found: the
        held functions validated, then the service checks, as values. */
    method FoundTraced(service: Service) returns (ok: bool, ghost t: IntegrityTrace)
      requires Valid() && Stored(service) && service.desc.content.Some?
      modifies StoredFunctions(), service.desc, log
      ensures Valid() && unchanged(storage) && unchanged(service)
      ensures t.found && t.sv == t.after.(d := old(service.desc.View()))
      ensures LoadedInto(service.desc.id, old(Held(Dict(StatesOf(service.functions.entries)), service.vnfIdMap)), t)
      ensures ChecksOutcome(service.desc.id, Validated(cfg, schemaOk), service.desc.content.value, t.ins, t.passed,
                            old(log.events), t.evLoop, t.cur, t.sv, t.ok, t.after, t.events)
      ensures ok == t.ok && t.after == service.View() && t.events == log.events
    {
      HeldStored(service);
      ghost var es := service.functions.entries;
      ghost var hs := StatesOf(es);
      StatesAsInputs(es);
      ghost var ins := Inputs(es);
      var passed;
      ghost var evLoop, cur, sv;
      ok, passed, evLoop, cur, sv := FunctionsThenChecks(service);
      t := IntegrityTrace(true, ins, passed, evLoop, cur, sv, ok, service.View(), log.events);
      ViewsAsSettled(es, hs);
    }

    /** The functions a stored service holds are stored ones. */
    lemma HeldStored(service: Service)
      requires Valid() && Stored(service)
      ensures Moved(service.functions.entries) <= StoredFunctions()
    {
      StoredServiceValid(service);
      var es := service.functions.entries;
      forall k | 0 <= k < |es| ensures es[k].1 in StoredFunctions() && es[k].1.desc in StoredFunctions() {
        GetEntryOf(storage.functions, es[k].0);
      }
    }

    /** After the load: the functions validated, then, when they all
        passed, the service checks. */
    method FunctionsThenChecks(service: Service)
      returns (ok: bool, passed: bool, ghost evLoop: seq<Event>, ghost cur: seq<(FunctionState, Option<Content>)>,
               ghost sv: ServiceState)
      requires Valid() && Stored(service) && service.desc.content.Some?
      modifies Moved(service.functions.entries), service.desc, log
      ensures Valid() && unchanged(storage) && unchanged(service)
      ensures Inputs(service.functions.entries) == cur
      ensures sv == ServiceState(service.desc.id, old(service.desc.View()), Dict(ViewsOf(service.functions.entries)), service.vnfIdMap)
      ensures ChecksOutcome(service.desc.id, Validated(cfg, schemaOk), service.desc.content.value,
                            old(Inputs(service.functions.entries)), passed, old(log.events), evLoop, cur, sv, ok,
                            service.View(), log.events)
    {
      ghost var ins := Inputs(service.functions.entries);
      ghost var ev0 := log.events;
      passed := ValidateServiceFunctions(service);
      evLoop := log.events;
      if !passed {
        cur := Inputs(service.functions.entries);
        sv := service.View();
        return false, passed, evLoop, cur, sv;
      }
      ok, cur, sv := ChecksAfter(service, ins, ev0);
    }

    /** The service checks once every function passed: `ins` and `ev0` are
        where the validation of the functions started. */
    method ChecksAfter(service: Service, ghost ins: seq<(FunctionState, Option<Content>)>, ghost ev0: seq<Event>)
      returns (ok: bool, ghost cur: seq<(FunctionState, Option<Content>)>, ghost sv: ServiceState)
      requires Valid() && Stored(service) && service.desc.content.Some?
      requires RunDone(service.desc.id, Validated(cfg, schemaOk), ins, true, ev0, log.events, Inputs(service.functions.entries))
      modifies service.desc, log
      ensures Valid() && unchanged(storage) && unchanged(service)
      ensures Inputs(service.functions.entries) == cur
      ensures sv == ServiceState(service.desc.id, old(service.desc.View()), Dict(ViewsOf(service.functions.entries)), service.vnfIdMap)
      ensures ChecksOutcome(service.desc.id, Validated(cfg, schemaOk), service.desc.content.value,
                            ins, true, ev0, old(log.events), cur, sv, ok, service.View(), log.events)
    {
      cur := Inputs(service.functions.entries);
      sv := service.View();
      label Checking:
      ok := CheckedService(service);
      HeldKept@Checking(service.functions.entries);
    }

    /** The service checks on a stored service, keeping the invariant. */
    method CheckedService(service: Service) returns (ok: bool)
      requires Valid() && Stored(service) && service.desc.content.Some?
      modifies service.desc, log
      ensures Valid()
      ensures var r := ServiceChecks(old(service.View()), service.desc.content.value);
        ok == r.ok && service.View() == r.state && log.events == old(log.events) + r.events
      ensures unchanged(FunctionObjects(service.functions.entries)) && unchanged(DescObjects(service.functions.entries))
    {
      StoredServiceValid(service);
      LogApart();
      ServiceDescApart(service);
      label Before:
      ok := ServiceChecksStage(service);
      DescChanged@Before(service);
    }

    /** When only a stored service's own descriptor changed, and the
        service keeps its invariant, the validator keeps its own. */
    twostate lemma DescChanged(service: Service)
      requires old(Valid()) && old(Stored(service)) && unchanged(storage)
      requires unchanged(old(StoredFunctions())) && unchanged(old(StoredServices()) - {service.desc})
      requires service.Valid()
      ensures Valid()
    {
      GetEntryOf(storage.services, service.desc.id);
      assert service in old(StoredServices());
      FunctionsKeptAll();
      ServicesKeptBut(service);
    }

    /** A service is none of the stored functions' objects. */
    lemma ServiceApart(service: Service)
      ensures service !in StoredFunctions()
    {
    }

    /** A service's descriptor is none of the stored functions' objects. */
    lemma ServiceDescApart(service: Service)
      requires storage.Valid() && service.desc.kind == ServiceDoc
      ensures service.desc !in StoredFunctions()
    {
      forall i | 0 <= i < |storage.functions.entries| ensures storage.functions.entries[i].1.desc != service.desc {
        assert storage.functions.entries[i].1.desc.kind == FunctionDoc;
      }
    }

    /** The checks of `_validate_service_integrity` after its functions are
        validated: load the connection points, then the links, each failure
        logging its own event and ending the stage, then the references. */
    method ServiceChecksStage(service: Service) returns (ok: bool)
      requires service.Valid() && service.desc.content.Some?
      modifies service.desc, log
      ensures var r := ServiceChecks(old(service.View()), service.desc.content.value);
        ok == r.ok && service.View() == r.state && log.events == old(log.events) + r.events
      ensures service.Valid()
      ensures unchanged(FunctionObjects(service.functions.entries)) && unchanged(DescObjects(service.functions.entries))
    {
      service.OwnDescriptor();
      ServiceChecksValid(service.View(), service.desc.content.value);
      ok := ServiceCpsStage(service);
      service.ViewValid();
    }

    /** The same checks, on a service whose own descriptor is not one of
        its functions'. */
    method ServiceCpsStage(service: Service) returns (ok: bool)
      requires service.desc.content.Some? && service.desc !in DescObjects(service.functions.entries)
      modifies service.desc, log
      ensures var r := ServiceChecks(old(service.View()), service.desc.content.value);
        ok == r.ok && service.View() == r.state && log.events == old(log.events) + r.events
    {
      ghost var ev0 := log.events;
      var loaded := service.LoadConnectionPoints(log);
      ghost var ev1 := log.events;
      ok := AfterCpsStage(service, loaded);
      AppendAssoc(ev0, ev1[|ev0|..], log.events[|ev1|..]);
    }

    /** A failed load of the connection points is reported; otherwise the
        links are next. */
    method AfterCpsStage(service: Service, loaded: bool) returns (ok: bool)
      requires service.desc.content.Some? && service.desc !in DescObjects(service.functions.entries)
      modifies service.desc, log
      ensures var r := if loaded then ChecksFromLinks(old(service.View()), service.desc.content.value)
        else Step(old(service.View()), false, [Event(service.desc.id, NsdItgBadsectionCpoints)]);
        ok == r.ok && service.View() == r.state && log.events == old(log.events) + r.events
    {
      if !loaded {
        log.Log(service.desc.id, NsdItgBadsectionCpoints);
        return false;
      }
      ok := ServiceLinksStage(service);
    }

    /** The rest of those checks once the connection points are loaded. */
    method ServiceLinksStage(service: Service) returns (ok: bool)
      requires service.desc.content.Some? && service.desc !in DescObjects(service.functions.entries)
      modifies service.desc, log
      ensures var r := ChecksFromLinks(old(service.View()), service.desc.content.value);
        ok == r.ok && service.View() == r.state && log.events == old(log.events) + r.events
    {
      ghost var ev0 := log.events;
      var loaded := service.LoadVirtualLinks(log);
      ghost var ev1 := log.events;
      ok := LinksVerdict(service.View(), loaded, log);
      AppendAssoc(ev0, ev1[|ev0|..], log.events[|ev1|..]);
    }

    /** What follows loading the links: a failed load is reported, otherwise
        the references are checked. */
    static method LinksVerdict(s: ServiceState, loaded: bool, log: EventLog) returns (ok: bool)
      modifies log
      ensures var k := RefChecks(s);
        ok == (loaded && k.ok) &&
        log.events == old(log.events) + (if loaded then k.events else [Event(s.id, NsdItgBadsectionVlinks)])
    {
      if !loaded {
        log.Log(s.id, NsdItgBadsectionVlinks);
        return false;
      }
      ok := RefChecksOf(s, log);
    }

    /** `_validate_service_topology` on a service given as a value: the
        checks on the service, then its forwarding graphs.  The graphs
        loaded and the `cycle_path`s found are returned. */
    method ServiceTopologyOf(s: ServiceState, fw0: seq<FwGraph>, c: Content)
      returns (ok: bool, graphs: seq<FwGraph>, cycles: seq<seq<seq<EdgeData>>>)
      requires s.Closed()
      modifies log
      ensures var r := ServiceTopology(s, fw0, c, simpleCycles);
        ok == r.ok && graphs == r.state.fwGraphs && cycles == r.state.cycles &&
        log.events == old(log.events) + r.events
    {
      ghost var ev0 := log.events;
      ok := TopologyChecksOf(s, log);
      if !ok {
        return false, fw0, [];
      }
      ghost var ev1 := log.events;
      ok, graphs, cycles := FwGraphsOf(s, fw0, c, simpleCycles, log);
      AppendAssoc(ev0, ev1[|ev0|..], log.events[|ev1|..]);
    }

    /** `_validate_service_topology`: the checks and the graphs computed
        from the service as it is, the graphs then loaded into it. */
    method ServiceTopologyStage(service: Service) returns (ok: bool, cycles: seq<seq<seq<EdgeData>>>)
      requires service.desc.content.Some? && service.View().Closed()
      modifies service`fwGraphs, log
      ensures var r := ServiceTopology(old(service.View()), old(service.fwGraphs), service.desc.content.value, simpleCycles);
        ok == r.ok && service.fwGraphs == r.state.fwGraphs && cycles == r.state.cycles &&
        log.events == old(log.events) + r.events
    {
      var graphs;
      ok, graphs, cycles := ServiceTopologyOf(service.View(), service.fwGraphs, service.desc.content.value);
      service.fwGraphs := graphs;
    }

    /** When only a stored service's forwarding graphs changed, the
        validator keeps its invariant. */
    twostate lemma FwGraphsChanged(service: Service)
      requires old(Valid()) && old(Stored(service)) && unchanged(storage)
      requires unchanged(old(StoredFunctions())) && unchanged(old(StoredServices()) - {service})
      requires unchanged(service`functions, service`vnfIdMap)
      ensures Valid()
    {
      GetEntryOf(storage.services, service.desc.id);
      assert service.desc in old(StoredServices());
      FunctionsKeptAll();
      ServicesKeptBut(service);
    }
  }
}
