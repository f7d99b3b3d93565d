/**
 * Deployment units (storage.py `Unit`, `VDU_Unit`, `CDU_Unit`): a node with
 * connection points; a cloud-native unit also maps connection points to
 * ports and carries environment and Kubernetes settings.  A unit belongs to
 * exactly one function, so it is modelled as a value the function's unit
 * dictionary holds.
 */
module Units {
  import opened Wrappers
  import opened Refs
  import opened Dicts
  import opened Events
  import opened Content
  import opened Folds
  import Links

  datatype UnitKind = VDU | CDU

  datatype Unit = Unit(
    id: string,
    kind: UnitKind,
    cps: seq<string>,
    ports: Dict<string, int>,
    env: Dict<string, string>,
    k8sDeployment: Dict<string, string>,
    k8sService: Dict<string, string>)
  {
    /** `CDU_Unit.add_port`: `ports[cp] = port`. */
    function AddPort(cp: string, port: int): (u: Unit)
      ensures u.ports.Get(cp) == Some(port)
      ensures forall c | c != cp :: u.ports.Get(c) == ports.Get(c)
      ensures u.id == id && u.kind == kind && u.cps == cps
    {
      GetPutAll(ports, cp, port);
      this.(ports := ports.Put(cp, port))
    }
  }

  lemma GetPutAll<V>(d: Dict<string, V>, k: string, v: V)
    ensures d.Put(k, v).Get(k) == Some(v)
    ensures forall c | c != k :: d.Put(k, v).Get(c) == d.Get(c)
  {
    forall c | c != k ensures d.Put(k, v).Get(c) == d.Get(c) {
      GetPut(d, k, v, c);
    }
    GetPut(d, k, v, k);
  }

  function NewUnit(id: string, kind: UnitKind): (u: Unit)
    ensures u.id == id && u.kind == kind && u.cps == [] && u.ports.Keys() == []
  {
    Unit(id, kind, [], Empty(), Empty(), Empty(), Empty())
  }

  /** `set_env` and its Kubernetes siblings: copy every item into `d`. */
  function Merge(d: Dict<string, string>, items: seq<(string, string)>): Dict<string, string>
    decreases |items|
  {
    if |items| == 0 then d
    else Merge(d, items[..|items| - 1]).Put(items[|items| - 1].0, items[|items| - 1].1)
  }

  /** The value the last item with key `k` gives, if any. */
  function LastValue(items: seq<(string, string)>, k: string): Option<string>
    decreases |items|
  {
    if |items| == 0 then None
    else if items[|items| - 1].0 == k then Some(items[|items| - 1].1)
    else LastValue(items[..|items| - 1], k)
  }

  /** After merging, a key reads as its last value among the items, and a
      key no item names reads as before. */
  lemma {:induction false} MergeGet(d: Dict<string, string>, items: seq<(string, string)>, k: string)
    ensures Merge(d, items).Get(k) == (match LastValue(items, k) case Some(v) => Some(v) case None => d.Get(k))
    decreases |items|
  {
    if |items| > 0 {
      var n := |items|;
      MergeGet(d, items[..n - 1], k);
      GetPut(Merge(d, items[..n - 1]), items[n - 1].0, items[n - 1].1, k);
    }
  }

  /** A cloud-native unit with the settings of its `parameters` section. */
  function WithParams(u: Unit, params: Option<UnitParams>): Unit {
    match params
    case None => u
    case Some(p) => u.(env := Merge(u.env, p.env),
                       k8sDeployment := Merge(u.k8sDeployment, p.k8sDeployment),
                       k8sService := Merge(u.k8sService, p.k8sService))
  }

  /** Connection point ids as a node keeps them: distinct and colon-free. */
  ghost predicate CpsValid(c: seq<string>) {
    (forall a, b | 0 <= a < b < |c| :: c[a] != c[b]) &&
    (forall a | 0 <= a < |c| :: !HasColon(c[a]))
  }

  /** Unit keys name their unit, and a unit's connection points are valid. */
  ghost predicate UnitsValid(units: Dict<string, Unit>) {
    units.Valid() &&
    forall i | 0 <= i < |units.entries| ::
      units.entries[i].1.id == units.entries[i].0 && CpsValid(units.entries[i].1.cps)
  }

  /** `Function.associate_unit` as it is meant to behave: a unit whose id is
      already associated is rejected, anything else is stored under its id. */
  function AssociateUnit(units: Dict<string, Unit>, u: Unit): (r: Step<Dict<string, Unit>>)
    ensures r.events == []
    ensures r.ok <==> !units.HasKey(u.id)
    ensures !r.ok ==> r.state == units
    ensures r.ok ==> r.state.entries == units.entries + [(u.id, u)]
  {
    if units.HasKey(u.id) then Step(units, false, [])
    else Step(units.Put(u.id, u), true, [])
  }

  /** `Function.associate_unit` as written: the duplicate branch tests
      `isinstance(unit, VDU_unit)`, a name the module never defines, so it
      raises `NameError` instead of rejecting. */
  function AssociateUnitAsWritten(units: Dict<string, Unit>, u: Unit): (r: Outcome<Step<Dict<string, Unit>>>)
    ensures r.Raised? <==> units.HasKey(u.id)
    ensures r.Returned? ==> r.value == AssociateUnit(units, u)
  {
    if units.HasKey(u.id) then Raised("NameError")
    else Returned(AssociateUnit(units, u))
  }

  /** The discrepancy: associating the same unit id twice raises. */
  lemma AssociateUnitTwiceRaises(u: Unit)
    ensures AssociateUnit(Empty(), u).ok
    ensures AssociateUnitAsWritten(AssociateUnit(Empty(), u).state, u).Raised?
    ensures !AssociateUnit(AssociateUnit(Empty(), u).state, u).ok
  {
    PutHasKey(Empty<string, Unit>(), u.id, u, u.id);
  }

  /** Associating keeps the unit dictionary valid. */
  lemma AssociateUnitValid(units: Dict<string, Unit>, u: Unit)
    requires UnitsValid(units)
    requires CpsValid(u.cps)
    ensures UnitsValid(AssociateUnit(units, u).state)
  {
    if !units.HasKey(u.id) {
      PutShape(units, u.id, u);
    }
  }

  /** The unit one entry of a units section creates. */
  function DeclaredUnit(d: UnitDecl, kind: UnitKind): Unit {
    if kind == VDU then NewUnit(d.id, VDU) else WithParams(NewUnit(d.id, CDU), d.parameters)
  }

  /** One iteration of `load_units`; a rejected duplicate does not stop it. */
  function UnitStep(kind: UnitKind): (Dict<string, Unit>, UnitDecl) -> Step<Dict<string, Unit>> {
    (us: Dict<string, Unit>, d: UnitDecl) => Step(AssociateUnit(us, DeclaredUnit(d, kind)).state, true, [])
  }

  /** `Function.load_units`: the VDU section wins when both are present;
      without either the load fails. */
  function LoadUnits(units: Dict<string, Unit>, c: Content): Step<Dict<string, Unit>> {
    if c.vdus.Some? then Run(UnitStep(VDU), units, c.vdus.value)
    else if c.cdus.Some? then Run(UnitStep(CDU), units, c.cdus.value)
    else Step(units, false, [])
  }

  /** One entry of a units section: accepted, silent, and leaves its id
      associated without dropping any earlier unit. */
  lemma UnitStepShape(kind: UnitKind, us: Dict<string, Unit>, d: UnitDecl)
    requires us.Valid()
    ensures var r := UnitStep(kind)(us, d);
      r.ok && r.events == [] && r.state.Valid() && us.entries <= r.state.entries &&
      r.state.HasKey(d.id) && forall k | us.HasKey(k) :: r.state.HasKey(k)
  {
    var u := DeclaredUnit(d, kind);
    assert u.id == d.id;
    if !us.HasKey(u.id) {
      PutShape(us, u.id, u);
      forall k | us.HasKey(k) ensures us.Put(u.id, u).HasKey(k) {
        PutHasKey(us, u.id, u, k);
      }
    }
  }

  /** Loading units never fails on a present section, keeps every unit
      stored before, and leaves every declared id associated. */
  lemma RunUnitsShape(kind: UnitKind, units: Dict<string, Unit>, decls: seq<UnitDecl>)
    requires units.Valid()
    ensures Run(UnitStep(kind), units, decls).ok
    ensures Run(UnitStep(kind), units, decls).events == []
    ensures Run(UnitStep(kind), units, decls).state.Valid()
    ensures units.entries <= Run(UnitStep(kind), units, decls).state.entries
    ensures forall i | 0 <= i < |decls| :: Run(UnitStep(kind), units, decls).state.HasKey(decls[i].id)
  {
    RunUnitsKept(kind, units, decls);
    RunUnitsDeclared(kind, units, decls);
  }

  /** The run succeeds silently, stays valid and keeps the earlier units
      in front. */
  lemma {:induction false} RunUnitsKept(kind: UnitKind, units: Dict<string, Unit>, decls: seq<UnitDecl>)
    requires units.Valid()
    ensures var r := Run(UnitStep(kind), units, decls);
      r.ok && r.events == [] && r.state.Valid() && units.entries <= r.state.entries
    decreases |decls|
  {
    if |decls| > 0 {
      var n := |decls|;
      var pre := decls[..n - 1];
      RunUnitsKept(kind, units, pre);
      var p := Run(UnitStep(kind), units, pre);
      var q := UnitStep(kind)(p.state, decls[n - 1]);
      UnitStepShape(kind, p.state, decls[n - 1]);
      assert Run(UnitStep(kind), units, decls) == Step(q.state, q.ok, p.events + q.events);
    }
  }

  /** Every declared id is associated after the run. */
  lemma {:induction false} RunUnitsDeclared(kind: UnitKind, units: Dict<string, Unit>, decls: seq<UnitDecl>)
    requires units.Valid()
    ensures forall i | 0 <= i < |decls| :: Run(UnitStep(kind), units, decls).state.HasKey(decls[i].id)
    decreases |decls|
  {
    if |decls| > 0 {
      var n := |decls|;
      var pre := decls[..n - 1];
      RunUnitsDeclared(kind, units, pre);
      RunUnitsKept(kind, units, pre);
      var p := Run(UnitStep(kind), units, pre);
      var q := UnitStep(kind)(p.state, decls[n - 1]);
      UnitStepShape(kind, p.state, decls[n - 1]);
      var r := Run(UnitStep(kind), units, decls);
      assert r.state == q.state;
      forall i | 0 <= i < n ensures r.state.HasKey(decls[i].id) {
        if i < n - 1 {
          assert pre[i] == decls[i];
          assert p.state.HasKey(pre[i].id);
        }
      }
    }
  }

  lemma LoadUnitsShape(units: Dict<string, Unit>, c: Content)
    requires units.Valid()
    ensures LoadUnits(units, c).ok <==> c.vdus.Some? || c.cdus.Some?
    ensures LoadUnits(units, c).events == []
    ensures LoadUnits(units, c).state.Valid() && units.entries <= LoadUnits(units, c).state.entries
    ensures c.vdus.Some? ==>
      forall i | 0 <= i < |c.vdus.value| :: LoadUnits(units, c).state.HasKey(c.vdus.value[i].id)
    ensures c.vdus.None? && c.cdus.Some? ==>
      forall i | 0 <= i < |c.cdus.value| :: LoadUnits(units, c).state.HasKey(c.cdus.value[i].id)
  {
    if c.vdus.Some? {
      RunUnitsShape(VDU, units, c.vdus.value);
    } else if c.cdus.Some? {
      RunUnitsShape(CDU, units, c.cdus.value);
    }
  }

  /** The connection points of one unit entry: each is added as a unit
      connection point (a rejection only raises its event), and on a
      cloud-native unit a declared port is recorded whether or not the
      connection point was accepted. */
  function AddUnitCps(u: Unit, decls: seq<CpDecl>, withPorts: bool): (r: (Unit, seq<Event>))
    ensures r.0.id == u.id && r.0.kind == u.kind
    decreases |decls|
  {
    if |decls| == 0 then (u, [])
    else
      var p := AddUnitCps(u, decls[..|decls| - 1], withPorts);
      var d := decls[|decls| - 1];
      var a := Links.AddConnectionPoint(p.0.id, p.0.cps, d.id);
      var v := p.0.(cps := a.state);
      var w := if withPorts && d.port.Some? then v.AddPort(d.id, d.port.value) else v;
      (w, p.1 + a.events)
  }

  /** A unit's connection points stay distinct and colon-free. */
  lemma {:induction false} AddUnitCpsDistinct(u: Unit, decls: seq<CpDecl>, withPorts: bool)
    requires CpsValid(u.cps)
    ensures CpsValid(AddUnitCps(u, decls, withPorts).0.cps)
    decreases |decls|
  {
    if |decls| > 0 {
      var n := |decls|;
      AddUnitCpsDistinct(u, decls[..n - 1], withPorts);
      var p := AddUnitCps(u, decls[..n - 1], withPorts).0;
      var a := Links.AddConnectionPoint(p.id, p.cps, decls[n - 1].id);
      assert AddUnitCps(u, decls, withPorts).0.cps == a.state;
    }
  }

  /** Every accepted id is a connection point of the unit afterwards, and
      on a cloud-native unit every declared port is recorded. */
  lemma {:induction false} AddUnitCpsDeclared(u: Unit, decls: seq<CpDecl>, withPorts: bool)
    ensures var w := AddUnitCps(u, decls, withPorts).0;
      forall i | 0 <= i < |decls| && !HasColon(decls[i].id) :: decls[i].id in w.cps
    ensures var w := AddUnitCps(u, decls, withPorts).0;
      forall x | x in u.cps :: x in w.cps
    decreases |decls|
  {
    if |decls| > 0 {
      var n := |decls|;
      AddUnitCpsDeclared(u, decls[..n - 1], withPorts);
      forall i | 0 <= i < n - 1 ensures decls[..n - 1][i] == decls[i] { }
    }
  }

  /** One iteration of `load_unit_connection_points`: the unit must be
      associated and its entry must list connection points (a cloud-native
      entry must list at least one). */
  function UnitCpsEntry(withPorts: bool, us: Dict<string, Unit>, d: UnitDecl): Step<Dict<string, Unit>> {
    match us.Get(d.id)
    case None => Step(us, false, [])
    case Some(u) =>
      if d.connectionPoints.None? || (withPorts && |d.connectionPoints.value| == 0) then Step(us, false, [])
      else
        var r := AddUnitCps(u, d.connectionPoints.value, withPorts);
        Step(us.Put(d.id, r.0), true, r.1)
  }

  function UnitCpsStep(withPorts: bool): (Dict<string, Unit>, UnitDecl) -> Step<Dict<string, Unit>> {
    (us: Dict<string, Unit>, d: UnitDecl) => UnitCpsEntry(withPorts, us, d)
  }

  /** What one entry's step does, case by case. */
  lemma UnitCpsStepCases(withPorts: bool, us: Dict<string, Unit>, d: UnitDecl)
    ensures us.Get(d.id).None? ==> UnitCpsEntry(withPorts, us, d) == Step(us, false, [])
    ensures us.Get(d.id).Some? && (d.connectionPoints.None? || (withPorts && |d.connectionPoints.value| == 0)) ==>
      UnitCpsEntry(withPorts, us, d) == Step(us, false, [])
    ensures us.Get(d.id).Some? && d.connectionPoints.Some? && !(withPorts && |d.connectionPoints.value| == 0) ==>
      var r := AddUnitCps(us.Get(d.id).value, d.connectionPoints.value, withPorts);
      UnitCpsEntry(withPorts, us, d) == Step(us.Put(d.id, r.0), true, r.1)
  {
  }

  /** `Function.load_unit_connection_points`. */
  function LoadUnitCps(units: Dict<string, Unit>, c: Content): Step<Dict<string, Unit>> {
    if c.vdus.Some? then Run(UnitCpsStep(false), units, c.vdus.value)
    else if c.cdus.Some? then Run(UnitCpsStep(true), units, c.cdus.value)
    else Step(units, false, [])
  }

  lemma UnitCpsStepValid(withPorts: bool, us: Dict<string, Unit>, d: UnitDecl)
    requires UnitsValid(us)
    ensures UnitsValid(UnitCpsEntry(withPorts, us, d).state)
  {
    var r := UnitCpsEntry(withPorts, us, d);
    if r.ok {
      var i := IndexOf(us.entries, d.id).value;
      var u := us.entries[i].1;
      assert us.Get(d.id) == Some(u);
      var w := AddUnitCps(u, d.connectionPoints.value, withPorts).0;
      AddUnitCpsDistinct(u, d.connectionPoints.value, withPorts);
      assert r.state == us.Put(d.id, w);
      assert r.state.entries == us.entries[i := (d.id, w)];
      assert forall j | 0 <= j < |us.entries| && j != i :: r.state.entries[j] == us.entries[j];
    }
  }

  /** Loading unit connection points keeps the units valid. */
  lemma LoadUnitCpsValid(units: Dict<string, Unit>, c: Content)
    requires UnitsValid(units)
    ensures UnitsValid(LoadUnitCps(units, c).state)
  {
    forall withPorts: bool, us, d | UnitsValid(us) ensures UnitsValid(UnitCpsStep(withPorts)(us, d).state) {
      UnitCpsStepValid(withPorts, us, d);
    }
    if c.vdus.Some? {
      RunPreserves(UnitCpsStep(false), UnitsValid, units, c.vdus.value);
    } else if c.cdus.Some? {
      RunPreserves(UnitCpsStep(true), UnitsValid, units, c.cdus.value);
    }
  }

  /** Loading units keeps the units valid: a new unit has no connection
      points yet. */
  lemma LoadUnitsValid(units: Dict<string, Unit>, c: Content)
    requires UnitsValid(units)
    ensures UnitsValid(LoadUnits(units, c).state)
  {
    forall kind: UnitKind, us, d | UnitsValid(us) ensures UnitsValid(UnitStep(kind)(us, d).state) {
      AssociateUnitValid(us, DeclaredUnit(d, kind));
    }
    if c.vdus.Some? {
      RunPreserves(UnitStep(VDU), UnitsValid, units, c.vdus.value);
    } else if c.cdus.Some? {
      RunPreserves(UnitStep(CDU), UnitsValid, units, c.cdus.value);
    }
  }
}
