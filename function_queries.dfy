/**
 * The queries a loaded function descriptor answers (storage.py `Function`):
 * undeclared references, self-loops, isolated units, unused unit connection
 * points, and cloud-native ports used more than once.  They only read the
 * loaded state, so they are functions over `FunctionState`, the value view
 * of a `Function` object.
 */
module FunctionQueries {
  import opened Wrappers
  import opened Refs
  import opened Dicts
  import opened Events
  import opened Links
  import opened Units

  /** A loaded function: its id, its descriptor state and its units. */
  datatype FunctionState = FunctionState(id: string, d: DescState, units: Dict<string, Unit>) {
    ghost predicate Valid() {
      d.Valid() && UnitsValid(units)
    }
  }

  // ------------------------------------------------- undeclared references

  /** A reference names a declared connection point: a plain id of the
      function, or `unit:cp` with `cp` a connection point of that unit.  A
      reference with more separators is not examined. */
  predicate DeclaredRef(f: FunctionState, r: string) {
    var sp := Split(r);
    if |sp| == 1 then r in f.d.cps
    else if |sp| == 2 then
      match f.units.Get(sp[0])
      case None => false
      case Some(u) => sp[1] in u.cps
    else true
  }

  function UndeclaredOf(f: FunctionState, refs: seq<string>): seq<string>
    decreases |refs|
  {
    if |refs| == 0 then []
    else
      var last := refs[|refs| - 1];
      UndeclaredOf(f, refs[..|refs| - 1]) + (if DeclaredRef(f, last) then [] else [last])
  }

  /** `Function.undeclared_connection_points`. */
  function Undeclared(f: FunctionState): seq<string> {
    UndeclaredOf(f, VlinkCpRefs(f.d) + VbridgeCpRefs(f.d))
  }

  lemma {:induction false} UndeclaredOfMember(f: FunctionState, refs: seq<string>, x: string)
    ensures x in UndeclaredOf(f, refs) <==> x in refs && !DeclaredRef(f, x)
    decreases |refs|
  {
    if |refs| > 0 {
      var n := |refs|;
      UndeclaredOfMember(f, refs[..n - 1], x);
      assert refs == refs[..n - 1] + [refs[n - 1]];
    }
  }

  /** The undeclared references are exactly the link and bridge references
      that name no declared connection point. */
  lemma UndeclaredMember(f: FunctionState, x: string)
    ensures x in Undeclared(f) <==> Referenced(f.d, x) && !DeclaredRef(f, x)
  {
    UndeclaredOfMember(f, VlinkCpRefs(f.d) + VbridgeCpRefs(f.d), x);
  }

  // ------------------------------------ the integrity loop over link refs

  /** One reference of the loop that closes function integrity checking:
      `None` when it passes, else the event it raises.  A `unit:cp`
      reference indexes the unit dictionary directly, which raises
      `KeyError` for an unknown unit. */
  function RefCheck(f: FunctionState, r: string): Outcome<Option<Event>> {
    var sp := Split(r);
    if |sp| == 1 && r !in f.d.cps then Returned(Some(Event(f.id, NsdItgUndefinedCpoint)))
    else if |sp| == 2 then
      match f.units.Get(sp[0])
      case None => Raised("KeyError")
      case Some(u) =>
        if sp[1] !in u.cps then Returned(Some(Event(f.id, VnfdItgUndefinedCpoint)))
        else Returned(None)
    else Returned(None)
  }

  /** The loop over the references of every link, stopping at the first
      failure. */
  function RefScan(f: FunctionState, refs: seq<string>): Outcome<Option<Event>>
    decreases |refs|
  {
    if |refs| == 0 then Returned(None)
    else
      match RefScan(f, refs[..|refs| - 1])
      case Raised(e) => Raised(e)
      case Returned(Some(ev)) => Returned(Some(ev))
      case Returned(None) => RefCheck(f, refs[|refs| - 1])
  }

  /** The scan passes exactly when every reference is declared; it never
      raises on declared references. */
  lemma {:induction false} RefScanDeclared(f: FunctionState, refs: seq<string>)
    ensures (forall i | 0 <= i < |refs| :: DeclaredRef(f, refs[i])) ==> RefScan(f, refs) == Returned(None)
    ensures RefScan(f, refs) == Returned(None) ==> forall i | 0 <= i < |refs| :: DeclaredRef(f, refs[i])
    decreases |refs|
  {
    if |refs| > 0 {
      var n := |refs|;
      var pre := refs[..n - 1];
      RefScanDeclared(f, pre);
      forall i | 0 <= i < n - 1 ensures pre[i] == refs[i] { }
      GetSomeHasKey(f.units, Split(refs[n - 1])[0]);
    }
  }

  /** Once no reference is undeclared, the integrity loop over link
      references can neither fail nor raise: its unguarded unit lookup is
      safe. */
  lemma RefScanAfterUndeclared(f: FunctionState)
    requires Undeclared(f) == []
    ensures RefScan(f, VlinkCpRefs(f.d)) == Returned(None)
  {
    var refs := VlinkCpRefs(f.d);
    forall i | 0 <= i < |refs| ensures DeclaredRef(f, refs[i]) {
      UndeclaredMember(f, refs[i]);
    }
    RefScanDeclared(f, refs);
  }

  // ---------------------------------------------------------- self-loops

  /** A link whose two endpoints belong to the same unit (or are both plain
      ids with the same name). */
  predicate LinkLoops(vl: VLink) {
    Owner(vl.cprU) == Owner(vl.cprV)
  }

  /** The references `j != i` with the same owner as reference `i`, in order. */
  function SameOwner(refs: seq<string>, i: nat, n: nat): (r: seq<string>)
    requires i < |refs| && n <= |refs|
    ensures forall x | x in r :: x in refs && Owner(x) == Owner(refs[i])
    ensures r != [] <==> exists j | 0 <= j < n :: j != i && Owner(refs[j]) == Owner(refs[i])
    decreases n
  {
    if n == 0 then []
    else
      var j := n - 1;
      SameOwner(refs, i, j) + (if j != i && Owner(refs[j]) == Owner(refs[i]) then [refs[j]] else [])
  }

  /** The loop a bridge makes: the first reference that shares its owner
      with another, followed by every other reference with that owner. */
  function BridgeLoopFrom(refs: seq<string>, i: nat): (r: Option<seq<string>>)
    requires i <= |refs|
    ensures r.Some? ==> |r.value| >= 2 && r.value[0] in refs
    ensures r.Some? ==> forall x | x in r.value :: x in refs && Owner(x) == Owner(r.value[0])
    decreases |refs| - i
  {
    if i == |refs| then None
    else
      var others := SameOwner(refs, i, |refs|);
      if others != [] then Some([refs[i]] + others) else BridgeLoopFrom(refs, i + 1)
  }

  /** A bridge loops exactly when two of its references share an owner. */
  lemma {:induction false} BridgeLoopFromSome(refs: seq<string>, i: nat)
    requires i <= |refs|
    ensures BridgeLoopFrom(refs, i).Some? <==>
      exists a, b | i <= a < |refs| && 0 <= b < |refs| :: a != b && Owner(refs[a]) == Owner(refs[b])
    decreases |refs| - i
  {
    if i < |refs| {
      BridgeLoopFromSome(refs, i + 1);
      if SameOwner(refs, i, |refs|) == [] {
        if exists a, b | i <= a < |refs| && 0 <= b < |refs| :: a != b && Owner(refs[a]) == Owner(refs[b]) {
          var a, b :| i <= a < |refs| && 0 <= b < |refs| && a != b && Owner(refs[a]) == Owner(refs[b]);
          assert a != i;
        }
      }
    }
  }

  lemma BridgeLoopSome(refs: seq<string>)
    ensures BridgeLoopFrom(refs, 0).Some? <==>
      exists a, b | 0 <= a < |refs| && 0 <= b < |refs| :: a != b && Owner(refs[a]) == Owner(refs[b])
  {
    BridgeLoopFromSome(refs, 0);
  }

  /** The link part of `Function.detect_loops`. */
  function LinkLoopsOf(acc: Dict<string, seq<string>>, es: seq<(string, VLink)>): Dict<string, seq<string>>
    decreases |es|
  {
    if |es| == 0 then acc
    else
      var p := LinkLoopsOf(acc, es[..|es| - 1]);
      var e := es[|es| - 1];
      if LinkLoops(e.1) then p.Put(e.0, e.1.Refs()) else p
  }

  /** The bridge part: a bridge whose id is already reported is skipped. */
  function BridgeLoopsOf(acc: Dict<string, seq<string>>, es: seq<(string, VBridge)>): Dict<string, seq<string>>
    decreases |es|
  {
    if |es| == 0 then acc
    else
      var p := BridgeLoopsOf(acc, es[..|es| - 1]);
      var e := es[|es| - 1];
      if p.HasKey(e.0) then p
      else match BridgeLoopFrom(e.1.refs, 0)
        case None => p
        case Some(v) => p.Put(e.0, v)
  }

  /** `Function.detect_loops`: every looping link and bridge, by id. */
  function DetectLoops(f: FunctionState): Dict<string, seq<string>> {
    BridgeLoopsOf(LinkLoopsOf(Empty(), f.d.vlinks.entries), f.d.vbridges.entries)
  }

  /** Each reported loop lists at least two references of one owner. */
  ghost predicate LoopValues(acc: Dict<string, seq<string>>) {
    forall i | 0 <= i < |acc.entries| ::
      |acc.entries[i].1| >= 2 && forall x | x in acc.entries[i].1 :: Owner(x) == Owner(acc.entries[i].1[0])
  }

  lemma PutLoopValues(acc: Dict<string, seq<string>>, k: string, v: seq<string>)
    requires LoopValues(acc) && |v| >= 2 && forall x | x in v :: Owner(x) == Owner(v[0])
    ensures LoopValues(acc.Put(k, v))
  {
  }

  /** The link part reports an id exactly when it was reported before or
      names a link with a loop. */
  lemma {:induction false} LinkLoopsOfSpec(acc: Dict<string, seq<string>>, es: seq<(string, VLink)>, k: string)
    ensures LinkLoopsOf(acc, es).HasKey(k) <==>
      acc.HasKey(k) || exists i | 0 <= i < |es| :: es[i].0 == k && LinkLoops(es[i].1)
    decreases |es|
  {
    if |es| > 0 {
      var n := |es|;
      var pre := es[..n - 1];
      LinkLoopsOfSpec(acc, pre, k);
      forall i | 0 <= i < n - 1 ensures pre[i] == es[i] { }
      assert (exists i | 0 <= i < n :: es[i].0 == k && LinkLoops(es[i].1)) <==>
        (exists i | 0 <= i < n - 1 :: pre[i].0 == k && LinkLoops(pre[i].1)) || (es[n - 1].0 == k && LinkLoops(es[n - 1].1));
      var p := LinkLoopsOf(acc, pre);
      var e := es[n - 1];
      if LinkLoops(e.1) {
        PutHasKey(p, e.0, e.1.Refs(), k);
      }
    }
  }

  /** The link part adds only loops of at least two references of one
      owner. */
  lemma {:induction false} LinkLoopsOfValues(acc: Dict<string, seq<string>>, es: seq<(string, VLink)>)
    requires LoopValues(acc)
    ensures LoopValues(LinkLoopsOf(acc, es))
    decreases |es|
  {
    if |es| > 0 {
      var n := |es|;
      LinkLoopsOfValues(acc, es[..n - 1]);
      var e := es[n - 1];
      if LinkLoops(e.1) {
        PutLoopValues(LinkLoopsOf(acc, es[..n - 1]), e.0, e.1.Refs());
      }
    }
  }

  /** The bridge part reports an id exactly when it was reported before or
      names a bridge with a loop. */
  lemma {:induction false} BridgeLoopsOfSpec(acc: Dict<string, seq<string>>, es: seq<(string, VBridge)>, k: string)
    ensures BridgeLoopsOf(acc, es).HasKey(k) <==>
      acc.HasKey(k) || exists i | 0 <= i < |es| :: LoopingBridge(es[i], k)
    decreases |es|
  {
    if |es| > 0 {
      var n := |es|;
      var pre := es[..n - 1];
      BridgeLoopsOfSpec(acc, pre, k);
      forall i | 0 <= i < n - 1 ensures pre[i] == es[i] { }
      assert (exists i | 0 <= i < n :: LoopingBridge(es[i], k)) <==>
        (exists i | 0 <= i < n - 1 :: LoopingBridge(pre[i], k)) || LoopingBridge(es[n - 1], k);
      var p := BridgeLoopsOf(acc, pre);
      var e := es[n - 1];
      if !p.HasKey(e.0) && BridgeLoopFrom(e.1.refs, 0).Some? {
        PutHasKey(p, e.0, BridgeLoopFrom(e.1.refs, 0).value, k);
      }
    }
  }

  /** The entry is a bridge with id `k` that loops. */
  predicate LoopingBridge(e: (string, VBridge), k: string) {
    e.0 == k && BridgeLoopFrom(e.1.refs, 0).Some?
  }

  /** The bridge part adds only loops of at least two references of one
      owner. */
  lemma {:induction false} BridgeLoopsOfValues(acc: Dict<string, seq<string>>, es: seq<(string, VBridge)>)
    requires LoopValues(acc)
    ensures LoopValues(BridgeLoopsOf(acc, es))
    decreases |es|
  {
    if |es| > 0 {
      var n := |es|;
      var pre := es[..n - 1];
      BridgeLoopsOfValues(acc, pre);
      var p := BridgeLoopsOf(acc, pre);
      var e := es[n - 1];
      if !p.HasKey(e.0) && BridgeLoopFrom(e.1.refs, 0).Some? {
        PutLoopValues(p, e.0, BridgeLoopFrom(e.1.refs, 0).value);
      }
    }
  }

  /** Loop detection is exhaustive: an id is reported exactly when it names
      a link with both endpoints on one owner or a bridge with two
      references on one owner, and every report lists at least two
      references of a single owner. */
  lemma DetectLoopsSpec(f: FunctionState, k: string)
    ensures DetectLoops(f).HasKey(k) <==>
      (exists i | 0 <= i < |f.d.vlinks.entries| ::
        f.d.vlinks.entries[i].0 == k && Owner(f.d.vlinks.entries[i].1.cprU) == Owner(f.d.vlinks.entries[i].1.cprV)) ||
      (exists i | 0 <= i < |f.d.vbridges.entries| ::
        var refs := f.d.vbridges.entries[i].1.refs;
        f.d.vbridges.entries[i].0 == k &&
        exists a, b | 0 <= a < |refs| && 0 <= b < |refs| :: a != b && Owner(refs[a]) == Owner(refs[b]))
    ensures LoopValues(DetectLoops(f))
  {
    var acc := LinkLoopsOf(Empty(), f.d.vlinks.entries);
    LinkLoopsOfSpec(Empty(), f.d.vlinks.entries, k);
    LinkLoopsOfValues(Empty(), f.d.vlinks.entries);
    BridgeLoopsOfSpec(acc, f.d.vbridges.entries, k);
    BridgeLoopsOfValues(acc, f.d.vbridges.entries);
    forall i | 0 <= i < |f.d.vbridges.entries| {
      BridgeLoopSome(f.d.vbridges.entries[i].1.refs);
    }
  }

  // --------------------------------------------- isolated and unused units

  /** No connection point of unit `uid` is referenced as `uid:cp`. */
  predicate UnitIsolated(d: DescState, uid: string, u: Unit) {
    forall c | c in u.cps :: !Referenced(d, Compose(uid, c))
  }

  function IsolatedUnits(d: DescState, es: seq<(string, Unit)>): seq<string>
    decreases |es|
  {
    if |es| == 0 then []
    else
      var e := es[|es| - 1];
      IsolatedUnits(d, es[..|es| - 1]) + (if UnitIsolated(d, e.0, e.1) then [e.0] else [])
  }

  /** `Function.detect_disconnected_units`. */
  function DetectDisconnectedUnits(f: FunctionState): seq<string> {
    IsolatedUnits(f.d, f.units.entries)
  }

  lemma {:induction false} IsolatedUnitsMember(d: DescState, es: seq<(string, Unit)>, x: string)
    ensures x in IsolatedUnits(d, es) <==>
      exists i | 0 <= i < |es| :: es[i].0 == x && UnitIsolated(d, x, es[i].1)
    decreases |es|
  {
    if |es| > 0 {
      var n := |es|;
      var pre := es[..n - 1];
      IsolatedUnitsMember(d, pre, x);
      forall i | 0 <= i < n - 1 ensures pre[i] == es[i] { }
    }
  }

  /** A unit is reported disconnected exactly when none of its connection
      points is used by a link or a bridge (a unit without connection
      points included). */
  lemma DetectDisconnectedUnitsMember(f: FunctionState, x: string)
    requires f.Valid()
    ensures x in DetectDisconnectedUnits(f) <==>
      match f.units.Get(x)
      case None => false
      case Some(u) => forall c | c in u.cps :: !Referenced(f.d, Compose(x, c))
  {
    IsolatedUnitsMember(f.d, f.units.entries, x);
    if exists i | 0 <= i < |f.units.entries| :: f.units.entries[i].0 == x {
      var i :| 0 <= i < |f.units.entries| && f.units.entries[i].0 == x;
      GetEntry(f.units, i);
    }
  }

  /** `uid:cp` for every connection point of the unit nobody references. */
  function UnusedOfUnit(d: DescState, uid: string, cps: seq<string>): seq<string>
    decreases |cps|
  {
    if |cps| == 0 then []
    else
      var x := Compose(uid, cps[|cps| - 1]);
      UnusedOfUnit(d, uid, cps[..|cps| - 1]) + (if Referenced(d, x) then [] else [x])
  }

  function UnusedCpsOf(d: DescState, es: seq<(string, Unit)>): seq<string>
    decreases |es|
  {
    if |es| == 0 then []
    else UnusedCpsOf(d, es[..|es| - 1]) + UnusedOfUnit(d, es[|es| - 1].0, es[|es| - 1].1.cps)
  }

  /** `Function.detect_unnused_cps_units`. */
  function DetectUnusedCpsUnits(f: FunctionState): seq<string> {
    UnusedCpsOf(f.d, f.units.entries)
  }

  lemma {:induction false} UnusedOfUnitMember(d: DescState, uid: string, cps: seq<string>, x: string)
    ensures x in UnusedOfUnit(d, uid, cps) <==>
      !Referenced(d, x) && exists c | c in cps :: x == Compose(uid, c)
    decreases |cps|
  {
    if |cps| > 0 {
      var n := |cps|;
      UnusedOfUnitMember(d, uid, cps[..n - 1], x);
      assert cps == cps[..n - 1] + [cps[n - 1]];
    }
  }

  lemma {:induction false} UnusedCpsOfMember(d: DescState, es: seq<(string, Unit)>, x: string)
    ensures x in UnusedCpsOf(d, es) <==>
      !Referenced(d, x) && exists i, c | 0 <= i < |es| && c in es[i].1.cps :: x == Compose(es[i].0, c)
    decreases |es|
  {
    if |es| > 0 {
      var n := |es|;
      var pre := es[..n - 1];
      UnusedCpsOfMember(d, pre, x);
      UnusedOfUnitMember(d, es[n - 1].0, es[n - 1].1.cps, x);
      forall i | 0 <= i < n - 1 ensures pre[i] == es[i] { }
    }
  }

  /** The unused unit connection points are exactly the `uid:cp` names of
      unit connection points that no link or bridge references. */
  lemma DetectUnusedCpsUnitsMember(f: FunctionState, x: string)
    ensures x in DetectUnusedCpsUnits(f) <==>
      !Referenced(f.d, x) &&
      exists i, c | 0 <= i < |f.units.entries| && c in f.units.entries[i].1.cps :: x == Compose(f.units.entries[i].0, c)
  {
    UnusedCpsOfMember(f.d, f.units.entries, x);
  }

  /** A disconnected unit contributes every one of its connection points to
      the unused ones. */
  lemma DisconnectedUnitCpsUnused(f: FunctionState, i: nat, c: string)
    requires i < |f.units.entries| && c in f.units.entries[i].1.cps
    requires f.units.entries[i].0 in DetectDisconnectedUnits(f)
    requires f.Valid()
    ensures Compose(f.units.entries[i].0, c) in DetectUnusedCpsUnits(f)
  {
    var x := f.units.entries[i].0;
    DetectDisconnectedUnitsMember(f, x);
    GetEntry(f.units, i);
    DetectUnusedCpsUnitsMember(f, Compose(x, c));
  }

  // ----------------------------------------------------- duplicate ports

  /** `(port, unit id)` for every port of every cloud-native unit, in
      dictionary order. */
  function PortOwners(es: seq<(string, Unit)>): seq<(int, string)>
    decreases |es|
  {
    if |es| == 0 then []
    else
      var e := es[|es| - 1];
      PortOwners(es[..|es| - 1]) +
      (if e.1.kind == CDU then seq(|e.1.ports.entries|, k requires 0 <= k < |e.1.ports.entries| => (e.1.ports.entries[k].1, e.0)) else [])
  }

  function Ports(po: seq<(int, string)>): (ps: seq<int>)
    ensures |ps| == |po| && forall i | 0 <= i < |po| :: ps[i] == po[i].0
  {
    seq(|po|, i requires 0 <= i < |po| => po[i].0)
  }

  /** The scan of `search_duplicate_ports`: the ports seen and the ports
      already reported, in order. */
  function DupScan(ports: seq<int>): (seq<int>, seq<int>)
    decreases |ports|
  {
    if |ports| == 0 then ([], [])
    else
      var p := DupScan(ports[..|ports| - 1]);
      var x := ports[|ports| - 1];
      if x in p.0 && x !in p.1 then (p.0, p.1 + [x]) else (p.0 + [x], p.1)
  }

  /** `Function.search_duplicate_ports`. */
  function SearchDuplicatePorts(f: FunctionState): seq<int> {
    DupScan(Ports(PortOwners(f.units.entries))).1
  }

  /** A port is reported exactly when it occurs at least twice, and each
      is reported once. */
  lemma {:induction false} DupScanSpec(ports: seq<int>)
    ensures forall x :: x in DupScan(ports).0 <==> x in ports
    ensures forall x :: x in DupScan(ports).1 <==> multiset(ports)[x] >= 2
    ensures forall a, b | 0 <= a < b < |DupScan(ports).1| :: DupScan(ports).1[a] != DupScan(ports).1[b]
    decreases |ports|
  {
    if |ports| > 0 {
      var n := |ports|;
      var pre := ports[..n - 1];
      DupScanSpec(pre);
      assert ports == pre + [ports[n - 1]];
      assert multiset(ports) == multiset(pre) + multiset{ports[n - 1]};
    }
  }

  /** Duplicate ports count every port of every cloud-native unit, two
      connection points of the same unit included. */
  lemma SearchDuplicatePortsSpec(f: FunctionState, p: int)
    ensures p in SearchDuplicatePorts(f) <==> multiset(Ports(PortOwners(f.units.entries)))[p] >= 2
    ensures forall a, b | 0 <= a < b < |SearchDuplicatePorts(f)| ::
      SearchDuplicatePorts(f)[a] != SearchDuplicatePorts(f)[b]
  {
    DupScanSpec(Ports(PortOwners(f.units.entries)));
  }

  /** The units using port `p`, once per connection point that uses it. */
  function OwnersOf(po: seq<(int, string)>, p: int): seq<string>
    decreases |po|
  {
    if |po| == 0 then []
    else OwnersOf(po[..|po| - 1], p) + (if po[|po| - 1].0 == p then [po[|po| - 1].1] else [])
  }

  function PortsFold(find: seq<int>, po: seq<(int, string)>): Dict<int, seq<string>>
    decreases |po|
  {
    if |po| == 0 then Empty()
    else
      var acc := PortsFold(find, po[..|po| - 1]);
      var e := po[|po| - 1];
      if e.0 !in find then acc
      else match acc.Get(e.0)
        case None => acc.Put(e.0, [e.1])
        case Some(us) => acc.Put(e.0, us + [e.1])
  }

  /** `Function.get_units_by_ports`. */
  function GetUnitsByPorts(f: FunctionState, find: seq<int>): Dict<int, seq<string>> {
    PortsFold(find, PortOwners(f.units.entries))
  }

  lemma {:induction false} PortsFoldGet(find: seq<int>, po: seq<(int, string)>, p: int)
    ensures PortsFold(find, po).Get(p) ==
      if p in find && OwnersOf(po, p) != [] then Some(OwnersOf(po, p)) else None
    decreases |po|
  {
    if |po| > 0 {
      var n := |po|;
      var pre := po[..n - 1];
      PortsFoldGet(find, pre, p);
      var acc := PortsFold(find, pre);
      var e := po[n - 1];
      var r := PortsFold(find, po);
      if e.0 != p {
        assert OwnersOf(po, p) == OwnersOf(pre, p);
        if e.0 in find {
          var v := if acc.Get(e.0).Some? then acc.Get(e.0).value + [e.1] else [e.1];
          assert r == acc.Put(e.0, v);
          GetPut(acc, e.0, v, p);
        }
      } else if p in find {
        assert OwnersOf(po, p) == OwnersOf(pre, p) + [e.1];
        var v := if acc.Get(p).Some? then acc.Get(p).value + [e.1] else [e.1];
        assert r == acc.Put(p, v);
        GetPut(acc, p, v, p);
        if acc.Get(p).None? {
          assert OwnersOf(pre, p) == [];
        }
        assert v == OwnersOf(po, p);
      } else {
        assert r == acc;
      }
    }
  }

  /** A searched port maps to the units using it, one entry per connection
      point that uses it, in dictionary order; an unused or unsearched port
      is absent. */
  lemma GetUnitsByPortsSpec(f: FunctionState, find: seq<int>, p: int)
    ensures GetUnitsByPorts(f, find).Get(p) ==
      var owners := OwnersOf(PortOwners(f.units.entries), p);
      if p in find && owners != [] then Some(owners) else None
  {
    PortsFoldGet(find, PortOwners(f.units.entries), p);
  }

  lemma {:induction false} OwnersOfCount(po: seq<(int, string)>, p: int)
    ensures |OwnersOf(po, p)| == multiset(Ports(po))[p]
    decreases |po|
  {
    if |po| > 0 {
      var n := |po|;
      OwnersOfCount(po[..n - 1], p);
      assert Ports(po) == Ports(po[..n - 1]) + [po[n - 1].0];
    }
  }

  /** Every duplicate port is found again by `get_units_by_ports`, with as
      many owners as it has uses. */
  lemma DuplicatePortsHaveOwners(f: FunctionState, p: int)
    requires p in SearchDuplicatePorts(f)
    ensures GetUnitsByPorts(f, SearchDuplicatePorts(f)).Get(p).Some?
    ensures |GetUnitsByPorts(f, SearchDuplicatePorts(f)).Get(p).value| >= 2
  {
    SearchDuplicatePortsSpec(f, p);
    OwnersOfCount(PortOwners(f.units.entries), p);
    GetUnitsByPortsSpec(f, SearchDuplicatePorts(f), p);
  }
}
