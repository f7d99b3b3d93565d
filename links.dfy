/**
 * What every descriptor holds (storage.py `Node` and `Descriptor`): its own
 * connection points, its virtual links (E-Line, exactly two endpoints) and
 * its virtual bridges (E-LAN / E-Tree, one or more endpoints), and the rules
 * by which the loaders accept or reject each of them.
 */
module Links {
  import opened Wrappers
  import opened Refs
  import opened Dicts
  import opened Events
  import opened Content
  import opened Folds

  datatype VLink = VLink(id: string, cprU: string, cprV: string) {
    /** `connection_point_refs`: the pair `[u, v]`. */
    function Refs(): seq<string> {
      [cprU, cprV]
    }
  }

  datatype VBridge = VBridge(id: string, refs: seq<string>)

  /** The loaded state of a descriptor. */
  datatype DescState = DescState(
    cps: seq<string>,
    vlinks: Dict<string, VLink>,
    vbridges: Dict<string, VBridge>)
  {
    /** The invariant the loaders keep: connection points are distinct and
        colon-free, link and bridge ids are distinct across both maps, every
        stored reference has at most one separator and every bridge at least
        one reference. */
    ghost predicate Valid() {
      (forall i, j | 0 <= i < j < |cps| :: cps[i] != cps[j]) &&
      (forall i | 0 <= i < |cps| :: !HasColon(cps[i])) &&
      vlinks.Valid() && vbridges.Valid() &&
      (forall k | vlinks.HasKey(k) :: !vbridges.HasKey(k)) &&
      (forall i | 0 <= i < |vlinks.entries| ::
        vlinks.entries[i].1.id == vlinks.entries[i].0 &&
        WellFormedRef(vlinks.entries[i].1.cprU) && WellFormedRef(vlinks.entries[i].1.cprV)) &&
      (forall i | 0 <= i < |vbridges.entries| ::
        vbridges.entries[i].1.id == vbridges.entries[i].0 &&
        |vbridges.entries[i].1.refs| >= 1 && AllWellFormed(vbridges.entries[i].1.refs))
    }

    /** The id is taken by a link or a bridge. */
    predicate HasLinkId(id: string) {
      vlinks.HasKey(id) || vbridges.HasKey(id)
    }
  }

  function EmptyState(): (st: DescState)
    ensures st.Valid() && st.cps == []
  {
    DescState([], Empty(), Empty())
  }

  predicate AllWellFormed(refs: seq<string>) {
    forall i | 0 <= i < |refs| :: WellFormedRef(refs[i])
  }

  // ---------------------------------------------------------------- cps

  /** `Node.add_connection_point`: reject a duplicate or an id with a
      separator, else append. `node` is the id events are raised for. */
  function AddConnectionPoint(node: string, cps: seq<string>, cp: string): (r: Step<seq<string>>)
    ensures r.ok <==> cp !in cps && !HasColon(cp)
    ensures r.ok ==> r.state == cps + [cp] && r.events == []
    ensures !r.ok ==> r.state == cps && |r.events| == 1 && r.events[0].source == node
    ensures cp in cps ==> r.events == [Event(node, DuplicateCpoint)]
  {
    SplitHasColon(cp);
    if cp in cps then Step(cps, false, [Event(node, DuplicateCpoint)])
    else if |Split(cp)| != 1 then Step(cps, false, [Event(node, InvalidCpoint)])
    else Step(cps + [cp], true, [])
  }

  /** The ids of a `connection_points` section. */
  function Ids(decls: seq<CpDecl>): (ids: seq<string>)
    ensures |ids| == |decls|
    ensures forall i | 0 <= i < |ids| :: ids[i] == decls[i].id
  {
    seq(|decls|, i requires 0 <= i < |decls| => decls[i].id)
  }

  /** One iteration of `load_connection_points`. */
  function CpStep(node: string): (seq<string>, CpDecl) -> Step<seq<string>> {
    (c: seq<string>, d: CpDecl) => AddConnectionPoint(node, c, d.id)
  }

  /** `load_connection_points` over a present section. */
  function LoadCps(node: string, cps: seq<string>, decls: seq<CpDecl>): Step<seq<string>> {
    Run(CpStep(node), cps, decls)
  }

  /** A successful load appends the ids of the section in order, and it
      succeeds exactly when those ids are new, distinct and colon-free. */
  lemma {:induction false} LoadCpsOk(node: string, cps: seq<string>, decls: seq<CpDecl>)
    ensures LoadCps(node, cps, decls).ok ==> LoadCps(node, cps, decls).state == cps + Ids(decls)
    ensures LoadCps(node, cps, decls).ok <==>
      (forall i | 0 <= i < |decls| :: decls[i].id !in cps && !HasColon(decls[i].id)) &&
      (forall i, j | 0 <= i < j < |decls| :: decls[i].id != decls[j].id)
    decreases |decls|
  {
    if |decls| > 0 {
      var n := |decls|;
      var pre := decls[..n - 1];
      LoadCpsOk(node, cps, pre);
      assert Ids(decls) == Ids(pre) + [decls[n - 1].id];
      forall i | 0 <= i < n - 1 ensures pre[i] == decls[i] { }
    }
  }

  /** Loading keeps the connection points distinct and colon-free. */
  lemma LoadCpsKeepsDistinct(node: string, cps: seq<string>, decls: seq<CpDecl>)
    requires (forall i, j | 0 <= i < j < |cps| :: cps[i] != cps[j]) &&
             (forall i | 0 <= i < |cps| :: !HasColon(cps[i]))
    ensures var r := LoadCps(node, cps, decls).state;
      (forall i, j | 0 <= i < j < |r| :: r[i] != r[j]) &&
      (forall i | 0 <= i < |r| :: !HasColon(r[i]))
  {
    var inv := (c: seq<string>) =>
      (forall i, j | 0 <= i < j < |c| :: c[i] != c[j]) && (forall i | 0 <= i < |c| :: !HasColon(c[i]));
    var f := CpStep(node);
    forall c, d | inv(c) ensures inv(f(c, d).state) {
      var r := f(c, d);
      if r.ok {
        assert r.state == c + [d.id];
      }
    }
    RunPreserves(f, inv, cps, decls);
  }

  // -------------------------------------------------------------- links

  datatype Rejection = BadArity | DuplicateId | BadRef

  /** The event each rejection raises. */
  function RejectionCode(r: Rejection): Code {
    match r
    case BadArity => InvalidVlink
    case DuplicateId => DuplicateVlink
    case BadRef => InvalidCpointRef
  }

  /** The checks `add_vlink` makes, in order: arity, duplicate id, format. */
  function VLinkCheck(st: DescState, id: string, refs: seq<string>): Option<Rejection> {
    if |refs| != 2 then Some(BadArity)
    else if st.HasLinkId(id) then Some(DuplicateId)
    else if !AllWellFormed(refs) then Some(BadRef)
    else None
  }

  /** The checks `add_vbridge` makes: at least one reference, then as above. */
  function VBridgeCheck(st: DescState, id: string, refs: seq<string>): Option<Rejection> {
    if |refs| < 1 then Some(BadArity)
    else if st.HasLinkId(id) then Some(DuplicateId)
    else if !AllWellFormed(refs) then Some(BadRef)
    else None
  }

  /** `Descriptor.add_vlink`. */
  function AddVLink(st: DescState, source: string, id: string, refs: seq<string>): (r: Step<DescState>)
    ensures r.ok <==> |refs| == 2 && !st.HasLinkId(id) && AllWellFormed(refs)
    ensures !r.ok ==> r.state == st && |r.events| == 1
    ensures r.ok ==> r.events == [] && r.state.vbridges == st.vbridges && r.state.cps == st.cps
  {
    match VLinkCheck(st, id, refs)
    case Some(rej) => Step(st, false, [Event(source, RejectionCode(rej))])
    case None => Step(st.(vlinks := st.vlinks.Put(id, VLink(id, refs[0], refs[1]))), true, [])
  }

  /** `Descriptor.add_vbridge`. */
  function AddVBridge(st: DescState, source: string, id: string, refs: seq<string>): (r: Step<DescState>)
    ensures r.ok <==> |refs| >= 1 && !st.HasLinkId(id) && AllWellFormed(refs)
    ensures !r.ok ==> r.state == st && |r.events| == 1
    ensures r.ok ==> r.events == [] && r.state.vlinks == st.vlinks && r.state.cps == st.cps
  {
    match VBridgeCheck(st, id, refs)
    case Some(rej) => Step(st, false, [Event(source, RejectionCode(rej))])
    case None => Step(st.(vbridges := st.vbridges.Put(id, VBridge(id, refs))), true, [])
  }

  /** An accepted link is appended to the links under its id, a rejected one
      changes nothing, and the state stays valid either way. */
  lemma AddVLinkShape(st: DescState, source: string, id: string, refs: seq<string>)
    requires st.Valid()
    ensures var r := AddVLink(st, source, id, refs);
      r.state.Valid() &&
      (r.ok ==> r.state.vlinks.entries == st.vlinks.entries + [(id, VLink(id, refs[0], refs[1]))])
  {
    var r := AddVLink(st, source, id, refs);
    if r.ok {
      PutShape(st.vlinks, id, VLink(id, refs[0], refs[1]));
      forall k ensures r.state.vlinks.HasKey(k) <==> k == id || st.vlinks.HasKey(k) {
        PutHasKey(st.vlinks, id, VLink(id, refs[0], refs[1]), k);
      }
    }
  }

  /** The same for bridges; a single-reference bridge is accepted. */
  lemma AddVBridgeShape(st: DescState, source: string, id: string, refs: seq<string>)
    requires st.Valid()
    ensures var r := AddVBridge(st, source, id, refs);
      r.state.Valid() &&
      (r.ok ==> r.state.vbridges.entries == st.vbridges.entries + [(id, VBridge(id, refs))])
    ensures |refs| == 1 && !st.HasLinkId(id) && WellFormedRef(refs[0]) ==>
      AddVBridge(st, source, id, refs).ok
  {
    var r := AddVBridge(st, source, id, refs);
    if r.ok {
      PutShape(st.vbridges, id, VBridge(id, refs));
      forall k ensures r.state.vbridges.HasKey(k) <==> k == id || st.vbridges.HasKey(k) {
        PutHasKey(st.vbridges, id, VBridge(id, refs), k);
      }
    }
  }

  /** ASCII lower-casing, standing for Python's `str.lower`. */
  function Lower(s: string): (r: string)
    ensures |r| == |s|
    ensures forall i | 0 <= i < |s| ::
      r[i] == (if 'A' <= s[i] <= 'Z' then (s[i] as int + 32) as char else s[i])
  {
    seq(|s|, i requires 0 <= i < |s| =>
      if 'A' <= s[i] <= 'Z' then (s[i] as int + 32) as char else s[i])
  }

  /** How `load_virtual_links` treats one entry. */
  datatype LinkKind = ELine | EBridge | Other

  function KindOf(vl: VlDecl): LinkKind {
    var t := Lower(vl.connectivityType);
    if t == "e-line" then ELine
    else if t == "e-lan" || t == "e-tree" then EBridge
    else Other
  }

  /** One iteration of `load_virtual_links`: an entry without id fails; an
      E-Line becomes a link, an E-LAN or E-Tree a bridge, anything else is
      skipped. */
  function LinkEntry(st: DescState, source: string, vl: VlDecl): (r: Step<DescState>)
    ensures KindOf(vl) == Other && vl.id != "" ==> r == Step(st, true, [])
  {
    if vl.id == "" then Step(st, false, [Event(source, InvalidVlink)])
    else match KindOf(vl)
      case ELine => AddVLink(st, source, vl.id, vl.refs)
      case EBridge => AddVBridge(st, source, vl.id, vl.refs)
      case Other => Step(st, true, [])
  }

  function LinkStep(source: string): (DescState, VlDecl) -> Step<DescState> {
    (s: DescState, vl: VlDecl) => LinkEntry(s, source, vl)
  }

  /** `load_virtual_links` over a present section. */
  function LoadLinks(st: DescState, source: string, vls: seq<VlDecl>): Step<DescState> {
    Run(LinkStep(source), st, vls)
  }

  /** Every entry keeps the state valid and only ever appends links and
      bridges: what was stored before stays where it was. */
  lemma LinkEntryExtends(st: DescState, source: string, vl: VlDecl)
    requires st.Valid()
    ensures var r := LinkEntry(st, source, vl).state;
      r.Valid() && r.cps == st.cps &&
      st.vlinks.entries <= r.vlinks.entries && st.vbridges.entries <= r.vbridges.entries
  {
    AddVLinkShape(st, source, vl.id, vl.refs);
    AddVBridgeShape(st, source, vl.id, vl.refs);
  }

  ghost predicate Extends(st: DescState, r: DescState) {
    r.Valid() && r.cps == st.cps &&
    st.vlinks.entries <= r.vlinks.entries && st.vbridges.entries <= r.vbridges.entries
  }

  /** Whatever happens, loading keeps the state valid and keeps every link
      and bridge stored before, including those loaded by earlier entries
      of a load that then fails. */
  lemma {:induction false} LoadLinksExtends(st: DescState, source: string, vls: seq<VlDecl>)
    requires st.Valid()
    ensures Extends(st, LoadLinks(st, source, vls).state)
    decreases |vls|
  {
    if |vls| > 0 {
      var n := |vls|;
      var p := LoadLinks(st, source, vls[..n - 1]);
      LoadLinksExtends(st, source, vls[..n - 1]);
      if p.ok {
        LinkEntryExtends(p.state, source, vls[n - 1]);
      }
    }
  }

  /** A successful load has stored every E-Line entry as a link and every
      E-LAN / E-Tree entry as a bridge, under its id. */
  lemma {:induction false} LoadLinksStored(st: DescState, source: string, vls: seq<VlDecl>)
    requires st.Valid() && LoadLinks(st, source, vls).ok
    ensures forall i | 0 <= i < |vls| && KindOf(vls[i]) == ELine ::
      |vls[i].refs| == 2 &&
      LoadLinks(st, source, vls).state.vlinks.Get(vls[i].id) ==
        Some(VLink(vls[i].id, vls[i].refs[0], vls[i].refs[1]))
    ensures forall i | 0 <= i < |vls| && KindOf(vls[i]) == EBridge ::
      LoadLinks(st, source, vls).state.vbridges.Get(vls[i].id) == Some(VBridge(vls[i].id, vls[i].refs))
    decreases |vls|
  {
    if |vls| > 0 {
      var n := |vls|;
      var pre := vls[..n - 1];
      var p := LoadLinks(st, source, pre);
      var last := vls[n - 1];
      var r := LinkEntry(p.state, source, last);
      assert p.ok;
      LoadLinksStored(st, source, pre);
      LoadLinksExtends(st, source, pre);
      assert LoadLinks(st, source, vls).state == r.state;
      forall i | 0 <= i < n && KindOf(vls[i]) == ELine
        ensures |vls[i].refs| == 2 &&
          r.state.vlinks.Get(vls[i].id) == Some(VLink(vls[i].id, vls[i].refs[0], vls[i].refs[1]))
      {
        if i == n - 1 {
          GetPut(p.state.vlinks, last.id, VLink(last.id, last.refs[0], last.refs[1]), last.id);
        } else {
          assert pre[i] == vls[i];
          var k := vls[i].id;
          assert p.state.vlinks.Get(k).Some?;
          GetSomeHasKey(p.state.vlinks, k);
          if KindOf(last) == ELine {
            GetPut(p.state.vlinks, last.id, VLink(last.id, last.refs[0], last.refs[1]), k);
          }
        }
      }
      forall i | 0 <= i < n && KindOf(vls[i]) == EBridge
        ensures r.state.vbridges.Get(vls[i].id) == Some(VBridge(vls[i].id, vls[i].refs))
      {
        if i == n - 1 {
          GetPut(p.state.vbridges, last.id, VBridge(last.id, last.refs), last.id);
        } else {
          assert pre[i] == vls[i];
          var k := vls[i].id;
          assert p.state.vbridges.Get(k).Some?;
          GetSomeHasKey(p.state.vbridges, k);
          if KindOf(last) == EBridge {
            GetPut(p.state.vbridges, last.id, VBridge(last.id, last.refs), k);
          }
        }
      }
    }
  }

  // ---------------------------------------------------------- queries

  /** `vlink_cp_refs`: both endpoints of every link, in link order. */
  function LinkRefs(es: seq<(string, VLink)>): (refs: seq<string>)
    ensures |refs| == 2 * |es|
    decreases |es|
  {
    if |es| == 0 then [] else LinkRefs(es[..|es| - 1]) + es[|es| - 1].1.Refs()
  }

  /** `vbridge_cp_refs`: the references of every bridge, in bridge order. */
  function BridgeRefs(es: seq<(string, VBridge)>): seq<string>
    decreases |es|
  {
    if |es| == 0 then [] else BridgeRefs(es[..|es| - 1]) + es[|es| - 1].1.refs
  }

  lemma {:induction false} LinkRefsMember(es: seq<(string, VLink)>, x: string)
    ensures x in LinkRefs(es) <==>
      exists i | 0 <= i < |es| :: x == es[i].1.cprU || x == es[i].1.cprV
    decreases |es|
  {
    if |es| > 0 {
      var n := |es|;
      var pre := es[..n - 1];
      LinkRefsMember(pre, x);
      forall i | 0 <= i < n - 1 ensures pre[i] == es[i] { }
    }
  }

  lemma {:induction false} BridgeRefsMember(es: seq<(string, VBridge)>, x: string)
    ensures x in BridgeRefs(es) <==> exists i | 0 <= i < |es| :: x in es[i].1.refs
    decreases |es|
  {
    if |es| > 0 {
      var n := |es|;
      var pre := es[..n - 1];
      BridgeRefsMember(pre, x);
      forall i | 0 <= i < n - 1 ensures pre[i] == es[i] { }
    }
  }

  function VlinkCpRefs(st: DescState): seq<string> {
    LinkRefs(st.vlinks.entries)
  }

  function VbridgeCpRefs(st: DescState): seq<string> {
    BridgeRefs(st.vbridges.entries)
  }

  /** A reference some link or bridge uses. */
  predicate Referenced(st: DescState, x: string) {
    x in VlinkCpRefs(st) || x in VbridgeCpRefs(st)
  }

  /** Keep the connection points no link or bridge references, in order. */
  function Unreferenced(st: DescState, cps: seq<string>): seq<string>
    decreases |cps|
  {
    if |cps| == 0 then []
    else
      var last := cps[|cps| - 1];
      Unreferenced(st, cps[..|cps| - 1]) + (if Referenced(st, last) then [] else [last])
  }

  /** `unused_connection_points`. */
  function UnusedConnectionPoints(st: DescState): seq<string> {
    Unreferenced(st, st.cps)
  }

  /** The unused connection points are exactly the declared ones that no
      link or bridge references by their exact name. */
  lemma {:induction false} UnreferencedMember(st: DescState, cps: seq<string>, x: string)
    ensures x in Unreferenced(st, cps) <==> x in cps && !Referenced(st, x)
    decreases |cps|
  {
    if |cps| > 0 {
      var n := |cps|;
      UnreferencedMember(st, cps[..n - 1], x);
      assert cps == cps[..n - 1] + [cps[n - 1]];
    }
  }

  lemma UnusedConnectionPointsMember(st: DescState, x: string)
    ensures x in UnusedConnectionPoints(st) <==>
      x in st.cps &&
      !(exists i | 0 <= i < |st.vlinks.entries| ::
          x == st.vlinks.entries[i].1.cprU || x == st.vlinks.entries[i].1.cprV) &&
      !(exists i | 0 <= i < |st.vbridges.entries| :: x in st.vbridges.entries[i].1.refs)
  {
    UnreferencedMember(st, st.cps, x);
    LinkRefsMember(st.vlinks.entries, x);
    BridgeRefsMember(st.vbridges.entries, x);
  }
}
