/**
 * storage.py `Service`, query side: the alias map between the `vnf_id`s a
 * service declares and the functions it aggregates, and the read-only
 * checks the validator runs over a loaded service.  Everything here is a
 * function of a value snapshot of the service.
 */
module ServiceQueries {
  import opened Wrappers
  import opened Refs
  import opened Dicts
  import opened Links
  import opened FunctionQueries

  /** A service: its own connection points and links, the functions it
      aggregates keyed by function id, and `vnf_id` -> function id. */
  datatype ServiceState = ServiceState(
    id: string,
    d: DescState,
    functions: Dict<string, FunctionState>,
    vnfIdMap: Dict<string, string>)
  {
    /** Every alias names a stored function. */
    predicate Closed() {
      forall i | 0 <= i < |vnfIdMap.entries| :: functions.HasKey(vnfIdMap.entries[i].1)
    }

    /** What `associate_function` keeps true: functions are stored under
        their own id, every alias names a stored function, and no two
        aliases name the same one. */
    ghost predicate Valid() {
      d.Valid() && functions.Valid() && vnfIdMap.Valid() && Closed() &&
      (forall i | 0 <= i < |functions.entries| :: functions.entries[i].1.id == functions.entries[i].0) &&
      (forall i, j | 0 <= i < j < |vnfIdMap.entries| :: vnfIdMap.entries[i].1 != vnfIdMap.entries[j].1)
    }
  }

  function EmptyService(id: string, d: DescState): (s: ServiceState)
    requires d.Valid()
    ensures s.Valid()
  {
    ServiceState(id, d, Empty(), Empty())
  }

  // ------------------------------------------------------------ aliases

  /** `mapped_function`: the function an alias names, if it is stored. */
  function MappedFunction(s: ServiceState, alias: string): Option<FunctionState> {
    match s.vnfIdMap.Get(alias)
    case None => None
    case Some(fid) => s.functions.Get(fid)
  }

  /** The first alias whose function id is `fid`. */
  function AliasOf(es: seq<(string, string)>, fid: string): (r: Option<string>)
    decreases |es|
  {
    if |es| == 0 then None
    else if es[0].1 == fid then Some(es[0].0)
    else AliasOf(es[1..], fid)
  }

  /** `vnf_id(func)`, given the function's id. */
  function VnfId(s: ServiceState, fid: string): Option<string> {
    AliasOf(s.vnfIdMap.entries, fid)
  }

  /** `associate_function`: a function whose id is already stored is
      refused and nothing changes; otherwise it is stored under its id and
      the alias is (re)pointed at it. */
  function Associate(s: ServiceState, f: FunctionState, alias: string): ServiceState {
    if s.functions.HasKey(f.id) then s
    else s.(functions := s.functions.Put(f.id, f), vnfIdMap := s.vnfIdMap.Put(alias, f.id))
  }

  lemma {:induction false} AliasOfSpec(es: seq<(string, string)>, fid: string)
    ensures AliasOf(es, fid).None? <==> forall i | 0 <= i < |es| :: es[i].1 != fid
    ensures AliasOf(es, fid).Some? ==>
      exists i | 0 <= i < |es| :: es[i] == (AliasOf(es, fid).value, fid) &&
        forall j | 0 <= j < i :: es[j].1 != fid
    decreases |es|
  {
    if |es| > 0 && es[0].1 != fid {
      AliasOfSpec(es[1..], fid);
      if AliasOf(es[1..], fid).Some? {
        var i :| 0 <= i < |es[1..]| && es[1..][i] == (AliasOf(es[1..], fid).value, fid) &&
          forall j | 0 <= j < i :: es[1..][j].1 != fid;
        assert es[i + 1] == es[1..][i];
        assert forall j | 1 <= j < i + 1 :: es[j] == es[1..][j - 1];
      }
      forall i | 0 <= i < |es| - 1 ensures es[i + 1] == es[1..][i] { }
    }
  }

  /** An unknown alias maps to nothing. */
  lemma MappedFunctionUnknown(s: ServiceState, alias: string)
    requires !s.vnfIdMap.HasKey(alias)
    ensures MappedFunction(s, alias) == None
  {
    GetSomeHasKey(s.vnfIdMap, alias);
  }

  /** In a valid service a known alias always maps to a function, whose id
      is the one the alias stores. */
  lemma MappedFunctionKnown(s: ServiceState, alias: string)
    requires s.Valid() && s.vnfIdMap.HasKey(alias)
    ensures MappedFunction(s, alias).Some?
    ensures MappedFunction(s, alias).value.id == s.vnfIdMap.Get(alias).value
  {
    var i := IndexOf(s.vnfIdMap.entries, alias).value;
    GetEntry(s.vnfIdMap, i);
    var fid := s.vnfIdMap.entries[i].1;
    var j := IndexOf(s.functions.entries, fid).value;
    GetEntry(s.functions, j);
  }

  /** Associating refuses a function id already present and changes
      nothing; otherwise the alias maps to the new function afterwards,
      every other alias keeps its function, and the invariant holds. */
  lemma AssociateSpec(s: ServiceState, f: FunctionState, alias: string, other: string)
    requires s.Valid()
    ensures s.functions.HasKey(f.id) ==> Associate(s, f, alias) == s
    ensures !s.functions.HasKey(f.id) ==> MappedFunction(Associate(s, f, alias), alias) == Some(f)
    ensures !s.functions.HasKey(f.id) && other != alias ==>
      MappedFunction(Associate(s, f, alias), other) == MappedFunction(s, other)
    ensures Associate(s, f, alias).Valid()
  {
    if !s.functions.HasKey(f.id) {
      var r := Associate(s, f, alias);
      GetPut(s.vnfIdMap, alias, f.id, alias);
      GetPut(s.functions, f.id, f, f.id);
      if other != alias {
        GetPut(s.vnfIdMap, alias, f.id, other);
        match s.vnfIdMap.Get(other)
        case None =>
        case Some(fid) =>
          GetPut(s.functions, f.id, f, fid);
          var i := IndexOf(s.vnfIdMap.entries, other).value;
          assert s.functions.HasKey(s.vnfIdMap.entries[i].1);
          GetSomeHasKey(s.functions, f.id);
      }
      AssociateValid(s, f, alias);
    }
  }

  lemma AssociateValid(s: ServiceState, f: FunctionState, alias: string)
    requires s.Valid() && !s.functions.HasKey(f.id)
    ensures Associate(s, f, alias).Valid()
  {
    var r := Associate(s, f, alias);
    PutShape(s.functions, f.id, f);
    PutShape(s.vnfIdMap, alias, f.id);
    var fs := r.functions.entries;
    assert fs == s.functions.entries + [(f.id, f)];
    assert forall i | 0 <= i < |fs| :: fs[i].1.id == fs[i].0;
    forall i | 0 <= i < |r.vnfIdMap.entries|
      ensures r.functions.HasKey(r.vnfIdMap.entries[i].1)
    {
      var v := r.vnfIdMap.entries[i].1;
      PutHasKey(s.functions, f.id, f, v);
      if v != f.id {
        assert i < |s.vnfIdMap.entries| && v == s.vnfIdMap.entries[i].1 by {
          match IndexOf(s.vnfIdMap.entries, alias)
          case Some(k) =>
          case None =>
        }
      }
    }
    forall i, j | 0 <= i < j < |r.vnfIdMap.entries|
      ensures r.vnfIdMap.entries[i].1 != r.vnfIdMap.entries[j].1
    {
      var es := s.vnfIdMap.entries;
      var rs := r.vnfIdMap.entries;
      // an old value is a stored function id, the new one is not
      forall k | 0 <= k < |es| ensures es[k].1 != f.id {
        assert s.functions.HasKey(es[k].1);
      }
      match IndexOf(es, alias)
      case Some(k) =>
        assert rs == es[k := (alias, f.id)];
      case None =>
        assert rs == es + [(alias, f.id)];
    }
  }

  /** `vnf_id(mapped_function(a))` is `a` again: aliases name distinct
      functions, so the first alias of a function is its only one. */
  lemma MappedVnfId(s: ServiceState, alias: string)
    requires s.Valid() && MappedFunction(s, alias).Some?
    ensures VnfId(s, MappedFunction(s, alias).value.id) == Some(alias)
  {
    MappedFunctionKnown(s, alias);
    var es := s.vnfIdMap.entries;
    var i := IndexOf(es, alias).value;
    var fid := es[i].1;
    AliasOfSpec(es, fid);
    var r := AliasOf(es, fid);
    assert r.Some? by { assert es[i].1 == fid; }
    var k :| 0 <= k < |es| && es[k] == (r.value, fid) && forall j | 0 <= j < k :: es[j].1 != fid;
    assert k == i;
  }

  /** A function reached through an alias has that alias as its `vnf_id`;
      a function id no alias names has none. */
  lemma VnfIdSpec(s: ServiceState, fid: string)
    requires s.Valid()
    ensures VnfId(s, fid).None? <==> forall i | 0 <= i < |s.vnfIdMap.entries| :: s.vnfIdMap.entries[i].1 != fid
    ensures VnfId(s, fid).Some? ==> s.vnfIdMap.Get(VnfId(s, fid).value) == Some(fid)
  {
    AliasOfSpec(s.vnfIdMap.entries, fid);
    if VnfId(s, fid).Some? {
      var i :| 0 <= i < |s.vnfIdMap.entries| && s.vnfIdMap.entries[i] == (VnfId(s, fid).value, fid);
      GetEntry(s.vnfIdMap, i);
    }
  }

  /** Re-pointing a used alias leaves its previous function without one:
      `vnf_id` then finds nothing for it. */
  lemma AssociateOrphans(s: ServiceState, f: FunctionState, g: FunctionState, alias: string)
    requires s.Valid() && !s.functions.HasKey(f.id)
    requires MappedFunction(s, alias) == Some(g)
    ensures VnfId(Associate(s, f, alias), g.id).None?
  {
    MappedFunctionKnown(s, alias);
    AssociateValid(s, f, alias);
    var r := Associate(s, f, alias);
    var es := s.vnfIdMap.entries;
    var k := IndexOf(es, alias).value;
    assert r.vnfIdMap.entries == es[k := (alias, f.id)];
    assert g.id != f.id by { GetSomeHasKey(s.functions, g.id); }
    forall i | 0 <= i < |r.vnfIdMap.entries| ensures r.vnfIdMap.entries[i].1 != g.id {
      if i != k {
        assert es[i].1 != es[k].1;
      }
    }
    VnfIdSpec(r, g.id);
  }

  // ----------------------------------------------------- isolated VNFs

  /** The concatenation of `parts`, in order. */
  function Flatten<T>(parts: seq<seq<T>>): seq<T>
    decreases |parts|
  {
    if |parts| == 0 then []
    else Flatten(parts[..|parts| - 1]) + parts[|parts| - 1]
  }

  /** Every element of the concatenation comes from some part. */
  lemma {:induction false} FlattenWitness<T>(parts: seq<seq<T>>, x: T) returns (i: nat)
    requires x in Flatten(parts)
    ensures i < |parts| && x in parts[i]
    decreases |parts|
  {
    var n := |parts|;
    var pre := parts[..n - 1];
    assert x in Flatten(pre) + parts[n - 1];
    if x in parts[n - 1] {
      i := n - 1;
    } else {
      i := FlattenWitness(pre, x);
      assert pre[i] == parts[i];
    }
  }

  /** Every element of every part is in the concatenation. */
  lemma {:induction false} FlattenHas<T>(parts: seq<seq<T>>, i: nat, x: T)
    requires i < |parts| && x in parts[i]
    ensures x in Flatten(parts)
    decreases |parts|
  {
    var n := |parts|;
    var pre := parts[..n - 1];
    assert Flatten(parts) == Flatten(pre) + parts[n - 1];
    if i < n - 1 {
      assert pre[i] == parts[i];
      FlattenHas(pre, i, x);
    }
  }

  /** The cps of the function an alias names (the alias map is closed). */
  function AliasCps(s: ServiceState, i: nat): seq<string>
    requires s.Closed() && i < |s.vnfIdMap.entries|
  {
    s.functions.Get(s.vnfIdMap.entries[i].1).value.d.cps
  }

  /** None of the function's connection points is used as `alias:cp`. */
  predicate VnfIsolated(d: DescState, alias: string, cps: seq<string>) {
    forall c | c in cps :: !Referenced(d, Compose(alias, c))
  }

  /** What each alias adds to the isolated report: itself when isolated. */
  function IsolatedParts(s: ServiceState): (r: seq<seq<string>>)
    requires s.Closed()
    ensures |r| == |s.vnfIdMap.entries|
    ensures forall i | 0 <= i < |r| ::
      r[i] == if VnfIsolated(s.d, s.vnfIdMap.entries[i].0, AliasCps(s, i)) then [s.vnfIdMap.entries[i].0] else []
  {
    seq(|s.vnfIdMap.entries|, i requires 0 <= i < |s.vnfIdMap.entries| =>
      if VnfIsolated(s.d, s.vnfIdMap.entries[i].0, AliasCps(s, i)) then [s.vnfIdMap.entries[i].0] else [])
  }

  /** `detect_isolated_vnfs`, in alias order. */
  function DetectIsolatedVnfs(s: ServiceState): seq<string>
    requires s.Closed()
  {
    Flatten(IsolatedParts(s))
  }

  /** The `i`-th alias is reported exactly when it is isolated. */
  lemma IsolatedAt(s: ServiceState, i: nat)
    requires s.Valid() && i < |s.vnfIdMap.entries|
    ensures s.vnfIdMap.entries[i].0 in DetectIsolatedVnfs(s) <==>
      VnfIsolated(s.d, s.vnfIdMap.entries[i].0, AliasCps(s, i))
  {
    var parts := IsolatedParts(s);
    var a := s.vnfIdMap.entries[i].0;
    if VnfIsolated(s.d, a, AliasCps(s, i)) {
      FlattenHas(parts, i, a);
    }
    if a in Flatten(parts) {
      var k := FlattenWitness(parts, a);
      assert s.vnfIdMap.entries[k].0 == a;
      assert k == i;
    }
  }

  /** An alias is reported isolated exactly when it names a function none
      of whose connection points `alias:cp` is a link endpoint or a bridge
      reference; so the report is empty exactly when every function has a
      used connection point. */
  lemma DetectIsolatedVnfsMember(s: ServiceState, x: string)
    requires s.Valid()
    ensures x in DetectIsolatedVnfs(s) <==>
      match MappedFunction(s, x)
      case None => false
      case Some(f) => forall c | c in f.d.cps :: !Referenced(s.d, Compose(x, c))
  {
    match IndexOf(s.vnfIdMap.entries, x)
    case None =>
      MappedFunctionUnknown(s, x);
      if x in DetectIsolatedVnfs(s) {
        var k := FlattenWitness(IsolatedParts(s), x);
      }
    case Some(i) =>
      GetEntry(s.vnfIdMap, i);
      assert MappedFunction(s, x) == s.functions.Get(s.vnfIdMap.entries[i].1);
      IsolatedAt(s, i);
  }

  // -------------------------------------------------- unused VNF cps

  /** What each alias adds to the unused report. */
  function UnusedParts(s: ServiceState): (r: seq<seq<string>>)
    requires s.Closed()
    ensures |r| == |s.vnfIdMap.entries|
    ensures forall i | 0 <= i < |r| :: r[i] == UnusedOfUnit(s.d, s.vnfIdMap.entries[i].0, AliasCps(s, i))
  {
    seq(|s.vnfIdMap.entries|, i requires 0 <= i < |s.vnfIdMap.entries| =>
      UnusedOfUnit(s.d, s.vnfIdMap.entries[i].0, AliasCps(s, i)))
  }

  /** `detect_unnused_cps`: every `alias:cp` of an aggregated function that
      no link or bridge uses, in alias then declaration order. */
  function DetectUnusedCps(s: ServiceState): seq<string>
    requires s.Closed()
  {
    Flatten(UnusedParts(s))
  }

  /** `x` is `alias:cp` for the `i`-th alias and one of its function's
      connection points. */
  predicate CpOfAlias(s: ServiceState, i: nat, x: string)
    requires s.Closed() && i < |s.vnfIdMap.entries|
  {
    exists c | c in AliasCps(s, i) :: x == Compose(s.vnfIdMap.entries[i].0, c)
  }

  /** The names the `i`-th alias adds to the unused report. */
  lemma UnusedOfAliasMember(s: ServiceState, i: nat, x: string)
    requires s.Closed() && i < |s.vnfIdMap.entries|
    ensures x in UnusedOfUnit(s.d, s.vnfIdMap.entries[i].0, AliasCps(s, i)) <==>
      !Referenced(s.d, x) && CpOfAlias(s, i, x)
  {
    UnusedOfUnitMember(s.d, s.vnfIdMap.entries[i].0, AliasCps(s, i), x);
  }

  /** The unused report holds exactly the unreferenced `alias:cp` names. */
  lemma DetectUnusedCpsMember(s: ServiceState, x: string)
    requires s.Closed()
    ensures x in DetectUnusedCps(s) <==>
      !Referenced(s.d, x) && exists i | 0 <= i < |s.vnfIdMap.entries| :: CpOfAlias(s, i, x)
  {
    var parts := UnusedParts(s);
    if x in Flatten(parts) {
      var i := FlattenWitness(parts, x);
      UnusedOfAliasMember(s, i, x);
    }
    if !Referenced(s.d, x) && exists i | 0 <= i < |s.vnfIdMap.entries| :: CpOfAlias(s, i, x) {
      var i :| 0 <= i < |s.vnfIdMap.entries| && CpOfAlias(s, i, x);
      UnusedOfAliasMember(s, i, x);
      FlattenHas(parts, i, x);
    }
  }

  /** An isolated VNF contributes all of its connection points to the
      unused report. */
  lemma IsolatedVnfCpsUnused(s: ServiceState, i: nat, c: string)
    requires s.Valid() && i < |s.vnfIdMap.entries| && c in AliasCps(s, i)
    requires s.vnfIdMap.entries[i].0 in DetectIsolatedVnfs(s)
    ensures Compose(s.vnfIdMap.entries[i].0, c) in DetectUnusedCps(s)
  {
    var a := s.vnfIdMap.entries[i].0;
    IsolatedAt(s, i);
    assert CpOfAlias(s, i, Compose(a, c));
    UnusedOfAliasMember(s, i, Compose(a, c));
    FlattenHas(UnusedParts(s), i, Compose(a, c));
  }

  // ------------------------------------------------------------ loops

  /** The first link whose two endpoints have the same owner. */
  function FirstLinkLoop(es: seq<(string, VLink)>): (r: Option<(string, VLink)>)
    ensures r.Some? ==> r.value in es && LinkLoops(r.value.1)
    ensures r.None? <==> forall i | 0 <= i < |es| :: !LinkLoops(es[i].1)
    decreases |es|
  {
    if |es| == 0 then None
    else if LinkLoops(es[0].1) then Some(es[0])
    else
      assert forall i | 1 <= i < |es| :: es[i] == es[1..][i - 1];
      FirstLinkLoop(es[1..])
  }

  /** The first service connection point a bridge references twice. */
  function RepeatedCp(cps: seq<string>, refs: seq<string>): (r: Option<string>)
    ensures r.Some? ==> r.value in cps && multiset(refs)[r.value] > 1
    ensures r.None? <==> forall c | c in cps :: multiset(refs)[c] <= 1
    decreases |cps|
  {
    if |cps| == 0 then None
    else if multiset(refs)[cps[0]] > 1 then Some(cps[0])
    else
      assert forall c | c in cps :: c == cps[0] || c in cps[1..];
      RepeatedCp(cps[1..], refs)
  }

  /** A reference `p:p` that loops back onto its own owner. */
  predicate SelfRef(r: string) {
    |Split(r)| == 2 && Split(r)[0] == Split(r)[1]
  }

  /** Two positions of `refs` owned by `a`. */
  predicate TwoOwnedBy(refs: seq<string>, a: string) {
    exists j, k | 0 <= j < k < |refs| :: Owner(refs[j]) == a && Owner(refs[k]) == a
  }

  datatype OwnedScan = SelfLoop(pair: seq<string>) | Owned(refs: seq<string>)

  /** One pass over a bridge's references: it stops at the first `p:p`
      reference, and otherwise collects the references owned by `vnf`. */
  function ScanBridgeRefs(refs: seq<string>, vnf: string): (r: OwnedScan)
    ensures r.SelfLoop? <==> exists j | 0 <= j < |refs| :: SelfRef(refs[j])
    ensures r.SelfLoop? ==>
      |r.pair| == 2 && r.pair[0] == r.pair[1] && exists j | 0 <= j < |refs| :: Split(refs[j]) == r.pair
    ensures r.Owned? ==> forall x | x in r.refs :: x in refs && Owner(x) == vnf
    ensures r.Owned? ==> (|r.refs| >= 1 <==> exists j | 0 <= j < |refs| :: Owner(refs[j]) == vnf)
    ensures r.Owned? ==> (|r.refs| >= 2 <==> TwoOwnedBy(refs, vnf))
    decreases |refs|
  {
    if |refs| == 0 then Owned([])
    else
      var p := Split(refs[0]);
      if |p| == 2 && p[0] == p[1] then SelfLoop(p)
      else
        var rest := ScanBridgeRefs(refs[1..], vnf);
        ScanTail(refs, vnf);
        match rest
        case SelfLoop(q) => SelfLoop(q)
        case Owned(xs) =>
          Owned((if p[0] == vnf then [refs[0]] else []) + xs)
  }

  /** How the properties `ScanBridgeRefs` reports split between the first
      reference and the rest. */
  lemma ScanTail(refs: seq<string>, vnf: string)
    requires |refs| > 0
    ensures forall j | 0 <= j < |refs| - 1 :: refs[1..][j] == refs[j + 1]
    ensures (exists j | 0 <= j < |refs| :: SelfRef(refs[j])) <==>
      SelfRef(refs[0]) || exists j | 0 <= j < |refs[1..]| :: SelfRef(refs[1..][j])
    ensures (exists j | 0 <= j < |refs| :: Owner(refs[j]) == vnf) <==>
      Owner(refs[0]) == vnf || exists j | 0 <= j < |refs[1..]| :: Owner(refs[1..][j]) == vnf
    ensures TwoOwnedBy(refs, vnf) <==>
      TwoOwnedBy(refs[1..], vnf) ||
      (Owner(refs[0]) == vnf && exists j | 0 <= j < |refs[1..]| :: Owner(refs[1..][j]) == vnf)
  {
    SelfTail(refs);
    OwnedTail(refs, vnf);
    TwoOwnedTail(refs, vnf);
  }

  lemma SelfTail(refs: seq<string>)
    requires |refs| > 0
    ensures (exists j | 0 <= j < |refs| :: SelfRef(refs[j])) <==>
      SelfRef(refs[0]) || exists j | 0 <= j < |refs[1..]| :: SelfRef(refs[1..][j])
  {
    var tail := refs[1..];
    if exists j | 0 <= j < |refs| :: SelfRef(refs[j]) {
      var j :| 0 <= j < |refs| && SelfRef(refs[j]);
      if j != 0 {
        assert tail[j - 1] == refs[j];
      }
    }
    if exists j | 0 <= j < |tail| :: SelfRef(tail[j]) {
      var j :| 0 <= j < |tail| && SelfRef(tail[j]);
      assert tail[j] == refs[j + 1];
    }
  }

  lemma OwnedTail(refs: seq<string>, vnf: string)
    requires |refs| > 0
    ensures (exists j | 0 <= j < |refs| :: Owner(refs[j]) == vnf) <==>
      Owner(refs[0]) == vnf || exists j | 0 <= j < |refs[1..]| :: Owner(refs[1..][j]) == vnf
  {
    var tail := refs[1..];
    if exists j | 0 <= j < |refs| :: Owner(refs[j]) == vnf {
      var j :| 0 <= j < |refs| && Owner(refs[j]) == vnf;
      if j != 0 {
        assert tail[j - 1] == refs[j];
      }
    }
    if exists j | 0 <= j < |tail| :: Owner(tail[j]) == vnf {
      var j :| 0 <= j < |tail| && Owner(tail[j]) == vnf;
      assert tail[j] == refs[j + 1];
    }
  }

  lemma TwoOwnedTail(refs: seq<string>, vnf: string)
    requires |refs| > 0
    ensures TwoOwnedBy(refs, vnf) <==>
      TwoOwnedBy(refs[1..], vnf) ||
      (Owner(refs[0]) == vnf && exists j | 0 <= j < |refs[1..]| :: Owner(refs[1..][j]) == vnf)
  {
    var tail := refs[1..];
    if TwoOwnedBy(tail, vnf) {
      var j, k :| 0 <= j < k < |tail| && Owner(tail[j]) == vnf && Owner(tail[k]) == vnf;
      assert tail[j] == refs[j + 1] && tail[k] == refs[k + 1];
    }
    if Owner(refs[0]) == vnf && exists j | 0 <= j < |tail| :: Owner(tail[j]) == vnf {
      var k :| 0 <= k < |tail| && Owner(tail[k]) == vnf;
      assert tail[k] == refs[k + 1];
    }
    if TwoOwnedBy(refs, vnf) {
      var j, k :| 0 <= j < k < |refs| && Owner(refs[j]) == vnf && Owner(refs[k]) == vnf;
      assert tail[k - 1] == refs[k];
      if j != 0 {
        assert tail[j - 1] == refs[j];
      }
    }
  }

  datatype Scan = Scan(acc: Dict<string, seq<string>>, stop: bool)

  /** The bridge part of `detect_loops` for one alias, from bridge `m` on:
      a bridge referencing a service connection point twice or a `p:p`
      reference ends the whole detection; otherwise a bridge with two or
      more references owned by the alias is reported with those
      references. */
  function BridgesScan(s: ServiceState, vnf: string, acc: Dict<string, seq<string>>, m: nat): Scan
    requires m <= |s.d.vbridges.entries|
    decreases |s.d.vbridges.entries| - m
  {
    if m == |s.d.vbridges.entries| then Scan(acc, false)
    else
      var e := s.d.vbridges.entries[m];
      match RepeatedCp(s.d.cps, e.1.refs)
      case Some(c) => Scan(acc.Put(e.0, [c, c]), true)
      case None =>
        match ScanBridgeRefs(e.1.refs, vnf)
        case SelfLoop(pair) => Scan(acc.Put(e.0, pair), true)
        case Owned(xs) => BridgesScan(s, vnf, if |xs| >= 2 then acc.Put(e.0, xs) else acc, m + 1)
  }

  /** The loop over aliases from alias `t` on.  The link check does not
      depend on the alias, so it can only end the detection at the first
      alias. */
  function VnfScan(s: ServiceState, acc: Dict<string, seq<string>>, t: nat): Dict<string, seq<string>>
    requires t <= |s.vnfIdMap.entries|
    decreases |s.vnfIdMap.entries| - t
  {
    if t == |s.vnfIdMap.entries| then acc
    else match FirstLinkLoop(s.d.vlinks.entries)
      case Some(e) => acc.Put(e.0, e.1.Refs())
      case None =>
        var r := BridgesScan(s, s.vnfIdMap.entries[t].0, acc, 0);
        if r.stop then r.acc else VnfScan(s, r.acc, t + 1)
  }

  /** `Service.detect_loops`, as written: the loops found, by link or
      bridge id, up to the first one that ends the detection. */
  function DetectServiceLoops(s: ServiceState): Dict<string, seq<string>> {
    VnfScan(s, Empty(), 0)
  }

  /** The bridge loops a single bridge exhibits for alias `a`. */
  predicate BridgeLoopsFor(s: ServiceState, refs: seq<string>, a: string) {
    (exists c | c in s.d.cps :: multiset(refs)[c] > 1) ||
    (exists j | 0 <= j < |refs| :: SelfRef(refs[j])) ||
    TwoOwnedBy(refs, a)
  }

  /** Some loop exists for alias number `t`. */
  predicate LoopFor(s: ServiceState, t: nat)
    requires t < |s.vnfIdMap.entries|
  {
    (exists i | 0 <= i < |s.d.vlinks.entries| :: LinkLoops(s.d.vlinks.entries[i].1)) ||
    (exists i | 0 <= i < |s.d.vbridges.entries| ::
      BridgeLoopsFor(s, s.d.vbridges.entries[i].1.refs, s.vnfIdMap.entries[t].0))
  }

  /** What a reported entry stands for: a link with both endpoints on one
      owner, a bridge referencing a service connection point twice, a
      bridge with a `p:p` reference, or two or more references of a bridge
      owned by one alias. */
  ghost predicate GenuineLoop(s: ServiceState, k: string, v: seq<string>) {
    (exists i | 0 <= i < |s.d.vlinks.entries| ::
      s.d.vlinks.entries[i].0 == k && LinkLoops(s.d.vlinks.entries[i].1) && v == s.d.vlinks.entries[i].1.Refs()) ||
    (exists i | 0 <= i < |s.d.vbridges.entries| ::
      s.d.vbridges.entries[i].0 == k && BridgeLoopValue(s, s.d.vbridges.entries[i].1.refs, v))
  }

  ghost predicate BridgeLoopValue(s: ServiceState, refs: seq<string>, v: seq<string>) {
    (|v| == 2 && v[0] == v[1] && v[0] in s.d.cps && multiset(refs)[v[0]] > 1) ||
    (|v| == 2 && v[0] == v[1] && v in Splits(refs)) ||
    (|v| >= 2 && Owner(v[0]) in s.vnfIdMap.Keys() && forall x | x in v :: x in refs && Owner(x) == Owner(v[0]))
  }

  /** Every reference's segments. */
  function Splits(refs: seq<string>): (r: seq<seq<string>>)
    ensures |r| == |refs| && forall j | 0 <= j < |refs| :: r[j] == Split(refs[j])
    decreases |refs|
  {
    if |refs| == 0 then [] else Splits(refs[..|refs| - 1]) + [Split(refs[|refs| - 1])]
  }

  ghost predicate AllGenuine(s: ServiceState, acc: Dict<string, seq<string>>) {
    forall i | 0 <= i < |acc.entries| :: GenuineLoop(s, acc.entries[i].0, acc.entries[i].1)
  }

  /** `d[k] = v` keeps the old entries or replaces one with `(k, v)`. */
  lemma PutEntries<K, V>(d: Dict<K, V>, k: K, v: V, j: nat)
    requires j < |d.Put(k, v).entries|
    ensures d.Put(k, v).entries[j] == (k, v) || d.Put(k, v).entries[j] in d.entries
  {
  }

  /** `d[k] = v` never removes an entry. */
  lemma PutLength<K, V>(d: Dict<K, V>, k: K, v: V)
    ensures |d.Put(k, v).entries| >= |d.entries| && |d.Put(k, v).entries| >= 1
  {
  }

  lemma PutGenuine(s: ServiceState, acc: Dict<string, seq<string>>, k: string, v: seq<string>)
    requires AllGenuine(s, acc) && GenuineLoop(s, k, v)
    ensures AllGenuine(s, acc.Put(k, v))
  {
    forall j | 0 <= j < |acc.Put(k, v).entries|
      ensures GenuineLoop(s, acc.Put(k, v).entries[j].0, acc.Put(k, v).entries[j].1)
    {
      PutEntries(acc, k, v, j);
    }
  }

  lemma {:induction false} BridgesScanSound(s: ServiceState, t: nat, acc: Dict<string, seq<string>>, m: nat)
    requires t < |s.vnfIdMap.entries| && m <= |s.d.vbridges.entries|
    requires AllGenuine(s, acc)
    ensures AllGenuine(s, BridgesScan(s, s.vnfIdMap.entries[t].0, acc, m).acc)
    decreases |s.d.vbridges.entries| - m
  {
    if m < |s.d.vbridges.entries| {
      var vnf := s.vnfIdMap.entries[t].0;
      var e := s.d.vbridges.entries[m];
      match RepeatedCp(s.d.cps, e.1.refs)
      case Some(c) =>
        assert BridgeLoopValue(s, e.1.refs, [c, c]);
        PutGenuine(s, acc, e.0, [c, c]);
      case None =>
        match ScanBridgeRefs(e.1.refs, vnf)
        case SelfLoop(pair) =>
          var j :| 0 <= j < |e.1.refs| && Split(e.1.refs[j]) == pair;
          assert Splits(e.1.refs)[j] == pair;
          assert BridgeLoopValue(s, e.1.refs, pair);
          PutGenuine(s, acc, e.0, pair);
        case Owned(xs) =>
          if |xs| >= 2 {
            assert Owner(xs[0]) == vnf;
            assert vnf in s.vnfIdMap.Keys() by { assert s.vnfIdMap.Keys()[t] == vnf; }
            assert BridgeLoopValue(s, e.1.refs, xs);
            PutGenuine(s, acc, e.0, xs);
            BridgesScanSound(s, t, acc.Put(e.0, xs), m + 1);
          } else {
            BridgesScanSound(s, t, acc, m + 1);
          }
    }
  }

  lemma {:induction false} VnfScanSound(s: ServiceState, acc: Dict<string, seq<string>>, t: nat)
    requires t <= |s.vnfIdMap.entries| && AllGenuine(s, acc)
    ensures AllGenuine(s, VnfScan(s, acc, t))
    decreases |s.vnfIdMap.entries| - t
  {
    if t < |s.vnfIdMap.entries| {
      match FirstLinkLoop(s.d.vlinks.entries)
      case Some(e) =>
        var i :| 0 <= i < |s.d.vlinks.entries| && s.d.vlinks.entries[i] == e;
        PutGenuine(s, acc, e.0, e.1.Refs());
      case None =>
        BridgesScanSound(s, t, acc, 0);
        var r := BridgesScan(s, s.vnfIdMap.entries[t].0, acc, 0);
        if !r.stop {
          VnfScanSound(s, r.acc, t + 1);
        }
    }
  }

  /** Every loop `detect_loops` reports is a genuine one. */
  lemma DetectServiceLoopsSound(s: ServiceState, i: nat)
    requires i < |DetectServiceLoops(s).entries|
    ensures GenuineLoop(s, DetectServiceLoops(s).entries[i].0, DetectServiceLoops(s).entries[i].1)
  {
    VnfScanSound(s, Empty(), 0);
  }

  lemma {:induction false} BridgesScanComplete(s: ServiceState, vnf: string, acc: Dict<string, seq<string>>, m: nat)
    requires m <= |s.d.vbridges.entries|
    ensures |BridgesScan(s, vnf, acc, m).acc.entries| >= |acc.entries|
    ensures BridgesScan(s, vnf, acc, m).stop ==> |BridgesScan(s, vnf, acc, m).acc.entries| >= 1
    ensures (exists i | m <= i < |s.d.vbridges.entries| :: BridgeLoopsFor(s, s.d.vbridges.entries[i].1.refs, vnf)) ==>
      |BridgesScan(s, vnf, acc, m).acc.entries| >= 1
    ensures (forall i | m <= i < |s.d.vbridges.entries| :: !BridgeLoopsFor(s, s.d.vbridges.entries[i].1.refs, vnf)) ==>
      BridgesScan(s, vnf, acc, m) == Scan(acc, false)
    decreases |s.d.vbridges.entries| - m
  {
    if m < |s.d.vbridges.entries| {
      var e := s.d.vbridges.entries[m];
      match RepeatedCp(s.d.cps, e.1.refs)
      case Some(c) =>
        PutLength(acc, e.0, [c, c]);
      case None =>
        match ScanBridgeRefs(e.1.refs, vnf)
        case SelfLoop(pair) =>
          PutLength(acc, e.0, pair);
        case Owned(xs) =>
          if |xs| >= 2 {
            PutLength(acc, e.0, xs);
            BridgesScanComplete(s, vnf, acc.Put(e.0, xs), m + 1);
          } else {
            assert !BridgeLoopsFor(s, e.1.refs, vnf);
            BridgesScanComplete(s, vnf, acc, m + 1);
            if exists i | m <= i < |s.d.vbridges.entries| :: BridgeLoopsFor(s, s.d.vbridges.entries[i].1.refs, vnf) {
              var i :| m <= i < |s.d.vbridges.entries| && BridgeLoopsFor(s, s.d.vbridges.entries[i].1.refs, vnf);
              assert i != m;
            }
          }
    }
  }

  lemma {:induction false} VnfScanGrows(s: ServiceState, acc: Dict<string, seq<string>>, t: nat)
    requires t <= |s.vnfIdMap.entries|
    ensures |VnfScan(s, acc, t).entries| >= |acc.entries|
    decreases |s.vnfIdMap.entries| - t
  {
    if t < |s.vnfIdMap.entries| {
      match FirstLinkLoop(s.d.vlinks.entries)
      case Some(e) =>
        PutLength(acc, e.0, e.1.Refs());
      case None =>
        var vnf := s.vnfIdMap.entries[t].0;
        BridgesScanComplete(s, vnf, acc, 0);
        var r := BridgesScan(s, vnf, acc, 0);
        if !r.stop {
          VnfScanGrows(s, r.acc, t + 1);
        }
    }
  }

  lemma {:induction false} VnfScanQuiet(s: ServiceState, acc: Dict<string, seq<string>>, t: nat)
    requires t <= |s.vnfIdMap.entries|
    requires forall u | t <= u < |s.vnfIdMap.entries| :: !LoopFor(s, u)
    ensures VnfScan(s, acc, t) == acc
    decreases |s.vnfIdMap.entries| - t
  {
    if t < |s.vnfIdMap.entries| {
      var vnf := s.vnfIdMap.entries[t].0;
      assert !LoopFor(s, t);
      assert FirstLinkLoop(s.d.vlinks.entries).None?;
      assert forall i | 0 <= i < |s.d.vbridges.entries| :: !BridgeLoopsFor(s, s.d.vbridges.entries[i].1.refs, vnf);
      BridgesScanComplete(s, vnf, acc, 0);
      assert BridgesScan(s, vnf, acc, 0) == Scan(acc, false);
      VnfScanQuiet(s, acc, t + 1);
      assert VnfScan(s, acc, t) == VnfScan(s, acc, t + 1);
    }
  }

  lemma {:induction false} VnfScanFinds(s: ServiceState, acc: Dict<string, seq<string>>, t: nat, u: nat)
    requires t <= u < |s.vnfIdMap.entries| && LoopFor(s, u)
    ensures |VnfScan(s, acc, t).entries| >= 1
    decreases |s.vnfIdMap.entries| - t
  {
    match FirstLinkLoop(s.d.vlinks.entries)
    case Some(e) =>
      PutLength(acc, e.0, e.1.Refs());
    case None =>
      var vnf := s.vnfIdMap.entries[t].0;
      BridgesScanComplete(s, vnf, acc, 0);
      var r := BridgesScan(s, vnf, acc, 0);
      if u == t {
        var i :| 0 <= i < |s.d.vbridges.entries| && BridgeLoopsFor(s, s.d.vbridges.entries[i].1.refs, vnf);
        if !r.stop {
          VnfScanGrows(s, r.acc, t + 1);
        }
      } else if !r.stop {
        VnfScanFinds(s, r.acc, t + 1, u);
      }
  }

  /** `detect_loops` reports nothing exactly when no alias sees a loop: no
      link with both ends on one owner, no bridge referencing a service
      connection point twice or holding a `p:p` reference, and no bridge
      with two references owned by one alias.  A service without aliases
      reports nothing at all. */
  lemma DetectServiceLoopsEmpty(s: ServiceState)
    ensures DetectServiceLoops(s).entries == [] <==>
      forall t | 0 <= t < |s.vnfIdMap.entries| :: !LoopFor(s, t)
  {
    if exists t | 0 <= t < |s.vnfIdMap.entries| :: LoopFor(s, t) {
      var t :| 0 <= t < |s.vnfIdMap.entries| && LoopFor(s, t);
      VnfScanFinds(s, Empty(), 0, t);
    } else {
      VnfScanQuiet(s, Empty(), 0);
    }
  }

  // ------------------------------------------------ undeclared references

  /** The references `undeclared_connection_points` walks: link endpoints,
      then bridge references. */
  function TargetRefs(s: ServiceState): seq<string> {
    VlinkCpRefs(s.d) + VbridgeCpRefs(s.d)
  }

  /** The intended test: a plain reference must be a service connection
      point; `alias:cp` with a mapped alias must name one of that
      function's connection points.  An unmapped alias is not reported
      here (the integrity stage catches it afterwards). */
  predicate UndeclaredServiceRef(s: ServiceState, r: string) {
    var p := Split(r);
    if |p| == 1 then r !in s.d.cps
    else MappedFunction(s, p[0]).Some? && p[1] !in MappedFunction(s, p[0]).value.d.cps
  }

  function ServiceUndeclaredOf(s: ServiceState, refs: seq<string>): seq<string>
    decreases |refs|
  {
    if |refs| == 0 then []
    else
      var r := refs[|refs| - 1];
      ServiceUndeclaredOf(s, refs[..|refs| - 1]) + (if UndeclaredServiceRef(s, r) then [r] else [])
  }

  /** `Service.undeclared_connection_points`, corrected: the failing
      references in walk order. */
  function ServiceUndeclared(s: ServiceState): seq<string> {
    ServiceUndeclaredOf(s, TargetRefs(s))
  }

  lemma {:induction false} ServiceUndeclaredOfMember(s: ServiceState, refs: seq<string>, x: string)
    ensures x in ServiceUndeclaredOf(s, refs) <==> x in refs && UndeclaredServiceRef(s, x)
    decreases |refs|
  {
    if |refs| > 0 {
      ServiceUndeclaredOfMember(s, refs[..|refs| - 1], x);
      assert refs == refs[..|refs| - 1] + [refs[|refs| - 1]];
    }
  }

  /** A reference is reported exactly when a link or bridge uses it and it
      is a plain reference that is not a service connection point, or
      names a mapped function that does not declare its second segment. */
  lemma ServiceUndeclaredMember(s: ServiceState, x: string)
    ensures x in ServiceUndeclared(s) <==>
      (x in VlinkCpRefs(s.d) || x in VbridgeCpRefs(s.d)) &&
      (if |Split(x)| == 1 then x !in s.d.cps
       else match MappedFunction(s, Split(x)[0])
         case None => false
         case Some(f) => Split(x)[1] !in f.d.cps)
  {
    ServiceUndeclaredOfMember(s, TargetRefs(s), x);
  }

  /** The source's per-reference test: a declared plain reference falls
      into the second branch, and when it is also a mapped alias the
      missing second segment is indexed. */
  function UndeclaredCheckAsWritten(s: ServiceState, r: string): Outcome<bool> {
    var p := Split(r);
    if |p| == 1 && r !in s.d.cps then Returned(true)
    else match MappedFunction(s, p[0])
      case None => Returned(false)
      case Some(f) => if |p| < 2 then Raised("IndexError") else Returned(p[1] !in f.d.cps)
  }

  function UndeclaredOfAsWritten(s: ServiceState, refs: seq<string>): Outcome<seq<string>>
    decreases |refs|
  {
    if |refs| == 0 then Returned([])
    else
      var r := refs[|refs| - 1];
      match UndeclaredOfAsWritten(s, refs[..|refs| - 1])
      case Raised(e) => Raised(e)
      case Returned(xs) =>
        match UndeclaredCheckAsWritten(s, r)
        case Raised(e) => Raised(e)
        case Returned(b) => Returned(xs + (if b then [r] else []))
  }

  /** `Service.undeclared_connection_points` as written. */
  function ServiceUndeclaredAsWritten(s: ServiceState): Outcome<seq<string>> {
    UndeclaredOfAsWritten(s, TargetRefs(s))
  }

  /** A declared plain connection point that is also a mapped alias. */
  predicate AliasClash(s: ServiceState, r: string) {
    |Split(r)| == 1 && r in s.d.cps && MappedFunction(s, r).Some?
  }

  lemma {:induction false} UndeclaredOfAsWrittenAgrees(s: ServiceState, refs: seq<string>)
    ensures UndeclaredOfAsWritten(s, refs).Raised? <==> exists j | 0 <= j < |refs| :: AliasClash(s, refs[j])
    ensures UndeclaredOfAsWritten(s, refs).Returned? ==>
      UndeclaredOfAsWritten(s, refs).value == ServiceUndeclaredOf(s, refs)
    decreases |refs|
  {
    if |refs| > 0 {
      var n := |refs|;
      UndeclaredOfAsWrittenAgrees(s, refs[..n - 1]);
      assert forall j | 0 <= j < n - 1 :: refs[..n - 1][j] == refs[j];
      if |Split(refs[n - 1])| == 1 {
        assert Split(refs[n - 1])[0] == refs[n - 1] by { JoinSplit(refs[n - 1]); }
      }
    }
  }

  /** The source's version agrees with the corrected one except that it
      raises exactly when a link or bridge uses a declared plain connection
      point that is also a mapped alias. */
  lemma ServiceUndeclaredAsWrittenAgrees(s: ServiceState)
    ensures ServiceUndeclaredAsWritten(s).Raised? <==>
      exists j | 0 <= j < |TargetRefs(s)| :: AliasClash(s, TargetRefs(s)[j])
    ensures ServiceUndeclaredAsWritten(s).Returned? ==> ServiceUndeclaredAsWritten(s).value == ServiceUndeclared(s)
  {
    UndeclaredOfAsWrittenAgrees(s, TargetRefs(s));
  }

  /** A service declaring connection point `x`, aggregating a function
      under the alias `x`, and linking `x` to itself: the source raises. */
  lemma ServiceUndeclaredRaisesExample()
    ensures
      var f := FunctionState("f", EmptyState(), Empty());
      var d := DescState(["x"], Dict([("l", VLink("l", "x", "x"))]), Empty());
      var s := ServiceState("s", d, Dict([("f", f)]), Dict([("x", "f")]));
      ServiceUndeclaredAsWritten(s) == Raised("IndexError") && ServiceUndeclared(s) == []
  {
    var f := FunctionState("f", EmptyState(), Empty());
    var d := DescState(["x"], Dict([("l", VLink("l", "x", "x"))]), Empty());
    var s := ServiceState("s", d, Dict([("f", f)]), Dict([("x", "f")]));
    assert Split("x") == ["x"] by {
      assert Split("") == [""];
      assert "x"[1..] == "";
      assert "x"[0] == 'x';
      assert [""][1..] == [];
      assert ['x'] + "" == "x";
    }
    assert VlinkCpRefs(d) == ["x", "x"] by {
      assert d.vlinks.entries[..0] == [];
    }
    assert VbridgeCpRefs(d) == [];
    assert TargetRefs(s) == ["x", "x"];
    assert MappedFunction(s, "x") == Some(f);
    assert UndeclaredCheckAsWritten(s, "x") == Raised("IndexError");
    assert UndeclaredOfAsWritten(s, ["x"]) == Raised("IndexError") by {
      assert ["x"][..0] == [];
    }
    assert ["x", "x"][..1] == ["x"];
    ServiceUndeclaredOfMember(s, TargetRefs(s), "x");
    assert ServiceUndeclared(s) == [] by {
      assert ["x", "x"][..1] == ["x"];
      assert ["x"][..0] == [];
    }
  }

  // ------------------------------------------- integrity of link references

  /** The reference test of the service integrity stage: a plain reference
      must be a service connection point, `alias:cp` must name a mapped
      function declaring `cp`; longer references are not checked. */
  predicate ServiceRefResolved(s: ServiceState, r: string) {
    var p := Split(r);
    if |p| == 1 then r in s.d.cps
    else if |p| == 2 then
      match MappedFunction(s, p[0])
      case None => false
      case Some(f) => p[1] in f.d.cps
    else true
  }

  /** The first reference that does not resolve. */
  function FirstUnresolved(s: ServiceState, refs: seq<string>): (r: Option<string>)
    ensures r.None? <==> forall j | 0 <= j < |refs| :: ServiceRefResolved(s, refs[j])
    ensures r.Some? ==> !ServiceRefResolved(s, r.value)
    ensures r.Some? ==>
      exists j | 0 <= j < |refs| :: refs[j] == r.value && forall k | 0 <= k < j :: ServiceRefResolved(s, refs[k])
    decreases |refs|
  {
    if |refs| == 0 then None
    else if !ServiceRefResolved(s, refs[0]) then Some(refs[0])
    else
      assert forall j | 1 <= j < |refs| :: refs[j] == refs[1..][j - 1];
      var r := FirstUnresolved(s, refs[1..]);
      assert r.Some? ==>
        exists j | 0 <= j < |refs| :: refs[j] == r.value && forall k | 0 <= k < j :: ServiceRefResolved(s, refs[k])
      by {
        if r.Some? {
          var j :| 0 <= j < |refs[1..]| && refs[1..][j] == r.value &&
            forall k | 0 <= k < j :: ServiceRefResolved(s, refs[1..][k]);
          assert refs[j + 1] == r.value;
          assert forall k | 0 <= k < j + 1 :: ServiceRefResolved(s, refs[k]);
        }
      }
      r
  }

  /** Once no undeclared reference was reported, the integrity stage can
      only fail on a two-segment reference whose alias maps to no
      function. */
  lemma UnresolvedAfterUndeclared(s: ServiceState, r: string)
    requires ServiceUndeclared(s) == [] && r in VlinkCpRefs(s.d) && !ServiceRefResolved(s, r)
    ensures |Split(r)| == 2 && MappedFunction(s, Split(r)[0]).None?
  {
    ServiceUndeclaredMember(s, r);
  }

  // ------------------------------------------------- `_cp_in_functions`

  /** `_cp_in_functions` as written: reading the function's `interfaces`,
      an attribute functions do not have, raises whenever a mapped
      function is reached. */
  function CpInFunctionsAsWritten(s: ServiceState, iface: string): Outcome<bool> {
    var p := Split(iface);
    if |p| != 2 then Returned(false)
    else match MappedFunction(s, p[0])
      case None => Returned(false)
      case Some(f) => Raised("AttributeError")
  }

  /** `_cp_in_functions` reading the function's connection points. */
  predicate CpInFunctions(s: ServiceState, iface: string) {
    var p := Split(iface);
    |p| == 2 &&
    match MappedFunction(s, p[0])
    case None => false
    case Some(f) => p[1] in f.d.cps || iface in f.d.cps
  }

  /** The source's version raises on every `alias:cp` whose alias is
      mapped and otherwise answers False, like the corrected one. */
  lemma CpInFunctionsAsWrittenRaises(s: ServiceState, iface: string)
    ensures CpInFunctionsAsWritten(s, iface).Raised? <==>
      |Split(iface)| == 2 && MappedFunction(s, Split(iface)[0]).Some?
    ensures CpInFunctionsAsWritten(s, iface).Returned? ==>
      CpInFunctionsAsWritten(s, iface).value == false && !CpInFunctions(s, iface)
  {
  }

  /** For a two-segment reference of a service whose functions declare
      colon-free connection points, the corrected test is exactly the
      integrity stage's resolution test. */
  lemma CpInFunctionsResolved(s: ServiceState, iface: string)
    requires |Split(iface)| == 2
    requires forall i | 0 <= i < |s.functions.entries| :: s.functions.entries[i].1.d.Valid()
    requires s.functions.Valid()
    ensures CpInFunctions(s, iface) <==> ServiceRefResolved(s, iface)
  {
    match MappedFunction(s, Split(iface)[0])
    case None =>
    case Some(f) =>
      var fid := s.vnfIdMap.Get(Split(iface)[0]).value;
      var j := IndexOf(s.functions.entries, fid).value;
      assert f == s.functions.entries[j].1;
      assert f.d.Valid();
      SplitHasColon(iface);
  }
}
