/**
 * storage.py `Service.load_forwarding_graphs`: each forwarding path of each
 * forwarding graph becomes the list of its connection-point references
 * ordered by their declared position.  A reference that does not resolve
 * ends the loading; a repeated position is reported and the later
 * reference replaces the earlier one.
 */
module ForwardingGraphs {
  import opened Wrappers
  import opened Refs
  import opened Dicts
  import opened Events
  import opened Content
  import opened Folds
  import opened ServiceQueries

  datatype FwPath = FwPath(fpId: string, path: seq<string>)

  datatype FwGraph = FwGraph(fgId: string, paths: seq<FwPath>)

  // ------------------------------------------------ ordering by position

  /** Positions never decrease along `ps`. */
  predicate Ascending(ps: seq<(int, string)>) {
    forall i, j | 0 <= i < j < |ps| :: ps[i].0 <= ps[j].0
  }

  function InsertByPosition(e: (int, string), ps: seq<(int, string)>): (r: seq<(int, string)>)
    requires Ascending(ps)
    ensures Ascending(r) && multiset(r) == multiset(ps) + multiset{e}
    ensures |r| == |ps| + 1
    ensures forall x | x in r :: x == e || x in ps
    decreases |ps|
  {
    if |ps| == 0 then [e]
    else if e.0 <= ps[0].0 then [e] + ps
    else
      var rest := InsertByPosition(e, ps[1..]);
      InsertBehind(e, ps, rest);
      [ps[0]] + rest
  }

  /** An entry later than the head goes into the tail. */
  lemma InsertBehind(e: (int, string), ps: seq<(int, string)>, rest: seq<(int, string)>)
    requires |ps| > 0 && Ascending(ps) && e.0 > ps[0].0
    requires Ascending(rest) && multiset(rest) == multiset(ps[1..]) + multiset{e}
    requires |rest| == |ps[1..]| + 1 && forall x | x in rest :: x == e || x in ps[1..]
    ensures Ascending([ps[0]] + rest) && multiset([ps[0]] + rest) == multiset(ps) + multiset{e}
    ensures |[ps[0]] + rest| == |ps| + 1
    ensures forall x | x in [ps[0]] + rest :: x == e || x in ps
  {
    assert ps == [ps[0]] + ps[1..];
    forall x | x in rest ensures ps[0].0 <= x.0 {
      if x != e {
        var k :| 0 <= k < |ps[1..]| && ps[1..][k] == x;
        assert ps[k + 1] == x;
      }
    }
    AscendingCons(ps[0], rest);
  }

  /** An entry no later than every entry of an ascending list heads it. */
  lemma AscendingCons(x: (int, string), ps: seq<(int, string)>)
    requires Ascending(ps) && forall y | y in ps :: x.0 <= y.0
    ensures Ascending([x] + ps)
  {
    var r := [x] + ps;
    forall i, j | 0 <= i < j < |r| ensures r[i].0 <= r[j].0 {
      assert r[j] == ps[j - 1];
      if i > 0 {
        assert r[i] == ps[i - 1];
      }
    }
  }

  /** `sorted(path_dict.items(), key=position)`. */
  function SortByPosition(ps: seq<(int, string)>): (r: seq<(int, string)>)
    ensures Ascending(r) && multiset(r) == multiset(ps)
    decreases |ps|
  {
    if |ps| == 0 then []
    else
      assert ps == [ps[0]] + ps[1..];
      InsertByPosition(ps[0], SortByPosition(ps[1..]))
  }

  function Seconds(ps: seq<(int, string)>): (r: seq<string>)
    ensures |r| == |ps| && forall i | 0 <= i < |ps| :: r[i] == ps[i].1
    decreases |ps|
  {
    if |ps| == 0 then [] else Seconds(ps[..|ps| - 1]) + [ps[|ps| - 1].1]
  }

  /** `list(OrderedDict(sorted(...)).values())`. */
  function Ordered(d: Dict<int, string>): seq<string> {
    Seconds(SortByPosition(d.entries))
  }

  /** The ordered path lists exactly the dictionary's references, by
      strictly increasing position. */
  lemma OrderedSpec(d: Dict<int, string>)
    requires d.Valid()
    ensures |Ordered(d)| == |d.entries|
    ensures exists ps: seq<(int, string)> :: OrderedAs(d, ps)
  {
    var ps := SortByPosition(d.entries);
    SortedFound(d);
    SortedStrict(d);
    assert |ps| == |d.entries| && multiset(ps) == multiset(d.entries);
    assert forall i | 0 <= i < |ps| :: Ordered(d)[i] == ps[i].1 && d.Get(ps[i].0) == Some(ps[i].1);
    assert OrderedAs(d, ps);
  }

  /** `ps` is a strictly ascending arrangement of the dictionary's entries
      whose references are the ordered path. */
  ghost predicate OrderedAs(d: Dict<int, string>, ps: seq<(int, string)>) {
    |ps| == |d.entries| && multiset(ps) == multiset(d.entries) &&
    (forall i, j | 0 <= i < j < |ps| :: ps[i].0 < ps[j].0) &&
    |Ordered(d)| == |ps| &&
    (forall i | 0 <= i < |ps| :: Ordered(d)[i] == ps[i].1 && d.Get(ps[i].0) == Some(ps[i].1))
  }

  /** Every sorted entry is the dictionary's entry for its position. */
  lemma SortedFound(d: Dict<int, string>)
    requires d.Valid()
    ensures |SortByPosition(d.entries)| == |d.entries|
    ensures forall i | 0 <= i < |d.entries| ::
      d.Get(SortByPosition(d.entries)[i].0) == Some(SortByPosition(d.entries)[i].1)
  {
    var ps := SortByPosition(d.entries);
    assert |multiset(ps)| == |multiset(d.entries)|;
    forall i | 0 <= i < |ps| ensures d.Get(ps[i].0) == Some(ps[i].1) {
      assert ps[i] in multiset(d.entries);
      var k :| 0 <= k < |d.entries| && d.entries[k] == ps[i];
      GetEntry(d, k);
    }
  }

  /** Sorting a dictionary's entries leaves no position twice. */
  lemma SortedStrict(d: Dict<int, string>)
    requires d.Valid()
    ensures forall i, j | 0 <= i < j < |SortByPosition(d.entries)| ::
      SortByPosition(d.entries)[i].0 < SortByPosition(d.entries)[j].0
  {
    var ps := SortByPosition(d.entries);
    SortedFound(d);
    EntriesOnce(d);
    forall i, j | 0 <= i < j < |ps| ensures ps[i].0 < ps[j].0 {
      CountTwice(ps, i, j);
      var a, b := ps[i], ps[j];
      assert a.0 <= b.0;
      assert a.0 == b.0 ==> a == b;
    }
  }

  /** A valid dict holds each entry at most once. */
  lemma {:induction false} EntriesOnce<K, V>(d: Dict<K, V>)
    requires d.Valid()
    ensures forall e :: multiset(d.entries)[e] <= 1
    decreases |d.entries|
  {
    var es := d.entries;
    if |es| > 0 {
      var pre := Dict(es[..|es| - 1]);
      EntriesOnce(pre);
      assert es == pre.entries + [es[|es| - 1]];
      assert es[|es| - 1] !in pre.entries;
    }
  }

  /** An element found at two places is counted at least twice. */
  lemma CountTwice<T>(ps: seq<T>, i: nat, j: nat)
    requires i < j < |ps|
    ensures multiset(ps)[ps[i]] >= 1 + (if ps[j] == ps[i] then 1 else 0)
  {
    assert ps == ps[..j] + [ps[j]] + ps[j + 1..];
    assert ps[i] in ps[..j];
  }

  // ----------------------------------------------------- one path

  /** The check on one referenced connection point, then `path_dict[pos] =
      cpr`; the service id is the event source. */
  function FpCpEntry(s: ServiceState, acc: Dict<int, string>, cp: FpCpDecl): Step<Dict<int, string>> {
    if !ServiceRefResolved(s, cp.ref) then Step(acc, false, [Event(s.id, FwgraphCpointUndefined)])
    else
      Step(acc.Put(cp.position, cp.ref), true,
           if acc.HasKey(cp.position) then [Event(s.id, FwgraphPositionDuplicate)] else [])
  }

  function FpCpStep(s: ServiceState): (Dict<int, string>, FpCpDecl) -> Step<Dict<int, string>> {
    (acc, cp) => FpCpEntry(s, acc, cp)
  }

  /** The last reference declared at `pos`, if any. */
  function LastAt(cps: seq<FpCpDecl>, pos: int): Option<string>
    decreases |cps|
  {
    if |cps| == 0 then None
    else if cps[|cps| - 1].position == pos then Some(cps[|cps| - 1].ref)
    else LastAt(cps[..|cps| - 1], pos)
  }

  /** Whether `pos` is already taken when the point after `pre` is loaded. */
  predicate Taken(acc: Dict<int, string>, pre: seq<FpCpDecl>, pos: int) {
    acc.HasKey(pos) || LastAt(pre, pos).Some?
  }

  /** The points whose position was already taken when they were loaded. */
  function Duplicates(acc: Dict<int, string>, cps: seq<FpCpDecl>): (r: seq<FpCpDecl>)
    ensures |r| <= |cps|
    decreases |cps|
  {
    if |cps| == 0 then []
    else
      var pre := cps[..|cps| - 1];
      Duplicates(acc, pre) + (if Taken(acc, pre, cps[|cps| - 1].position) then [cps[|cps| - 1]] else [])
  }

  /** Loading a path's points succeeds exactly when every reference resolves. */
  lemma {:induction false} RunPathCpsOk(s: ServiceState, acc: Dict<int, string>, cps: seq<FpCpDecl>)
    ensures Run(FpCpStep(s), acc, cps).ok <==> forall j | 0 <= j < |cps| :: ServiceRefResolved(s, cps[j].ref)
    decreases |cps|
  {
    if |cps| > 0 {
      var pre := cps[..|cps| - 1];
      RunPathCpsOk(s, acc, pre);
      assert forall j | 0 <= j < |pre| :: pre[j] == cps[j];
    }
  }

  /** After loading, each position holds the last reference declared at
      it, and the positions no point names keep what they held. */
  lemma {:induction false} RunPathCpsGet(s: ServiceState, acc: Dict<int, string>, cps: seq<FpCpDecl>)
    requires acc.Valid()
    ensures Run(FpCpStep(s), acc, cps).state.Valid()
    ensures Run(FpCpStep(s), acc, cps).ok ==>
      forall pos :: Run(FpCpStep(s), acc, cps).state.Get(pos) ==
        match LastAt(cps, pos) case Some(r) => Some(r) case None => acc.Get(pos)
    decreases |cps|
  {
    if |cps| > 0 {
      var pre := cps[..|cps| - 1];
      var cp := cps[|cps| - 1];
      RunPathCpsGet(s, acc, pre);
      var p := Run(FpCpStep(s), acc, pre);
      PutShape(p.state, cp.position, cp.ref);
      if p.ok {
        forall pos ensures p.state.Put(cp.position, cp.ref).Get(pos) ==
          match LastAt(cps, pos) case Some(r) => Some(r) case None => acc.Get(pos)
        {
          GetPut(p.state, cp.position, cp.ref, pos);
        }
      }
    }
  }

  /** One duplicate warning per point whose position was already taken,
      and every other point adds one position to the dictionary. */
  lemma {:induction false} RunPathCpsEvents(s: ServiceState, acc: Dict<int, string>, cps: seq<FpCpDecl>)
    requires acc.Valid()
    ensures Run(FpCpStep(s), acc, cps).ok ==>
      Run(FpCpStep(s), acc, cps).events == Repeat(Duplicates(acc, cps), s.id, FwgraphPositionDuplicate) &&
      |Run(FpCpStep(s), acc, cps).state.entries| + |Duplicates(acc, cps)| == |acc.entries| + |cps|
    decreases |cps|
  {
    if |cps| > 0 {
      var pre := cps[..|cps| - 1];
      var cp := cps[|cps| - 1];
      RunPathCpsEvents(s, acc, pre);
      RunPathCpsGet(s, acc, pre);
      var p := Run(FpCpStep(s), acc, pre);
      if p.ok {
        PutShape(p.state, cp.position, cp.ref);
        GetSomeHasKey(p.state, cp.position);
        GetSomeHasKey(acc, cp.position);
        assert p.state.HasKey(cp.position) <==> Taken(acc, pre, cp.position);
        if p.state.HasKey(cp.position) {
          assert |p.state.Put(cp.position, cp.ref).Keys()| == |p.state.Keys()|;
        }
      }
    }
  }

  /** The path a declared forwarding path loads into: its id and its
      references in position order. */
  function LoadedPath(s: ServiceState, fp: FpDecl): FwPath {
    FwPath(fp.fpId, Ordered(Run(FpCpStep(s), Empty(), fp.cps).state))
  }

  /** One forwarding path: its points are loaded into an empty position
      dictionary, and on success the ordered path is appended. */
  function PathEntry(s: ServiceState, paths: seq<FwPath>, fp: FpDecl): Step<seq<FwPath>> {
    var r := Run(FpCpStep(s), Empty(), fp.cps);
    if !r.ok then Step(paths, false, r.events)
    else Step(paths + [LoadedPath(s, fp)], true, r.events)
  }

  function PathStep(s: ServiceState): (seq<FwPath>, FpDecl) -> Step<seq<FwPath>> {
    (paths, fp) => PathEntry(s, paths, fp)
  }

  /** The graph a declared forwarding graph loads into. */
  function LoadedGraph(s: ServiceState, fg: FgDecl): FwGraph {
    FwGraph(fg.fgId, Run(PathStep(s), [], fg.paths).state)
  }

  /** One forwarding graph: appended to the service's list only when all
      of its paths loaded. */
  function GraphEntry(s: ServiceState, graphs: seq<FwGraph>, fg: FgDecl): Step<seq<FwGraph>> {
    var r := Run(PathStep(s), [], fg.paths);
    if !r.ok then Step(graphs, false, r.events)
    else Step(graphs + [LoadedGraph(s, fg)], true, r.events)
  }

  function GraphStep(s: ServiceState): (seq<FwGraph>, FgDecl) -> Step<seq<FwGraph>> {
    (graphs, fg) => GraphEntry(s, graphs, fg)
  }

  /** `load_forwarding_graphs` over the declared graphs, appending to the
      graphs loaded before. */
  function LoadForwardingGraphs(s: ServiceState, graphs: seq<FwGraph>, fgs: seq<FgDecl>): Step<seq<FwGraph>> {
    Run(GraphStep(s), graphs, fgs)
  }

  /** The declared paths, each loaded on its own. */
  function LoadedPaths(s: ServiceState, fps: seq<FpDecl>): (r: seq<FwPath>)
    ensures |r| == |fps|
    ensures forall j | 0 <= j < |fps| :: r[j] == LoadedPath(s, fps[j])
    decreases |fps|
  {
    if |fps| == 0 then [] else LoadedPaths(s, fps[..|fps| - 1]) + [LoadedPath(s, fps[|fps| - 1])]
  }

  /** The declared graphs, each loaded on its own. */
  function LoadedGraphs(s: ServiceState, fgs: seq<FgDecl>): (r: seq<FwGraph>)
    ensures |r| == |fgs|
    ensures forall i | 0 <= i < |fgs| :: r[i] == LoadedGraph(s, fgs[i])
    decreases |fgs|
  {
    if |fgs| == 0 then [] else LoadedGraphs(s, fgs[..|fgs| - 1]) + [LoadedGraph(s, fgs[|fgs| - 1])]
  }

  /** Every reference of a path resolves. */
  predicate PathResolved(s: ServiceState, fp: FpDecl) {
    forall k | 0 <= k < |fp.cps| :: ServiceRefResolved(s, fp.cps[k].ref)
  }

  /** Every reference of every path of a graph resolves. */
  predicate GraphResolved(s: ServiceState, fg: FgDecl) {
    forall j | 0 <= j < |fg.paths| :: PathResolved(s, fg.paths[j])
  }

  /** Every reference of every path of every graph resolves. */
  predicate AllResolved(s: ServiceState, fgs: seq<FgDecl>) {
    forall i | 0 <= i < |fgs| :: GraphResolved(s, fgs[i])
  }

  lemma PathsResolvedLast(s: ServiceState, fps: seq<FpDecl>)
    requires |fps| > 0
    ensures GraphResolved(s, FgDecl("", fps)) <==>
      GraphResolved(s, FgDecl("", fps[..|fps| - 1])) && PathResolved(s, fps[|fps| - 1])
  {
    assert forall j | 0 <= j < |fps| - 1 :: fps[..|fps| - 1][j] == fps[j];
  }

  lemma AllResolvedSnoc(s: ServiceState, pre: seq<FgDecl>, last: FgDecl)
    ensures AllResolved(s, pre + [last]) <==> AllResolved(s, pre) && GraphResolved(s, last)
  {
    assert forall i | 0 <= i < |pre| :: (pre + [last])[i] == pre[i];
    assert (pre + [last])[|pre|] == last;
  }

  /** A graph's paths all load exactly when all their references resolve. */
  lemma {:induction false} RunPathsOk(s: ServiceState, paths: seq<FwPath>, fps: seq<FpDecl>)
    ensures Run(PathStep(s), paths, fps).ok <==> GraphResolved(s, FgDecl("", fps))
    decreases |fps|
  {
    if |fps| > 0 {
      var pre := fps[..|fps| - 1];
      var last := fps[|fps| - 1];
      RunPathsOk(s, paths, pre);
      RunPathCpsOk(s, Empty(), last.cps);
      var p := Run(PathStep(s), paths, pre);
      assert Run(PathStep(s), paths, fps).ok == (p.ok && PathEntry(s, p.state, last).ok);
      assert PathEntry(s, p.state, last).ok == Run(FpCpStep(s), Empty(), last.cps).ok;
      PathsResolvedLast(s, fps);
    }
  }

  /** The paths loaded before stay in front; on success the declared paths
      follow, each loaded on its own. */
  lemma {:induction false} RunPathsShape(s: ServiceState, paths: seq<FwPath>, fps: seq<FpDecl>)
    ensures |paths| <= |Run(PathStep(s), paths, fps).state|
    ensures Run(PathStep(s), paths, fps).state[..|paths|] == paths
    ensures Run(PathStep(s), paths, fps).ok ==> Run(PathStep(s), paths, fps).state == paths + LoadedPaths(s, fps)
    decreases |fps|
  {
    if |fps| > 0 {
      var pre := fps[..|fps| - 1];
      RunPathsShape(s, paths, pre);
      var p := Run(PathStep(s), paths, pre);
      if p.ok {
        var x := LoadedPath(s, fps[|fps| - 1]);
        assert (p.state + [x])[..|paths|] == p.state[..|paths|];
      }
    }
  }

  /** Loading succeeds exactly when every referenced connection point
      resolves. */
  lemma {:induction false} LoadForwardingGraphsOk(s: ServiceState, graphs: seq<FwGraph>, fgs: seq<FgDecl>)
    ensures LoadForwardingGraphs(s, graphs, fgs).ok <==> AllResolved(s, fgs)
    decreases |fgs|
  {
    if |fgs| > 0 {
      var pre := fgs[..|fgs| - 1];
      var last := fgs[|fgs| - 1];
      LoadForwardingGraphsOk(s, graphs, pre);
      RunPathsOk(s, [], last.paths);
      assert GraphResolved(s, FgDecl("", last.paths)) == GraphResolved(s, last);
      assert fgs == pre + [last];
      AllResolvedSnoc(s, pre, last);
    }
  }

  /** The graphs loaded before stay in front; on success the declared
      graphs follow in order, each loaded on its own. */
  lemma {:induction false} LoadForwardingGraphsShape(s: ServiceState, graphs: seq<FwGraph>, fgs: seq<FgDecl>)
    ensures |graphs| <= |LoadForwardingGraphs(s, graphs, fgs).state|
    ensures LoadForwardingGraphs(s, graphs, fgs).state[..|graphs|] == graphs
    ensures LoadForwardingGraphs(s, graphs, fgs).ok ==>
      LoadForwardingGraphs(s, graphs, fgs).state == graphs + LoadedGraphs(s, fgs)
    decreases |fgs|
  {
    if |fgs| > 0 {
      var pre := fgs[..|fgs| - 1];
      LoadForwardingGraphsShape(s, graphs, pre);
      var p := LoadForwardingGraphs(s, graphs, pre);
      if p.ok {
        var x := LoadedGraph(s, fgs[|fgs| - 1]);
        assert (p.state + [x])[..|graphs|] == p.state[..|graphs|];
      }
    }
  }

  /** A failed load stopped at a graph `k` holding an unresolved
      reference; the graphs before it were all loaded and kept, and the
      partial graph `k` was dropped. */
  lemma LoadForwardingGraphsFailure(s: ServiceState, graphs: seq<FwGraph>, fgs: seq<FgDecl>) returns (k: nat)
    requires !LoadForwardingGraphs(s, graphs, fgs).ok
    ensures k < |fgs| && AllResolved(s, fgs[..k]) && !GraphResolved(s, fgs[k])
    ensures LoadForwardingGraphs(s, graphs, fgs).state == graphs + LoadedGraphs(s, fgs[..k])
  {
    k := RunFailure(GraphStep(s), graphs, fgs);
    LoadForwardingGraphsOk(s, graphs, fgs[..k]);
    LoadForwardingGraphsShape(s, graphs, fgs[..k]);
    RunPathsOk(s, [], fgs[k].paths);
    assert GraphResolved(s, FgDecl("", fgs[k].paths)) == GraphResolved(s, fgs[k]);
  }
}
