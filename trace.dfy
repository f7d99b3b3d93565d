/**
 * Tracing a forwarding path along the service topology graph
 * (storage.py `Service.trace_path` and `Service.trace_path_pairs`).
 * `trace_path` copies the path and inserts the marker "BREAK" after every
 * interface that has no link to the next one; `trace_path_pairs` cuts the
 * path into (from, to) pairs and flags each pair whose hop is impossible.
 */
module Traces {
  import opened Wrappers
  import opened Graphs

  const BreakMark := "BREAK"

  // ------------------------------------------------------------ trace_path

  /** The hop from `path[x]` to `path[x + 1]` is impossible: the first is
      not in the graph, or the two are not adjacent. */
  predicate Broken(g: Graph, path: seq<string>, x: nat)
    requires x + 1 < |path|
  {
    !g.HasNode(path[x]) || path[x + 1] !in g.Neighbors(path[x])
  }

  /** How many of the hops before `path[k]` are impossible. */
  function BreaksBefore(g: Graph, path: seq<string>, k: nat): nat
    requires k < |path|
  {
    if k == 0 then 0 else BreaksBefore(g, path, k - 1) + (if Broken(g, path, k - 1) then 1 else 0)
  }

  /** Where `path[x]` sits in the trace. */
  function TracePos(g: Graph, path: seq<string>, x: nat): nat
    requires x < |path|
  {
    x + BreaksBefore(g, path, x)
  }

  /** The trace after the loop has handled `path[..k]`: one interface and
      at most one marker per hop. */
  function TraceUpTo(g: Graph, path: seq<string>, k: nat): (t: seq<string>)
    requires k < |path|
    ensures |t| == TracePos(g, path, k)
  {
    if k == 0 then []
    else TraceUpTo(g, path, k - 1) + [path[k - 1]] + (if Broken(g, path, k - 1) then [BreakMark] else [])
  }

  /** `trace_path(path)`; the final `path[-1]` raises on an empty path. */
  function TracePath(g: Graph, path: seq<string>): Outcome<seq<string>> {
    if |path| == 0 then Raised("IndexError")
    else Returned(TraceUpTo(g, path, |path| - 1) + [path[|path| - 1]])
  }

  /** Within the partial trace, `path[x]` is at its position, followed by
      the marker when its hop is impossible, and otherwise by `path[x + 1]`
      once that has been handled. */
  lemma {:induction false} TraceUpToAt(g: Graph, path: seq<string>, k: nat, x: nat)
    requires x < k < |path|
    ensures TracePos(g, path, x) < |TraceUpTo(g, path, k)|
    ensures TraceUpTo(g, path, k)[TracePos(g, path, x)] == path[x]
    ensures Broken(g, path, x) ==>
      TracePos(g, path, x) + 1 < |TraceUpTo(g, path, k)| &&
      TraceUpTo(g, path, k)[TracePos(g, path, x) + 1] == BreakMark
    ensures !Broken(g, path, x) && x + 1 < k ==>
      TracePos(g, path, x) + 1 < |TraceUpTo(g, path, k)| &&
      TraceUpTo(g, path, k)[TracePos(g, path, x) + 1] == path[x + 1]
    decreases k
  {
    var t := TraceUpTo(g, path, k - 1);
    assert forall i | 0 <= i < |t| :: TraceUpTo(g, path, k)[i] == t[i];
    if x < k - 1 {
      TraceUpToAt(g, path, k - 1, x);
      assert TracePos(g, path, x + 1) == TracePos(g, path, x) + 1 + (if Broken(g, path, x) then 1 else 0);
      assert TracePos(g, path, k - 1) == |t|;
      assert TraceUpTo(g, path, k)[|t|] == path[k - 1];
    }
  }

  /** In the trace of a non-empty path, `path[x]` is at `TracePos(x)` and is
      followed by "BREAK" exactly when its hop is impossible, and otherwise
      by `path[x + 1]`, which sits at the next position. */
  lemma TracePathAt(g: Graph, path: seq<string>, x: nat)
    requires x < |path|
    ensures TracePath(g, path).Returned?
    ensures TracePos(g, path, x) < |TracePath(g, path).value|
    ensures TracePath(g, path).value[TracePos(g, path, x)] == path[x]
    ensures x + 1 < |path| ==>
      TracePos(g, path, x) + 1 < |TracePath(g, path).value| &&
      TracePath(g, path).value[TracePos(g, path, x) + 1] == (if Broken(g, path, x) then BreakMark else path[x + 1])
    ensures x + 1 < |path| ==>
      TracePos(g, path, x + 1) == TracePos(g, path, x) + 1 + (if Broken(g, path, x) then 1 else 0)
  {
    var n := |path|;
    var u := TraceUpTo(g, path, n - 1);
    var t := TracePath(g, path).value;
    assert forall i | 0 <= i < |u| :: t[i] == u[i];
    assert t[|u|] == path[n - 1];
    if x + 1 < n {
      TraceUpToAt(g, path, n - 1, x);
      assert TracePos(g, path, x + 1) == TracePos(g, path, x) + 1 + (if Broken(g, path, x) then 1 else 0);
    }
  }

  /** Every element of `s` except the markers, in order. */
  function WithoutBreaks(s: seq<string>): (r: seq<string>)
    ensures BreakMark !in r
    decreases |s|
  {
    if |s| == 0 then []
    else WithoutBreaks(s[..|s| - 1]) + (if s[|s| - 1] == BreakMark then [] else [s[|s| - 1]])
  }

  lemma WithoutBreaksSnoc(s: seq<string>, e: string)
    ensures WithoutBreaks(s + [e]) == WithoutBreaks(s) + (if e == BreakMark then [] else [e])
  {
    assert (s + [e])[..|s|] == s;
  }

  /** One loop iteration adds one interface and possibly a marker. */
  lemma WithoutBreaksStep(t: seq<string>, p: string, marks: seq<string>)
    requires p != BreakMark && (marks == [] || marks == [BreakMark])
    ensures WithoutBreaks(t + [p] + marks) == WithoutBreaks(t) + [p]
  {
    WithoutBreaksSnoc(t, p);
    if marks == [] {
      assert t + [p] + marks == t + [p];
    } else {
      WithoutBreaksSnoc(t + [p], BreakMark);
    }
  }

  lemma {:induction false} TraceUpToWithoutBreaks(g: Graph, path: seq<string>, k: nat)
    requires k < |path| && BreakMark !in path
    ensures WithoutBreaks(TraceUpTo(g, path, k)) == path[..k]
    decreases k
  {
    if k > 0 {
      TraceUpToWithoutBreaks(g, path, k - 1);
      var marks := if Broken(g, path, k - 1) then [BreakMark] else [];
      var t := TraceUpTo(g, path, k - 1);
      var u := TraceUpTo(g, path, k);
      assert u == t + [path[k - 1]] + marks;
      assert path[k - 1] in path;
      WithoutBreaksStep(t, path[k - 1], marks);
      assert WithoutBreaks(u) == WithoutBreaks(t) + [path[k - 1]];
      PrefixSnoc(path, k);
    }
  }

  /** A prefix is the shorter prefix and one more element. */
  lemma PrefixSnoc(path: seq<string>, k: nat)
    requires 0 < k <= |path|
    ensures path[..k] == path[..k - 1] + [path[k - 1]]
  {
  }

  /** Deleting the markers from the trace of a non-empty path gives the
      path back (when the path does not itself contain the marker). */
  lemma TracePathWithoutBreaks(g: Graph, path: seq<string>)
    requires |path| > 0 && BreakMark !in path
    ensures TracePath(g, path).Returned?
    ensures WithoutBreaks(TracePath(g, path).value) == path
  {
    var n := |path|;
    TraceUpToWithoutBreaks(g, path, n - 1);
    WithoutBreaksSnoc(TraceUpTo(g, path, n - 1), path[n - 1]);
    PrefixSnoc(path, n);
    assert path[..n] == path;
  }

  // ------------------------------------------------------- trace_path_pairs

  /** One entry of `trace_path_pairs`: `to` is None for the last interface
      of an odd-length path. */
  datatype PathPair = PathPair(brk: bool, from: string, to: Option<string>)

  /** A bridge hub node, named "br-" followed by the bridge id. */
  predicate IsHub(n: string) {
    |n| >= 2 && n[..2] == "br"
  }

  /** `u` reaches `v` through a neighbouring bridge hub. */
  predicate BridgeHop(g: Graph, u: string, v: string) {
    exists h | h in g.Neighbors(u) :: IsHub(h) && v in g.Neighbors(h)
  }

  /** The pair starting at `path[2 * i]`, with the break rule the code
      evidently intends: the first interface is missing from the graph, or
      the second is neither adjacent to it nor reachable through one
      bridge hub. */
  function PairAt(g: Graph, path: seq<string>, i: nat): (p: PathPair)
    requires 2 * i < |path|
    ensures p.from == path[2 * i]
    ensures p.to.Some? <==> 2 * i + 1 < |path|
    ensures p.to.Some? ==> p.to.value == path[2 * i + 1]
  {
    var x := 2 * i;
    if x + 1 >= |path| then PathPair(false, path[x], None)
    else
      PathPair(!g.HasNode(path[x]) ||
               (path[x + 1] !in g.Neighbors(path[x]) && !BridgeHop(g, path[x], path[x + 1])),
               path[x], Some(path[x + 1]))
  }

  /** `trace_path_pairs` with the evidently intended break rule. */
  function TracePairs(g: Graph, path: seq<string>): (ps: seq<PathPair>)
    ensures |ps| == (|path| + 1) / 2
    ensures forall i | 0 <= i < |ps| :: ps[i] == PairAt(g, path, i)
  {
    seq((|path| + 1) / 2, i requires 0 <= i < (|path| + 1) / 2 => PairAt(g, path, i))
  }

  /** `trace_path_pairs` as written: `neighbors(path[x])` is asked before
      `path[x]` is known to be a node, which raises for a missing node, and
      every branch leaves `break` False (the hub test compares a one-letter
      slice with "br"). */
  function TracePairsAsWritten(g: Graph, path: seq<string>): Outcome<seq<PathPair>> {
    if exists i | 0 <= i < |path| / 2 :: !g.HasNode(path[2 * i]) then Raised("NetworkXError")
    else Returned(seq((|path| + 1) / 2, i requires 0 <= i < (|path| + 1) / 2 => PathPair(false, path[2 * i], PairAt(g, path, i).to)))
  }

  /** As written, pairs either raise or never report a break, so a
      forwarding path is never found invalid. */
  lemma TracePairsAsWrittenNeverBreaks(g: Graph, path: seq<string>)
    ensures TracePairsAsWritten(g, path).Returned? ==>
      |TracePairsAsWritten(g, path).value| == (|path| + 1) / 2 &&
      forall i | 0 <= i < (|path| + 1) / 2 :: !TracePairsAsWritten(g, path).value[i].brk
    ensures TracePairsAsWritten(g, path).Raised? <==>
      exists x | 0 <= x < |path| - 1 :: x % 2 == 0 && !g.HasNode(path[x])
  {
    if exists x | 0 <= x < |path| - 1 :: x % 2 == 0 && !g.HasNode(path[x]) {
      var x :| 0 <= x < |path| - 1 && x % 2 == 0 && !g.HasNode(path[x]);
      var i := x / 2;
      assert 2 * i == x && i < |path| / 2;
    }
    if exists i | 0 <= i < |path| / 2 :: !g.HasNode(path[2 * i]) {
      var i :| 0 <= i < |path| / 2 && !g.HasNode(path[2 * i]);
      assert (2 * i) % 2 == 0 && 2 * i < |path| - 1;
    }
  }

  /** A pair broken under the intended rule is a hop `trace_path` marks too. */
  lemma PairBreakIsTraceBreak(g: Graph, path: seq<string>, i: nat)
    requires 2 * i + 1 < |path| && TracePairs(g, path)[i].brk
    ensures Broken(g, path, 2 * i)
  {
  }

  /** Two nodes with no edge between them: the intended rule reports the
      pair broken, the code as written does not; a path starting at a
      missing node makes the code raise. */
  lemma TracePairsAsWrittenMissesBreak()
    ensures TracePairs(Graph({"a", "b"}, {}), ["a", "b"])[0].brk
    ensures TracePairsAsWritten(Graph({"a", "b"}, {}), ["a", "b"]) ==
      Returned([PathPair(false, "a", Some("b"))])
    ensures TracePairsAsWritten(Graph({"a", "b"}, {}), ["c", "a"]).Raised?
  {
    var g := Graph({"a", "b"}, {});
    assert g.Neighbors("a") == {};
    assert g.HasNode(["a", "b"][2 * 0]);
    var r := TracePairsAsWritten(g, ["a", "b"]).value;
    assert |r| == 1 && r[0] == PathPair(false, "a", Some("b"));
    assert r == [PathPair(false, "a", Some("b"))];
    assert !g.HasNode("c") && 2 * 0 == 0;
    assert ["c", "a"][2 * 0] == "c";
  }
}
