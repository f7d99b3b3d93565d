/**
 * The shape every loader of the core shares: walk the entries of a section
 * in order, apply one step per entry, and stop at the first entry the step
 * rejects, keeping whatever the earlier steps stored.  `Run` is that loop as
 * a function; loaders are specified by it and the lemmas below say what the
 * loop promises.
 */
module Folds {
  import opened Events

  /** The outcome of one step: the new state, whether the step succeeded
      (the source's `True` versus `None`), and the events it raised. */
  datatype Step<S> = Step(state: S, ok: bool, events: seq<Event>)

  /** Apply `f` to the entries of `xs` in order, stopping at the first
      rejection. */
  function Run<S, T>(f: (S, T) -> Step<S>, s: S, xs: seq<T>): Step<S>
    decreases |xs|
  {
    if |xs| == 0 then Step(s, true, [])
    else
      var p := Run(f, s, xs[..|xs| - 1]);
      if !p.ok then p
      else
        var q := f(p.state, xs[|xs| - 1]);
        Step(q.state, q.ok, p.events + q.events)
  }

  /** One more entry after a successful prefix. */
  lemma RunSnoc<S, T>(f: (S, T) -> Step<S>, s: S, xs: seq<T>, i: nat)
    requires i < |xs| && Run(f, s, xs[..i]).ok
    ensures Run(f, s, xs[..i + 1]) ==
      var q := f(Run(f, s, xs[..i]).state, xs[i]);
      Step(q.state, q.ok, Run(f, s, xs[..i]).events + q.events)
  {
    assert xs[..i + 1][..i] == xs[..i];
  }

  /** Once a prefix has failed, the later entries are never looked at. */
  lemma {:induction false} RunStops<S, T>(f: (S, T) -> Step<S>, s: S, xs: seq<T>, k: nat)
    requires k <= |xs| && !Run(f, s, xs[..k]).ok
    ensures Run(f, s, xs) == Run(f, s, xs[..k])
    decreases |xs| - k
  {
    if k < |xs| {
      var n := |xs|;
      assert xs[..n - 1][..k] == xs[..k];
      RunStops(f, s, xs[..n - 1], k);
    } else {
      assert xs[..k] == xs;
    }
  }

  /** A run succeeds exactly when every entry is accepted in the state the
      entries before it left behind. */
  lemma {:induction false} RunOk<S, T>(f: (S, T) -> Step<S>, s: S, xs: seq<T>)
    ensures Run(f, s, xs).ok <==>
      forall k | 0 <= k < |xs| :: Run(f, s, xs[..k]).ok && f(Run(f, s, xs[..k]).state, xs[k]).ok
    decreases |xs|
  {
    if |xs| > 0 {
      var n := |xs|;
      var pre := xs[..n - 1];
      RunOk(f, s, pre);
      forall k | 0 <= k < n - 1 ensures pre[..k] == xs[..k] && pre[k] == xs[k] { }
      assert xs[..n - 1] == pre;
    }
  }

  /** A failed run stopped at some entry `k`: the entries before it were all
      accepted, entry `k` was rejected, and the state is what the rejecting
      step left. */
  lemma {:induction false} RunFailure<S, T>(f: (S, T) -> Step<S>, s: S, xs: seq<T>)
    returns (k: nat)
    requires !Run(f, s, xs).ok
    ensures k < |xs| && Run(f, s, xs[..k]).ok
    ensures !f(Run(f, s, xs[..k]).state, xs[k]).ok
    ensures Run(f, s, xs).state == f(Run(f, s, xs[..k]).state, xs[k]).state
    ensures Run(f, s, xs).events ==
      Run(f, s, xs[..k]).events + f(Run(f, s, xs[..k]).state, xs[k]).events
    decreases |xs|
  {
    var n := |xs|;
    var pre := xs[..n - 1];
    if !Run(f, s, pre).ok {
      k := RunFailure(f, s, pre);
      assert pre[..k] == xs[..k] && pre[k] == xs[k];
    } else {
      k := n - 1;
      assert xs[..k] == pre;
    }
  }

  /** An invariant every step preserves holds after the run. */
  lemma {:induction false} RunPreserves<S(!new), T>(f: (S, T) -> Step<S>, inv: S -> bool, s: S, xs: seq<T>)
    requires inv(s)
    requires forall t, x | inv(t) :: inv(f(t, x).state)
    ensures inv(Run(f, s, xs).state)
    decreases |xs|
  {
    if |xs| > 0 {
      RunPreserves(f, inv, s, xs[..|xs| - 1]);
    }
  }

  /** A step that runs `v` on each entry and collects the states it leaves;
      a rejection is followed by the event `e`. */
  function Collect<T, U>(v: T -> Step<U>, e: Event): (seq<U>, T) -> Step<seq<U>> {
    (acc: seq<U>, x: T) =>
      Step(acc + [v(x).state], v(x).ok, if v(x).ok then v(x).events else v(x).events + [e])
  }

  /** One more entry after a collecting run. */
  lemma CollectSnoc<T, U>(v: T -> Step<U>, e: Event, xs: seq<T>)
    requires |xs| > 0
    ensures var p := Run(Collect(v, e), [], xs[..|xs| - 1]);
      var x := xs[|xs| - 1];
      Run(Collect(v, e), [], xs) ==
        if !p.ok then p
        else Step(p.state + [v(x).state], v(x).ok, p.events + if v(x).ok then v(x).events else v(x).events + [e])
  {
  }

  /** A collecting run holds the states of the entries it reached, in
      order, all of them when it passes. */
  lemma {:induction false} CollectStates<T, U>(v: T -> Step<U>, e: Event, xs: seq<T>)
    ensures var r := Run(Collect(v, e), [], xs);
      |r.state| <= |xs| &&
      (forall k | 0 <= k < |r.state| :: r.state[k] == v(xs[k]).state) &&
      (r.ok ==> |r.state| == |xs|)
    decreases |xs|
  {
    if |xs| > 0 {
      var pre := xs[..|xs| - 1];
      CollectStates(v, e, pre);
      CollectSnoc(v, e, xs);
      assert forall k | 0 <= k < |pre| :: pre[k] == xs[k];
    }
  }

  /** A collecting run passes exactly when `v` accepts every entry. */
  lemma {:induction false} CollectOk<T, U>(v: T -> Step<U>, e: Event, xs: seq<T>)
    ensures Run(Collect(v, e), [], xs).ok <==> forall k | 0 <= k < |xs| :: v(xs[k]).ok
    decreases |xs|
  {
    if |xs| > 0 {
      var pre := xs[..|xs| - 1];
      CollectOk(v, e, pre);
      CollectSnoc(v, e, xs);
      assert forall k | 0 <= k < |pre| :: pre[k] == xs[k];
    }
  }

  /** A failed collecting run stopped at the entry it reached last, which
      `v` rejected, and its last event is `e`. */
  lemma {:induction false} CollectFails<T, U>(v: T -> Step<U>, e: Event, xs: seq<T>)
    ensures var r := Run(Collect(v, e), [], xs);
      !r.ok ==> 0 < |r.state| <= |xs| && !v(xs[|r.state| - 1]).ok && |r.events| > 0 && r.events[|r.events| - 1] == e
    decreases |xs|
  {
    if |xs| > 0 {
      var pre := xs[..|xs| - 1];
      CollectFails(v, e, pre);
      CollectStates(v, e, pre);
      CollectSnoc(v, e, xs);
      var p := Run(Collect(v, e), [], pre);
      if !p.ok {
        assert xs[|p.state| - 1] == pre[|p.state| - 1];
      }
    }
  }

  /** A collecting run holds the states of the entries it reached, in order;
      it passes exactly when `v` accepts every entry, and otherwise stops at
      the first rejected entry, with `e` as its last event. */
  lemma CollectSpec<T, U>(v: T -> Step<U>, e: Event, xs: seq<T>)
    ensures var r := Run(Collect(v, e), [], xs);
      |r.state| <= |xs| &&
      (forall k | 0 <= k < |r.state| :: r.state[k] == v(xs[k]).state) &&
      (r.ok <==> forall k | 0 <= k < |xs| :: v(xs[k]).ok) &&
      (r.ok ==> |r.state| == |xs|) &&
      (!r.ok ==> 0 < |r.state| && !v(xs[|r.state| - 1]).ok && |r.events| > 0 && r.events[|r.events| - 1] == e)
  {
    CollectStates(v, e, xs);
    CollectOk(v, e, xs);
    CollectFails(v, e, xs);
  }

  /** Events logged in two goes read as the run's events after the earlier ones. */
  lemma AppendAssoc(a: seq<Event>, b: seq<Event>, c: seq<Event>)
    ensures a + (b + c) == (a + b) + c
  {
  }
}
