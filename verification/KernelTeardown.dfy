/** What `stop` does with each hook, one after the other. */
module KernelTeardown {
  import opened Common
  import opened Container
  import opened ModuleGraph
  import opened KernelShutdown

  /** The positions of the modules that have a hook. */
  ghost function HookedAt(g: Graph, refs: seq<Ref>): set<nat> {
    set i: nat | i < |refs| && refs[i] in g && g[refs[i]].onShutdown.Some?
  }

  ghost predicate TakenAt(refs: seq<Ref>, picks: seq<nat>, taken: seq<Ref>) {
    |taken| == |picks| && forall k :: 0 <= k < |picks| ==> picks[k] < |refs| && taken[k] == refs[picks[k]]
  }

  lemma {:induction false} HooksUpTo(g: Graph, refs: seq<Ref>, n: nat)
    requires n <= |refs|
    ensures TakenAt(refs, Picked(HookedAt(g, refs), n), WithShutdownHook(g, refs[..n]))
  {
    if n > 0 {
      HooksUpTo(g, refs, n - 1);
      assert refs[..n][..n - 1] == refs[..n - 1];
    }
  }

  /** The hooks to call are those of the modules that have one, in the order of the modules. */
  lemma HooksInOrder(g: Graph, refs: seq<Ref>)
    ensures TakenAt(refs, Picked(HookedAt(g, refs), |refs|), WithShutdownHook(g, refs))
  {
    HooksUpTo(g, refs, |refs|);
    assert refs[..|refs|] == refs;
  }

  // ------------------------------------------------------------------- one hook at a time

  /** The hook of `r`, given `was`, has left `now`. */
  ghost predicate Called(g: Graph, r: Ref, was: Container, now: Container, threw: bool, nullish: bool) {
    && r in g && g[r].onShutdown.Some?
    && g[r].onShutdown.value(was) == if threw then Raised(now, nullish) else Returned(now)
  }

  /** The hook called at `k` has thrown, and its error had a message. */
  ghost predicate Fails(g: Graph, reached: seq<Ref>, cs: seq<Container>, k: nat) {
    k < |reached| && k + 1 < |cs| && Called(g, reached[k], cs[k], cs[k + 1], true, false)
  }

  ghost function FailedAt(g: Graph, reached: seq<Ref>, cs: seq<Container>): set<nat> {
    set k: nat | k < |reached| && Fails(g, reached, cs, k)
  }

  /** Each hook is given what the one before has left. All return or fail with a message, save the last one of a
      `stop` that rejects. */
  ghost predicate CallsInTurn(g: Graph, container: Container, t: Teardown, cs: seq<Container>) {
    && |cs| == |t.reached| + 1 && cs[0] == container && cs[|t.reached|] == t.container
    && (t.rejected ==>
          && t.reached != []
          && Called(g, t.reached[|t.reached| - 1], cs[|t.reached| - 1], t.container, true, true))
    && forall k: nat :: k < |t.reached| && !(t.rejected && k == |t.reached| - 1) ==> Calm(g, t.reached, cs, k)
  }

  ghost predicate Calm(g: Graph, reached: seq<Ref>, cs: seq<Container>, k: nat) {
    && k < |reached| && k + 1 < |cs|
    && (Called(g, reached[k], cs[k], cs[k + 1], false, false) || Called(g, reached[k], cs[k], cs[k + 1], true, false))
  }

  /** Exactly the failures that have a message are logged, in order. */
  ghost predicate LogsInTurn(g: Graph, t: Teardown, cs: seq<Container>) {
    TakenAt(t.reached, Picked(FailedAt(g, t.reached, cs), |t.reached|), t.logged)
  }

  ghost predicate IsTeardown(g: Graph, container: Container, hooks: seq<Ref>, t: Teardown, cs: seq<Container>) {
    && t.reached <= hooks && (!t.rejected ==> t.reached == hooks)
    && CallsInTurn(g, container, t, cs) && LogsInTurn(g, t, cs)
  }

  lemma {:induction false} PicksAgree(a: set<nat>, b: set<nat>, n: nat)
    requires forall k: nat :: k < n ==> (k in a <==> k in b)
    ensures Picked(a, n) == Picked(b, n)
  {
    if n > 0 {
      PicksAgree(a, b, n - 1);
    }
  }

  lemma FailuresKept(g: Graph, reached: seq<Ref>, cs: seq<Container>, r: Ref, now: Container)
    requires |cs| == |reached| + 1
    ensures Picked(FailedAt(g, reached + [r], cs + [now]), |reached|) == Picked(FailedAt(g, reached, cs), |reached|)
  {
    forall k: nat | k < |reached|
      ensures k in FailedAt(g, reached + [r], cs + [now]) <==> k in FailedAt(g, reached, cs)
    {
    }
    PicksAgree(FailedAt(g, reached + [r], cs + [now]), FailedAt(g, reached, cs), |reached|);
  }

  lemma LogsOneMore(g: Graph, t: Teardown, cs: seq<Container>, r: Ref)
    requires |cs| == |t.reached| + 1 && cs[|t.reached|] == t.container && LogsInTurn(g, t, cs)
    requires r in g && g[r].onShutdown.Some?
    ensures var next := CallHook(t, r, g[r].onShutdown.value); LogsInTurn(g, next, cs + [next.container])
  {
    var next := CallHook(t, r, g[r].onShutdown.value);
    FailuresKept(g, t.reached, cs, r, next.container);
    var n := |t.reached|;
    assert n in FailedAt(g, next.reached, cs + [next.container]) <==> |next.logged| == |t.logged| + 1;
  }

  lemma CallsOneMoreInTurn(g: Graph, container: Container, t: Teardown, cs: seq<Container>, r: Ref)
    requires CallsInTurn(g, container, t, cs) && !t.rejected && r in g && g[r].onShutdown.Some?
    ensures var next := CallHook(t, r, g[r].onShutdown.value);
            CallsInTurn(g, container, next, cs + [next.container])
  {
    var next := CallHook(t, r, g[r].onShutdown.value);
    forall k: nat | k < |next.reached| && !(next.rejected && k == |next.reached| - 1)
      ensures Calm(g, next.reached, cs + [next.container], k)
    {
      assert k < |t.reached| ==> Calm(g, t.reached, cs, k);
    }
  }

  lemma {:induction false} HooksInTurn(g: Graph, container: Container, hooks: seq<Ref>) returns (cs: seq<Container>)
    requires AllHooked(g, hooks)
    ensures IsTeardown(g, container, hooks, TornDown(g, container, hooks), cs)
  {
    if hooks == [] {
      cs := [container];
    } else {
      var before, r := hooks[..|hooks| - 1], hooks[|hooks| - 1];
      cs := HooksInTurn(g, container, before);
      var t := TornDown(g, container, before);
      if !t.rejected {
        LogsOneMore(g, t, cs, r);
        CallsOneMoreInTurn(g, container, t, cs, r);
        assert before + [r] == hooks;
        cs := cs + [TornDown(g, container, hooks).container];
      }
    }
  }

  /** `stop` on these modules: the hooks in order, each on the container that the one before has left. */
  lemma StopCallsInTurn(g: Graph, container: Container, refs: seq<Ref>) returns (cs: seq<Container>)
    ensures IsTeardown(g, container, WithShutdownHook(g, refs), TornDown(g, container, refs), cs)
  {
    ListedAreHooked(g, refs);
    OnlyHooksMatter(g, container, refs);
    cs := HooksInTurn(g, container, WithShutdownHook(g, refs));
  }
}
