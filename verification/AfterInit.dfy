/** `afterInitModule`: it recurses into every import before it looks at what is done. */
module AfterInit {
  import opened Common
  import opened ModuleGraph
  import opened ModuleOrder
  import opened ModuleCycles
  import opened KernelPlan

  /** The run from a module with at most `n` nested calls; None when it is not over by then. */
  ghost function AfterWithin(app: App, s: KernelState, r: Ref, n: nat): Option<Ran>
    requires Closed(app.graph) && r in app.graph
    decreases n, 0
  {
    if n == 0 then None
    else
      match AfterAllWithin(app, s, app.graph[r].imports, n - 1)
      case None => None
      case Some(below) =>
        if below.threw || app.graph[r].keyname in Keynames(app.graph, below.state.afterInstantiated) then Some(below)
        else Some(Run(app, below.state, AfterInitActions(r, app.graph[r].afterInit)))
  }

  ghost function AfterAllWithin(app: App, s: KernelState, rs: seq<Ref>, n: nat): Option<Ran>
    requires Closed(app.graph) && forall m :: m in rs ==> m in app.graph
    decreases n, 1 + |rs|
  {
    if rs == [] then Some(Ran(s, false))
    else
      match AfterWithin(app, s, rs[0], n)
      case None => None
      case Some(first) => if first.threw then Some(first) else AfterAllWithin(app, first.state, rs[1..], n)
  }

  ghost predicate Returns(ran: Option<Ran>) {
    ran.Some? && !ran.value.threw
  }

  // ------------------------------------------------------------------- when it is over

  lemma {:induction false} OverWhenRecursionEnds(app: App, s: KernelState, r: Ref, n: nat)
    requires Closed(app.graph) && r in app.graph && RecursionEndsWithin(app.graph, r, n)
    ensures AfterWithin(app, s, r, n).Some?
    decreases n, 0
  {
    AllOverWhenRecursionEnds(app, s, app.graph[r].imports, n - 1);
  }

  lemma {:induction false} AllOverWhenRecursionEnds(app: App, s: KernelState, rs: seq<Ref>, n: nat)
    requires Closed(app.graph) && forall m :: m in rs ==> m in app.graph && RecursionEndsWithin(app.graph, m, n)
    ensures AfterAllWithin(app, s, rs, n).Some?
    decreases n, 1 + |rs|
  {
    if rs != [] {
      OverWhenRecursionEnds(app, s, rs[0], n);
      var first := AfterWithin(app, s, rs[0], n).value;
      if !first.threw {
        AllOverWhenRecursionEnds(app, first.state, rs[1..], n);
      }
    }
  }

  lemma {:induction false} ReturnsWithinRecursion(app: App, s: KernelState, r: Ref, n: nat)
    requires Closed(app.graph) && r in app.graph && Returns(AfterWithin(app, s, r, n))
    ensures RecursionEndsWithin(app.graph, r, n)
    decreases n, 0
  {
    AllReturnWithinRecursion(app, s, app.graph[r].imports, n - 1);
  }

  lemma {:induction false} AllReturnWithinRecursion(app: App, s: KernelState, rs: seq<Ref>, n: nat)
    requires Closed(app.graph) && forall m :: m in rs ==> m in app.graph
    requires Returns(AfterAllWithin(app, s, rs, n))
    ensures forall m :: m in rs ==> RecursionEndsWithin(app.graph, m, n)
    decreases n, 1 + |rs|
  {
    if rs != [] {
      ReturnsWithinRecursion(app, s, rs[0], n);
      AllReturnWithinRecursion(app, AfterWithin(app, s, rs[0], n).value.state, rs[1..], n);
    }
  }

  /** From a module that reaches no import cycle the run is over in every state; from one that does, it is over
      only if a hook throws. */
  lemma OverUnlessCyclic(app: App, s: KernelState, r: Ref)
    requires Closed(app.graph) && r in app.graph
    ensures AcyclicFrom(app.graph, r) ==> exists n: nat :: AfterWithin(app, s, r, n).Some?
    ensures (exists n: nat :: Returns(AfterWithin(app, s, r, n))) ==> AcyclicFrom(app.graph, r)
  {
    RecursionEndsIffAcyclic(app.graph, r);
    if AcyclicFrom(app.graph, r) {
      var n: nat :| RecursionEndsWithin(app.graph, r, n);
      OverWhenRecursionEnds(app, s, r, n);
    }
    if n: nat :| Returns(AfterWithin(app, s, r, n)) {
      ReturnsWithinRecursion(app, s, r, n);
    }
  }

  // ------------------------------------------------------------------- what it does

  /** What a run that follows `order` looks like, from a state in which those in `afterInstantiated` are done. */
  ghost predicate Follows(app: App, s: KernelState, order: seq<Ref>, ran: Option<Ran>) {
    && ran == Some(Run(app, s, AfterPlan(app, order)))
    && (Returns(ran) ==> ran.value.state.afterInstantiated == s.afterInstantiated + order)
  }

  lemma FollowsConcat(app: App, s: KernelState, a: seq<Ref>, first: Ran, b: seq<Ref>, ran: Option<Ran>)
    requires Follows(app, s, a, Some(first))
    requires if first.threw then ran == Some(first) else Follows(app, first.state, b, ran)
    ensures Follows(app, s, a + b, ran)
  {
    AfterPlanConcat(app, a, b);
    RunConcat(app, s, AfterPlan(app, a), AfterPlan(app, b));
    assert s.afterInstantiated + a + b == s.afterInstantiated + (a + b);
  }

  lemma FollowsItself(app: App, s: KernelState, r: Ref)
    requires r in app.graph
    ensures Follows(app, s, [r], Some(Run(app, s, AfterInitActions(r, app.graph[r].afterInit))))
  {
    var actions := AfterInitActions(r, app.graph[r].afterInit);
    var k := RunTraces(app, s, actions);
    CompletesItself(r, app.graph[r].afterInit);
    assert actions[..|actions|] == actions;
  }

  /** Where the recursion ends, a run completes the modules of `AfterOrder`, in that order, up to the hook that
      throws. */
  lemma {:induction false} AfterFollowsOrder(app: App, rank: map<Ref, nat>, s: KernelState, r: Ref, n: nat)
    requires Closed(app.graph) && Ranked(app.graph, rank) && r in rank && n > rank[r]
    ensures Follows(app, s, AfterOrder(app.graph, rank, Keynames(app.graph, s.afterInstantiated), r),
                    AfterWithin(app, s, r, n))
    decreases n, 0
  {
    var g, done := app.graph, Keynames(app.graph, s.afterInstantiated);
    var below := AfterOrderAll(g, rank, done, g[r].imports, rank[r]);
    AllAfterFollowsOrder(app, rank, s, g[r].imports, rank[r], n - 1);
    var ran := AfterAllWithin(app, s, g[r].imports, n - 1).value;
    KeynamesConcat(g, s.afterInstantiated, below);
    if g[r].keyname !in done + Keynames(g, below) {
      if !ran.threw {
        FollowsItself(app, ran.state, r);
      }
      FollowsConcat(app, s, below, ran, [r], AfterWithin(app, s, r, n));
    }
  }

  lemma {:induction false} AllAfterFollowsOrder(
      app: App, rank: map<Ref, nat>, s: KernelState, rs: seq<Ref>, bound: nat, n: nat)
    requires Closed(app.graph) && Ranked(app.graph, rank) && n >= bound
    requires forall m :: m in rs ==> m in rank && rank[m] < bound
    ensures Follows(app, s, AfterOrderAll(app.graph, rank, Keynames(app.graph, s.afterInstantiated), rs, bound),
                    AfterAllWithin(app, s, rs, n))
    decreases n, 1 + |rs|
  {
    var g, done := app.graph, Keynames(app.graph, s.afterInstantiated);
    if rs == [] {
      assert s.afterInstantiated + [] == s.afterInstantiated;
    } else {
      var order := AfterOrder(g, rank, done, rs[0]);
      AfterFollowsOrder(app, rank, s, rs[0], n);
      var first := AfterWithin(app, s, rs[0], n).value;
      var rest := AfterOrderAll(g, rank, done + Keynames(g, order), rs[1..], bound);
      if !first.threw {
        KeynamesConcat(g, s.afterInstantiated, order);
        AllAfterFollowsOrder(app, rank, first.state, rs[1..], bound, n);
      }
      FollowsConcat(app, s, order, first, rest, AfterAllWithin(app, s, rs, n));
    }
  }

  /** A run that returns, from a kernel that has completed nothing, has completed the modules in the order in
      which `onInit` completes them. */
  lemma ReturnsInInitOrder(app: App, s: KernelState, root: Ref, n: nat)
    requires Closed(app.graph) && Unique(app.graph) && root in app.graph && s.afterInstantiated == []
    requires Returns(AfterWithin(app, s, root, n))
    ensures Follows(app, s, Left(Walk(app.graph, {}, root)), AfterWithin(app, s, root, n))
  {
    ReturnsWithinRecursion(app, s, root, n);
    var rank := EndsIsRanked(app.graph, root, n);
    AfterInitOrderEqualsOnInitOrder(app.graph, rank, root);
    assert Keynames(app.graph, s.afterInstantiated) == {};
    MoreIsSame(app, s, root, n, n + rank[root] + 1);
    AfterFollowsOrder(app, rank, s, root, n + rank[root] + 1);
  }

  lemma {:induction false} MoreIsSame(app: App, s: KernelState, r: Ref, n: nat, n': nat)
    requires Closed(app.graph) && r in app.graph && n <= n' && AfterWithin(app, s, r, n).Some?
    ensures AfterWithin(app, s, r, n') == AfterWithin(app, s, r, n)
    decreases n, 0
  {
    AllMoreIsSame(app, s, app.graph[r].imports, n - 1, n' - 1);
  }

  lemma {:induction false} AllMoreIsSame(app: App, s: KernelState, rs: seq<Ref>, n: nat, n': nat)
    requires Closed(app.graph) && (forall m :: m in rs ==> m in app.graph) && n <= n'
    requires AfterAllWithin(app, s, rs, n).Some?
    ensures AfterAllWithin(app, s, rs, n') == AfterAllWithin(app, s, rs, n)
    decreases n, 1 + |rs|
  {
    if rs != [] {
      MoreIsSame(app, s, rs[0], n, n');
      var first := AfterWithin(app, s, rs[0], n).value;
      if !first.threw {
        AllMoreIsSame(app, first.state, rs[1..], n, n');
      }
    }
  }
}
