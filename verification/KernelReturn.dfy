/** When `start` returns. */
module KernelReturn {
  import opened Common
  import opened Container
  import opened ModuleGraph
  import opened ModuleOrder
  import opened ModuleCycles
  import opened KernelPlan
  import opened AfterInit
  import opened KernelPhases
  import opened KernelConfiguration
  import opened KernelBoot
  import opened KernelLoad

  /** No action of the plan throws at its turn: each registration is accepted and each hook returns. */
  ghost predicate Smooth(app: App, s: KernelState, plan: seq<Action>) {
    forall k :: 0 <= k < |plan| ==> !Perform(app, Run(app, s, plan[..k]).state, plan[k]).threw
  }

  lemma {:induction false} ThrowsUnlessSmooth(app: App, s: KernelState, plan: seq<Action>)
    ensures Run(app, s, plan).threw <==> !Smooth(app, s, plan)
  {
    if plan != [] {
      var before, last := plan[..|plan| - 1], |plan| - 1;
      ThrowsUnlessSmooth(app, s, before);
      forall k | 0 <= k < last ensures plan[..k] == before[..k] {}
      if Smooth(app, s, before) && !Perform(app, Run(app, s, before).state, plan[last]).threw {
        forall k | 0 <= k < |plan| ensures !Perform(app, Run(app, s, plan[..k]).state, plan[k]).threw {
          assert k < last ==> !Perform(app, Run(app, s, before[..k]).state, before[k]).threw;
        }
      }
      if Smooth(app, s, plan) {
        forall k | 0 <= k < last ensures !Perform(app, Run(app, s, before[..k]).state, before[k]).threw {
          assert !Perform(app, Run(app, s, plan[..k]).state, plan[k]).threw;
        }
      }
    }
  }

  // ------------------------------------------------------------------- the last phases

  ghost predicate AfterInitReturns(app: App, s: KernelState, root: Ref)
    requires Closed(app.graph) && root in app.graph
  {
    AcyclicFrom(app.graph, root) && Smooth(app, s, AfterPlan(app, Left(Walk(app.graph, {}, root))))
  }

  lemma ReturnsOnlyThen(app: App, s: KernelState, root: Ref, depth: nat)
    requires Closed(app.graph) && Unique(app.graph) && root in app.graph && s.afterInstantiated == []
    requires Returns(AfterWithin(app, s, root, depth))
    ensures AfterWithin(app, s, root, depth).value == Run(app, s, AfterPlan(app, Left(Walk(app.graph, {}, root))))
    ensures AfterInitReturns(app, s, root)
  {
    OverUnlessCyclic(app, s, root);
    ReturnsInInitOrder(app, s, root, depth);
    ThrowsUnlessSmooth(app, s, AfterPlan(app, Left(Walk(app.graph, {}, root))));
  }

  lemma ReturnsThen(app: App, s: KernelState, root: Ref) returns (depth: nat)
    requires Closed(app.graph) && Unique(app.graph) && root in app.graph && s.afterInstantiated == []
    requires AfterInitReturns(app, s, root)
    ensures Returns(AfterWithin(app, s, root, depth))
  {
    RankedIffAcyclic(app.graph, root);
    var rank :| Ranked(app.graph, rank) && root in rank;
    depth := rank[root] + 1;
    assert Keynames(app.graph, s.afterInstantiated) == {};
    AfterFollowsOrder(app, rank, s, root, depth);
    RanksTheOrder(app.graph, rank, root, {});
    ThrowsUnlessSmooth(app, s, AfterPlan(app, Left(Walk(app.graph, {}, root))));
  }

  lemma RanksTheOrder(g: Graph, rank: map<Ref, nat>, root: Ref, done: set<string>)
    requires Closed(g) && Unique(g) && Ranked(g, rank) && root in rank && done == {}
    ensures AfterOrder(g, rank, done, root) == Left(Walk(g, {}, root))
  {
    AfterInitOrderEqualsOnInitOrder(g, rank, root);
  }

  lemma AfterInitReturnsExactlyWhen(app: App, s: KernelState, root: Ref)
    requires Closed(app.graph) && Unique(app.graph) && root in app.graph && s.afterInstantiated == []
    ensures (exists depth: nat :: Returns(AfterWithin(app, s, root, depth))) <==> AfterInitReturns(app, s, root)
  {
    if depth: nat :| Returns(AfterWithin(app, s, root, depth)) {
      ReturnsOnlyThen(app, s, root, depth);
    }
    if AfterInitReturns(app, s, root) {
      var depth := ReturnsThen(app, s, root);
    }
  }

  /** From the tags on: they are accepted, `afterInit` returns, and the log handler resolves. */
  ghost predicate TagsOnReturn(app: App, s: KernelState, root: Ref)
    requires ValidApp(app) && root in app.graph
  {
    && Smooth(app, s, UnscopedTagActions(app, |app.tags|))
    && var tagged := TagPhase(app, s).state;
       && AfterInitReturns(app, tagged, root)
       && app.resolvesLogHandler(Run(app, tagged, AfterPlan(app, Left(Walk(app.graph, {}, root)))).state.container)
  }

  lemma TagsOnReturnExactlyWhen(app: App, s: KernelState, root: Ref)
    requires ValidApp(app) && Unique(app.graph) && root in app.graph && s.afterInstantiated == []
    ensures (exists depth: nat :: Returns(BootedFromTags(app, depth, s, root))) <==> TagsOnReturn(app, s, root)
  {
    ThrowsUnlessSmooth(app, s, UnscopedTagActions(app, |app.tags|));
    var tagged := TagPhase(app, s);
    if !tagged.threw {
      TagPhaseDoes(app, s);
      AfterInitReturnsExactlyWhen(app, tagged.state, root);
      forall depth: nat | Returns(AfterWithin(app, tagged.state, root, depth))
        ensures AfterWithin(app, tagged.state, root, depth).value
             == Run(app, tagged.state, AfterPlan(app, Left(Walk(app.graph, {}, root))))
      {
        ReturnsOnlyThen(app, tagged.state, root, depth);
      }
      if depth: nat :| Returns(AfterWithin(app, tagged.state, root, depth)) {
        assert Returns(BootedFromTags(app, depth, s, root)) <==>
                 app.resolvesLogHandler(AfterWithin(app, tagged.state, root, depth).value.state.container);
      }
    }
  }

  // ------------------------------------------------------------------- a whole boot

  /** The configuration can be registered and loaded, and the phases after it return. */
  ghost predicate ConfigurationOnReturns(app: App, s: KernelState, root: Ref, overrides: Record<Setting>)
    requires ValidApp(app) && root in app.graph && overrides.Valid()
  {
    && app.resolvesConfigurationManager(s.container) && DistinctNames(Declared(app.graph, s.instantiated))
    && DefinitionPhase(app, s).Some? && DefinitionPhase(app, s).value.Valid()
    && var definitions := DefinitionPhase(app, s).value;
       && !SomeDisagree(app.graph, s.instantiated)
       && !SomeUndeclared(app.graph, s.instantiated, definitions)
       && !SomeStray(app, definitions, overrides)
       && EachHasValue(app, s, definitions, overrides)
       && TagsOnReturn(app, LoadPhase(app, s, definitions, overrides).state, root)
  }

  lemma ConfigurationOnReturnsExactlyWhen(app: App, s: KernelState, root: Ref, overrides: Record<Setting>)
    requires ValidApp(app) && Unique(app.graph) && root in app.graph && overrides.Valid()
    requires s.afterInstantiated == [] && forall m :: m in s.instantiated ==> m in app.graph
    ensures (exists depth: nat :: Returns(BootedFromConfiguration(app, depth, s, root, overrides))) <==>
              ConfigurationOnReturns(app, s, root, overrides)
  {
    DeclaresIffDistinct(Declared(app.graph, s.instantiated));
    if DefinitionPhase(app, s).Some? {
      var definitions := DefinitionPhase(app, s).value;
      var loaded := LoadPhase(app, s, definitions, overrides);
      LoadPhaseReturnsExactlyWhen(app, s, definitions, overrides);
      TagsOnReturnExactlyWhen(app, loaded.state, root);
      if !loaded.threw {
        forall depth: nat
          ensures BootedFromConfiguration(app, depth, s, root, overrides)
                  == BootedFromTags(app, depth, loaded.state, root)
        {
        }
      }
    }
  }

  lemma InitPhaseReady(app: App, container: Container, root: Ref)
    requires ValidApp(app) && root in app.graph && !InitPhase(app, KernelState([], [], container, []), root).threw
    ensures var s := InitPhase(app, KernelState([], [], container, []), root).state;
            s.afterInstantiated == [] && forall m :: m in s.instantiated ==> m in app.graph
  {
    InitPhaseDoes(app, container, root);
    WalkVisits(app.graph, {}, root);
  }

  /** Every registration and `onInit` hook of the init walk succeeds. */
  ghost predicate InitReturns(app: App, s: KernelState, root: Ref)
    requires ValidApp(app) && root in app.graph
  {
    Smooth(app, WithInstantiationId(s), InitPlan(app, Walk(app.graph, Keynames(app.graph, s.instantiated), root)))
  }

  lemma InitReturnsExactlyWhen(app: App, s: KernelState, root: Ref)
    requires ValidApp(app) && root in app.graph
    ensures !InitPhase(app, s, root).threw <==> InitReturns(app, s, root)
  {
    ThrowsUnlessSmooth(
      app, WithInstantiationId(s), InitPlan(app, Walk(app.graph, Keynames(app.graph, s.instantiated), root)));
  }

  lemma BootsOn(app: App, depth: nat, s: KernelState, root: Ref, overrides: Record<Setting>)
    requires ValidApp(app) && root in app.graph && overrides.Valid()
    ensures Returns(Booted(app, depth, s, root, overrides)) <==>
              && InitReturns(app, s, root)
              && Returns(BootedFromConfiguration(app, depth, InitPhase(app, s, root).state, root, overrides))
  {
    InitReturnsExactlyWhen(app, s, root);
  }

  /** A fresh kernel's `start` returns exactly when every registration and `onInit` hook of the init walk succeeds,
      the configuration manager resolves, no parameter name is declared twice, the configuration is sound, the
      unscoped tags are accepted, the root reaches no import cycle, every `afterInit` hook returns, and the log
      handler resolves; each on the state the phases before have left. */
  lemma StartReturnsExactlyWhen(app: App, container: Container, root: Ref, overrides: Record<Setting>)
    requires ValidApp(app) && Unique(app.graph) && root in app.graph && overrides.Valid()
    ensures var s := KernelState([], [], container, []);
            (exists depth: nat :: Returns(Booted(app, depth, s, root, overrides))) <==>
              InitReturns(app, s, root)
              && ConfigurationOnReturns(app, InitPhase(app, s, root).state, root, overrides)
  {
    var s := KernelState([], [], container, []);
    InitReturnsExactlyWhen(app, s, root);
    forall depth: nat
      ensures Returns(Booted(app, depth, s, root, overrides)) <==>
                InitReturns(app, s, root)
                && Returns(BootedFromConfiguration(app, depth, InitPhase(app, s, root).state, root, overrides))
    {
      BootsOn(app, depth, s, root, overrides);
    }
    if InitReturns(app, s, root) {
      InitPhaseReady(app, container, root);
      ConfigurationOnReturnsExactlyWhen(app, InitPhase(app, s, root).state, root, overrides);
    }
  }
}
