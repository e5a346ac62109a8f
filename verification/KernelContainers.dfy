/** What the actions of a boot make of the container: each acts on what the one before has left. */
module KernelContainers {
  import opened Common
  import opened Container
  import opened ModuleGraph
  import opened KernelPlan
  import opened AfterInit
  import opened KernelPhases
  import opened KernelBoot
  import opened KernelLoad
  import opened KernelRegistrations

  /** An accepted registration goes behind the others and changes nothing else; a hook leaves what it likes. */
  ghost predicate Leads(app: App, was: Container, a: Action, now: Container) {
    match a
    case RegisterTag(_, x) => app.accepts(was, x) && now == Container(was.registrations + [x], was.bindings)
    case RegisterProvider(_, x) => app.accepts(was, x) && now == Container(was.registrations + [x], was.bindings)
    case RunOnInit(_, hook) => hook(was) == Returned(now)
    case RunAfterInit(_, hook) => hook(was) == Returned(now)
    case Instantiate(_) => now == was
    case CompleteAfterInit(_) => now == was
  }

  /** A registration that is not accepted changes nothing; a hook that throws leaves what it has done. */
  ghost predicate Breaks(app: App, was: Container, a: Action, now: Container) {
    match a
    case RegisterTag(_, x) => !app.accepts(was, x) && now == was
    case RegisterProvider(_, x) => !app.accepts(was, x) && now == was
    case RunOnInit(_, hook) => hook(was).Raised? && now == hook(was).container
    case RunAfterInit(_, hook) => hook(was).Raised? && now == hook(was).container
    case Instantiate(_) => false
    case CompleteAfterInit(_) => false
  }

  ghost predicate LeadsThrough(app: App, actions: seq<Action>, cs: seq<Container>) {
    |cs| == |actions| + 1 && forall k :: 0 <= k < |actions| ==> Leads(app, cs[k], actions[k], cs[k + 1])
  }

  /** A run has led through the containers `cs` up to the end of the plan, or to an action at which it breaks. */
  ghost predicate IsRun(app: App, s: KernelState, plan: seq<Action>, ran: Ran, cs: seq<Container>) {
    && 0 < |cs| <= |plan| + 1 && cs[0] == s.container
    && LeadsThrough(app, plan[..|cs| - 1], cs)
    && (ran.threw <==> |cs| <= |plan|)
    && if ran.threw then Breaks(app, cs[|cs| - 1], plan[|cs| - 1], ran.state.container)
       else ran.state.container == cs[|cs| - 1]
  }

  lemma PerformActs(app: App, s: KernelState, a: Action)
    ensures var ran := Perform(app, s, a);
            if ran.threw then Breaks(app, s.container, a, ran.state.container)
            else Leads(app, s.container, a, ran.state.container)
  {
  }

  lemma LeadsNext(app: App, actions: seq<Action>, cs: seq<Container>, a: Action, now: Container)
    requires LeadsThrough(app, actions, cs) && Leads(app, cs[|cs| - 1], a, now)
    ensures LeadsThrough(app, actions + [a], cs + [now])
  {
  }

  lemma {:induction false} RunActs(app: App, s: KernelState, plan: seq<Action>) returns (cs: seq<Container>)
    ensures IsRun(app, s, plan, Run(app, s, plan), cs)
  {
    if plan == [] {
      cs := [s.container];
    } else {
      var before, a := plan[..|plan| - 1], plan[|plan| - 1];
      var ran := Run(app, s, before);
      cs := RunActs(app, s, before);
      assert before[..|cs| - 1] == plan[..|cs| - 1];
      if !ran.threw {
        PerformActs(app, ran.state, a);
        if !Run(app, s, plan).threw {
          LeadsNext(app, before, cs, a, Run(app, s, plan).state.container);
          assert plan == before + [a];
          cs := cs + [Run(app, s, plan).state.container];
        }
      }
    }
  }

  // -------------------------------------------------------------- what is registered

  ghost function Registering(actions: seq<Action>): seq<Registration> {
    if actions == [] then []
    else
      Registering(actions[..|actions| - 1]) +
      match actions[|actions| - 1]
      case RegisterTag(_, x) => [x]
      case RegisterProvider(_, x) => [x]
      case _ => []
  }

  lemma {:induction false} RegisteringConcat(a: seq<Action>, b: seq<Action>)
    ensures Registering(a + b) == Registering(a) + Registering(b)
    decreases |b|
  {
    if b == [] {
      assert a + b == a;
    } else {
      RegisteringConcat(a, b[..|b| - 1]);
      assert (a + b)[..|a + b| - 1] == a + b[..|b| - 1];
    }
  }

  /** Whatever container it is given, the hook leaves the registrations as they are. */
  ghost predicate Keeps(hook: Hook) {
    forall c :: hook(c).container.registrations == c.registrations
  }

  ghost predicate HooksKeep(actions: seq<Action>) {
    forall a :: a in actions && (a.RunOnInit? || a.RunAfterInit?) ==> Keeps(a.hook)
  }

  lemma {:induction false} LeadsRegistering(app: App, actions: seq<Action>, cs: seq<Container>)
    requires LeadsThrough(app, actions, cs) && HooksKeep(actions)
    ensures cs[|actions|].registrations == cs[0].registrations + Registering(actions)
    decreases |actions|
  {
    if actions != [] {
      var before, last := actions[..|actions| - 1], |actions| - 1;
      LeadsRegistering(app, before, cs[..|actions|]);
      assert Leads(app, cs[last], actions[last], cs[last + 1]);
      if actions[last].RunOnInit? || actions[last].RunAfterInit? {
        assert actions[last].hook(cs[last]).container.registrations == cs[last].registrations;
      }
    }
  }

  /** If no hook touches the registrations, a plan that runs to its end adds those it lists, in order. */
  lemma RunRegisters(app: App, s: KernelState, plan: seq<Action>)
    requires !Run(app, s, plan).threw && HooksKeep(plan)
    ensures Run(app, s, plan).state.container.registrations == s.container.registrations + Registering(plan)
  {
    var cs := RunActs(app, s, plan);
    assert plan[..|plan|] == plan;
    LeadsRegistering(app, plan, cs);
  }

  ghost function TagRegistrations(app: App, picks: seq<nat>): seq<Registration>
    requires forall j :: 0 <= j < |picks| ==> picks[j] < |app.tags|
  {
    if picks == [] then []
    else TagRegistrations(app, picks[..|picks| - 1]) + [app.tags[picks[|picks| - 1]].registration]
  }

  lemma {:induction false} TagsRegister(app: App, picks: seq<nat>, actions: seq<Action>)
    requires AreTags(app, picks, actions) && forall j :: 0 <= j < |picks| ==> picks[j] < |app.tags|
    ensures Registering(actions) == TagRegistrations(app, picks)
    decreases |picks|
  {
    if picks != [] {
      TagsRegister(app, picks[..|picks| - 1], actions[..|picks| - 1]);
    }
  }

  lemma {:induction false} ProvidersRegister(r: Ref, providers: seq<Registration>, actions: seq<Action>)
    requires AreProviders(r, providers, actions)
    ensures Registering(actions) == providers
    decreases |providers|
  {
    if providers != [] {
      ProvidersRegister(r, providers[..|providers| - 1], actions[..|providers| - 1]);
    }
  }

  ghost function ScopedRegistrations(app: App, r: Ref): seq<Registration>
    requires r in app.graph
  {
    PickedBelow(ScopedTo(app, app.graph[r].keyname), |app.tags|);
    TagRegistrations(app, TagsOf(app, r))
  }

  lemma ScopedRegister(app: App, r: Ref, actions: seq<Action>)
    requires r in app.graph && AreTags(app, TagsOf(app, r), actions)
    ensures Registering(actions) == ScopedRegistrations(app, r)
  {
    PickedBelow(ScopedTo(app, app.graph[r].keyname), |app.tags|);
    TagsRegister(app, TagsOf(app, r), actions);
  }

  /** What a module registers: the tags scoped to it, then its own providers. */
  ghost function ModuleRegistrations(app: App, r: Ref): seq<Registration>
    requires r in app.graph
  {
    ScopedRegistrations(app, r) + app.graph[r].providers
  }

  lemma RegisteringThree(a: seq<Action>, b: seq<Action>, c: seq<Action>)
    ensures Registering(a + b + c) == Registering(a) + Registering(b) + Registering(c)
  {
    RegisteringConcat(a, b);
    RegisteringConcat(a + b, c);
  }

  lemma HookRegistersNothing(r: Ref, hook: Option<Hook>)
    ensures Registering(match hook case None => [] case Some(h) => [RunOnInit(r, h)]) == []
  {
    assert hook.Some? ==> [RunOnInit(r, hook.value)][..0] == [];
  }

  lemma PartsRegister(app: App, r: Ref, tags: seq<Action>, providers: seq<Action>, hook: seq<Action>)
    requires r in app.graph && AreTags(app, TagsOf(app, r), tags)
    requires AreProviders(r, app.graph[r].providers, providers)
    requires hook == match app.graph[r].onInit case None => [] case Some(h) => [RunOnInit(r, h)]
    ensures Registering(tags + providers + hook) == ModuleRegistrations(app, r)
  {
    ScopedRegister(app, r, tags);
    ProvidersRegister(r, app.graph[r].providers, providers);
    HookRegistersNothing(r, app.graph[r].onInit);
    RegisteringThree(tags, providers, hook);
  }

  lemma TurnRegisters(app: App, r: Ref, actions: seq<Action>)
    requires r in app.graph && IsTurn(app, r, actions)
    ensures Registering(actions) == ModuleRegistrations(app, r)
  {
    var n, k := |TagsOf(app, r)|, |TagsOf(app, r)| + |app.graph[r].providers|;
    PartsRegister(app, r, actions[..n], actions[n..k], actions[k..]);
    assert actions == actions[..n] + actions[n..k] + actions[k..];
  }

  ghost function RegistrationsInTurn(app: App, order: seq<Ref>): seq<Registration> {
    if order == [] then []
    else if order[0] in app.graph then ModuleRegistrations(app, order[0]) + RegistrationsInTurn(app, order[1..])
    else RegistrationsInTurn(app, order[1..])
  }

  lemma {:induction false} InitPlanRegisters(app: App, es: seq<Event>)
    ensures Registering(InitPlan(app, es)) == RegistrationsInTurn(app, Left(es))
  {
    if es != [] {
      InitPlanRegisters(app, es[1..]);
      RegisteringConcat(EventActions(app, es[0]), InitPlan(app, es[1..]));
      if es[0].Enter? {
        assert Registering([Instantiate(es[0].r)]) == [];
      } else if es[0].r in app.graph {
        BlockIsTurn(app, es[0].r);
        TurnRegisters(app, es[0].r, Block(app, es[0].r));
      }
    }
  }

  /** No `onInit` or `afterInit` hook of the application touches the registrations. */
  ghost predicate AllKeep(g: Graph) {
    forall r :: r in g ==> && (g[r].onInit.Some? ==> Keeps(g[r].onInit.value))
                           && (g[r].afterInit.Some? ==> Keeps(g[r].afterInit.value))
  }

  lemma TurnKeeps(app: App, r: Ref, actions: seq<Action>)
    requires r in app.graph && AllKeep(app.graph) && IsTurn(app, r, actions)
    ensures HooksKeep(actions)
  {
    forall q: nat | q < |actions|
      ensures !actions[q].RunAfterInit? && (actions[q].RunOnInit? ==> Keeps(actions[q].hook))
    {
      TurnAt(app, r, actions, q);
    }
  }

  lemma {:induction false} InitPlanKeeps(app: App, es: seq<Event>)
    requires AllKeep(app.graph)
    ensures HooksKeep(InitPlan(app, es))
  {
    if es != [] {
      InitPlanKeeps(app, es[1..]);
      if es[0].Leave? && es[0].r in app.graph {
        BlockIsTurn(app, es[0].r);
        TurnKeeps(app, es[0].r, Block(app, es[0].r));
      }
    }
  }

  lemma CompletingRegistersNothing(r: Ref, hook: Option<Hook>)
    ensures Registering(AfterInitActions(r, hook)) == []
  {
    var actions := AfterInitActions(r, hook);
    assert Registering(actions[..|actions| - 1]) == [];
  }

  lemma {:induction false} AfterPlanKeeps(app: App, order: seq<Ref>)
    requires AllKeep(app.graph)
    ensures HooksKeep(AfterPlan(app, order)) && Registering(AfterPlan(app, order)) == []
  {
    if order != [] {
      AfterPlanKeeps(app, order[1..]);
      if order[0] in app.graph {
        var first := AfterInitActions(order[0], app.graph[order[0]].afterInit);
        CompletingRegistersNothing(order[0], app.graph[order[0]].afterInit);
        RegisteringConcat(first, AfterPlan(app, order[1..]));
      }
    }
  }

  /** After the init walk the container holds, behind what it held and the instantiation id, what each module
      registers, module by module in the order in which `initModule` leaves them. */
  lemma InitRegisters(app: App, container: Container, root: Ref)
    requires ValidApp(app) && root in app.graph && AllKeep(app.graph)
    requires !InitPhase(app, KernelState([], [], container, []), root).threw
    ensures InitPhase(app, KernelState([], [], container, []), root).state.container.registrations
         == container.registrations + [Registration("$kernel.instantiation_id$", 0)]
            + RegistrationsInTurn(app, Left(Walk(app.graph, {}, root)))
  {
    var es := Walk(app.graph, {}, root);
    assert Keynames(app.graph, []) == {};
    InitPlanKeeps(app, es);
    InitPlanRegisters(app, es);
    RunRegisters(app, WithInstantiationId(KernelState([], [], container, [])), InitPlan(app, es));
  }

  ghost function UnscopedRegistrations(app: App): seq<Registration> {
    PickedBelow(Unscoped(app), |app.tags|);
    TagRegistrations(app, Picked(Unscoped(app), |app.tags|))
  }

  lemma TagPhaseRegisters(app: App, s: KernelState)
    requires !TagPhase(app, s).threw
    ensures TagPhase(app, s).state.container.registrations == s.container.registrations + UnscopedRegistrations(app)
  {
    var tags := UnscopedTagActions(app, |app.tags|);
    UnscopedTags(app, |app.tags|);
    UnscopedKinds(app, |app.tags|);
    PickedBelow(Unscoped(app), |app.tags|);
    TagsRegister(app, Picked(Unscoped(app), |app.tags|), tags);
    RunRegisters(app, s, tags);
  }

  lemma AfterInitRegistersNothing(app: App, s: KernelState, root: Ref, depth: nat)
    requires ValidApp(app) && Unique(app.graph) && root in app.graph && AllKeep(app.graph)
    requires s.afterInstantiated == [] && Returns(AfterWithin(app, s, root, depth))
    ensures AfterWithin(app, s, root, depth).value.state.container.registrations == s.container.registrations
  {
    ReturnsInInitOrder(app, s, root, depth);
    AfterPlanKeeps(app, Left(Walk(app.graph, {}, root)));
    RunRegisters(app, s, AfterPlan(app, Left(Walk(app.graph, {}, root))));
  }

  /** If no hook touches the registrations, a boot that returns has added exactly these: the instantiation id, what
      each module registers, module by module, and the unscoped tags. */
  lemma BootedRegisters(app: App, depth: nat, container: Container, root: Ref, overrides: Record<Setting>)
    requires ValidApp(app) && Unique(app.graph) && root in app.graph && overrides.Valid() && AllKeep(app.graph)
    requires Returns(Booted(app, depth, KernelState([], [], container, []), root, overrides))
    ensures Booted(app, depth, KernelState([], [], container, []), root, overrides).value.state.container.registrations
         == container.registrations + [Registration("$kernel.instantiation_id$", 0)]
            + RegistrationsInTurn(app, Left(Walk(app.graph, {}, root))) + UnscopedRegistrations(app)
  {
    var s := KernelState([], [], container, []);
    InitRegisters(app, container, root);
    InitPhaseDoes(app, container, root);
    var added := BootedBindsEachParameter(app, depth, s, root, overrides);
    var s1 := InitPhase(app, s, root).state;
    var s2 := s1.(container := WithBindings(s1.container, added));
    TagPhaseRegisters(app, s2);
    TagPhaseDoes(app, s2);
    AfterInitRegistersNothing(app, TagPhase(app, s2).state, root, depth);
  }

  // ---------------------------------------------------------------------- an input

  /** One module that provides "t" itself, and a tagged class for "t" that is scoped to it. */
  ghost function Overriding(accepts: (Container, Registration) -> bool, resolves: Container -> bool): App {
    App(map[0 := Module("app", [], [Registration("t", 1)], [], Empty(), None, None, None)],
        [TagRegistration("class T {}", Registration("t", 2))], map["class T {}" := "app"],
        accepts, resolves, resolves, Empty())
  }

  lemma OverridingPlan(app: App)
    requires app.graph == Overriding(app.accepts, app.resolvesLogHandler).graph
    requires app.tags == [TagRegistration("class T {}", Registration("t", 2))]
    requires app.scopes == map["class T {}" := "app"]
    ensures Closed(app.graph)
    ensures InitPlan(app, Walk(app.graph, {}, 0))
         == [Instantiate(0), RegisterTag(0, Registration("t", 2)), RegisterProvider(0, Registration("t", 1))]
  {
    assert WalkAll(app.graph, {"app"}, []) == [];
    assert Walk(app.graph, {}, 0) == [Enter(0), Leave(0)];
    InitPlanConcat(app, [Enter(0)], [Leave(0)]);
    assert [Enter(0)] + [Leave(0)] == [Enter(0), Leave(0)];
    assert TagActions(app, "app", 0) == [];
    assert TagActions(app, "app", 1) == [RegisterTag(0, Registration("t", 2))];
    assert ProviderActions(0, [Registration("t", 1)]) == [RegisterProvider(0, Registration("t", 1))];
    InitPlanSingle(app, Leave(0));
    InitPlanSingle(app, Enter(0));
  }

  lemma RegistersTwo(app: App, s: KernelState, x: Registration, y: Registration)
    requires forall c, z :: app.accepts(c, z)
    ensures Run(app, s, [Instantiate(0), RegisterTag(0, x), RegisterProvider(0, y)]).state.container.registrations
         == s.container.registrations + [x, y]
  {
    var marks, one, two := [Instantiate(0)], [Instantiate(0), RegisterTag(0, x)],
                           [Instantiate(0), RegisterTag(0, x), RegisterProvider(0, y)];
    assert [] + marks == marks && marks + [RegisterTag(0, x)] == one && one + [RegisterProvider(0, y)] == two;
    RunNext(app, s, [], Instantiate(0));
    RunNext(app, s, marks, RegisterTag(0, x));
    RunNext(app, s, one, RegisterProvider(0, y));
  }

  /** The tag comes first, so the module's own provider is the later of the two, which injection picks. */
  lemma OwnProviderOverridesTag(resolves: Container -> bool)
    ensures var app := Overriding((c, x) => true, resolves);
            && ValidApp(app)
            && InitPhase(app, KernelState([], [], Container([], []), []), 0).state.container.registrations
               == [Registration("$kernel.instantiation_id$", 0), Registration("t", 2), Registration("t", 1)]
  {
    var app := Overriding((c, x) => true, resolves);
    OverridingPlan(app);
    assert Keynames(app.graph, []) == {};
    RegistersTwo(app, WithInstantiationId(KernelState([], [], Container([], []), [])), Registration("t", 2),
                 Registration("t", 1));
  }
}
