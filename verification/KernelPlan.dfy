/** The kernel's boot as a plan of actions, performed in order until one throws. */
module KernelPlan {
  import opened Common
  import opened Container
  import opened ModuleGraph

  /** A tagged provider registration, with the source text of its class. */
  datatype TagRegistration = TagRegistration(classText: string, registration: Registration)

  /** Everything a boot depends on besides the kernel's own state. */
  datatype App = App(
    graph: Graph,
    tags: seq<TagRegistration>,
    scopes: map<string, string>,
    accepts: (Container, Registration) -> bool,
    resolvesConfigurationManager: Container -> bool,
    resolvesLogHandler: Container -> bool,
    fileConfig: Record<Setting>)

  /** The keyname of the module that a class is scoped to. The registry of scopes is keyed by the source text of the
      class, so classes with equal text share one. */
  function ScopeOf(app: App, tag: TagRegistration): Option<string> {
    if tag.classText in app.scopes then Some(app.scopes[tag.classText]) else None
  }

  datatype Action =
    | Instantiate(r: Ref)
    | RegisterTag(i: nat, registration: Registration)
    | RegisterProvider(r: Ref, registration: Registration)
    | RunOnInit(r: Ref, hook: Hook)
    | RunAfterInit(r: Ref, hook: Hook)
    | CompleteAfterInit(r: Ref)

  datatype KernelState = KernelState(
    instantiated: seq<Ref>, afterInstantiated: seq<Ref>, container: Container, trace: seq<Action>)

  datatype Ran = Ran(state: KernelState, threw: bool)

  ghost function Registered(app: App, s: KernelState, registration: Registration): Ran {
    if app.accepts(s.container, registration)
    then Ran(s.(container := s.container.(registrations := s.container.registrations + [registration])), false)
    else Ran(s, true)
  }

  ghost function Hooked(s: KernelState, hook: Hook): Ran {
    match hook(s.container)
    case Returned(container) => Ran(s.(container := container), false)
    case Raised(container, _) => Ran(s.(container := container), true)
  }

  ghost function Perform(app: App, s: KernelState, a: Action): Ran {
    var s' := s.(trace := s.trace + [a]);
    match a
    case Instantiate(r) => Ran(s'.(instantiated := s.instantiated + [r]), false)
    case RegisterTag(_, registration) => Registered(app, s', registration)
    case RegisterProvider(_, registration) => Registered(app, s', registration)
    case RunOnInit(_, hook) => Hooked(s', hook)
    case RunAfterInit(_, hook) => Hooked(s', hook)
    case CompleteAfterInit(r) => Ran(s'.(afterInstantiated := s.afterInstantiated + [r]), false)
  }

  ghost function Run(app: App, s: KernelState, plan: seq<Action>): Ran {
    if plan == [] then Ran(s, false)
    else
      var before := Run(app, s, plan[..|plan| - 1]);
      if before.threw then before else Perform(app, before.state, plan[|plan| - 1])
  }

  lemma RunNext(app: App, s: KernelState, plan: seq<Action>, a: Action)
    ensures Run(app, s, plan + [a])
         == if Run(app, s, plan).threw then Run(app, s, plan) else Perform(app, Run(app, s, plan).state, a)
  {
  }

  lemma {:induction false} RunConcat(app: App, s: KernelState, a: seq<Action>, b: seq<Action>)
    ensures Run(app, s, a + b)
         == if Run(app, s, a).threw then Run(app, s, a) else Run(app, Run(app, s, a).state, b)
    decreases |b|
  {
    if b == [] {
      assert a + b == a;
    } else {
      RunConcat(app, s, a, b[..|b| - 1]);
      assert a + b == a + b[..|b| - 1] + [b[|b| - 1]];
      RunNext(app, s, a + b[..|b| - 1], b[|b| - 1]);
    }
  }

  // ------------------------------------------------------------------- the plans

  /** The tags scoped to `keyname`, among the first `n` of the registry. */
  ghost function TagActions(app: App, keyname: string, n: nat): seq<Action>
    requires n <= |app.tags|
  {
    if n == 0 then []
    else if ScopeOf(app, app.tags[n - 1]) == Some(keyname)
    then TagActions(app, keyname, n - 1) + [RegisterTag(n - 1, app.tags[n - 1].registration)]
    else TagActions(app, keyname, n - 1)
  }

  ghost function UnscopedTagActions(app: App, n: nat): seq<Action>
    requires n <= |app.tags|
  {
    if n == 0 then []
    else if ScopeOf(app, app.tags[n - 1]) == None
    then UnscopedTagActions(app, n - 1) + [RegisterTag(n - 1, app.tags[n - 1].registration)]
    else UnscopedTagActions(app, n - 1)
  }

  ghost function ProviderActions(r: Ref, providers: seq<Registration>): seq<Action> {
    if providers == [] then []
    else ProviderActions(r, providers[..|providers| - 1]) + [RegisterProvider(r, providers[|providers| - 1])]
  }

  ghost function OnInitActions(r: Ref, hook: Option<Hook>): seq<Action> {
    match hook case None => [] case Some(h) => [RunOnInit(r, h)]
  }

  /** What leaving a module does: its tags, then its own providers, then its hook. */
  ghost function Block(app: App, r: Ref): seq<Action>
    requires r in app.graph
  {
    var m := app.graph[r];
    TagActions(app, m.keyname, |app.tags|) + ProviderActions(r, m.providers) + OnInitActions(r, m.onInit)
  }

  ghost function EventActions(app: App, e: Event): seq<Action> {
    if e.Enter? then [Instantiate(e.r)]
    else if e.r in app.graph then Block(app, e.r)
    else []
  }

  ghost function InitPlan(app: App, es: seq<Event>): seq<Action> {
    if es == [] then [] else EventActions(app, es[0]) + InitPlan(app, es[1..])
  }

  lemma {:induction false} InitPlanConcat(app: App, a: seq<Event>, b: seq<Event>)
    ensures InitPlan(app, a + b) == InitPlan(app, a) + InitPlan(app, b)
  {
    if a == [] {
      assert a + b == b;
    } else {
      InitPlanConcat(app, a[1..], b);
      assert (a + b)[1..] == a[1..] + b;
    }
  }

  lemma InitPlanSingle(app: App, e: Event)
    ensures InitPlan(app, [e]) == EventActions(app, e)
  {
  }

  ghost function AfterInitActions(r: Ref, hook: Option<Hook>): seq<Action> {
    match hook case None => [CompleteAfterInit(r)] case Some(h) => [RunAfterInit(r, h), CompleteAfterInit(r)]
  }

  ghost function AfterPlan(app: App, order: seq<Ref>): seq<Action> {
    if order == [] then []
    else if order[0] in app.graph
    then AfterInitActions(order[0], app.graph[order[0]].afterInit) + AfterPlan(app, order[1..])
    else AfterPlan(app, order[1..])
  }

  lemma {:induction false} AfterPlanConcat(app: App, a: seq<Ref>, b: seq<Ref>)
    ensures AfterPlan(app, a + b) == AfterPlan(app, a) + AfterPlan(app, b)
  {
    if a == [] {
      assert a + b == b;
    } else {
      AfterPlanConcat(app, a[1..], b);
      assert (a + b)[1..] == a[1..] + b;
    }
  }

  // ------------------------------------------------------------ effects of a plan

  ghost function Instantiations(plan: seq<Action>): seq<Ref> {
    if plan == [] then []
    else if plan[|plan| - 1].Instantiate? then Instantiations(plan[..|plan| - 1]) + [plan[|plan| - 1].r]
    else Instantiations(plan[..|plan| - 1])
  }

  ghost function Completions(plan: seq<Action>): seq<Ref> {
    if plan == [] then []
    else if plan[|plan| - 1].CompleteAfterInit? then Completions(plan[..|plan| - 1]) + [plan[|plan| - 1].r]
    else Completions(plan[..|plan| - 1])
  }

  lemma PerformTraces(app: App, s: KernelState, a: Action)
    ensures var s' := Perform(app, s, a).state;
            && s'.trace == s.trace + [a]
            && s'.instantiated == s.instantiated + (if a.Instantiate? then [a.r] else [])
            && s'.afterInstantiated == s.afterInstantiated + (if a.CompleteAfterInit? then [a.r] else [])
  {
  }

  /** A plan that does not throw leaves exactly its own trace and marks. One that throws has performed a
      prefix of the plan, the last action of it being the one that threw. */
  lemma {:induction false} RunTraces(app: App, s: KernelState, plan: seq<Action>) returns (k: nat)
    ensures k <= |plan| && (!Run(app, s, plan).threw ==> k == |plan|) && (Run(app, s, plan).threw ==> k > 0)
    ensures Run(app, s, plan).state.trace == s.trace + plan[..k]
    ensures Run(app, s, plan).state.instantiated == s.instantiated + Instantiations(plan[..k])
    ensures Run(app, s, plan).state.afterInstantiated == s.afterInstantiated + Completions(plan[..k])
  {
    if plan == [] {
      k := 0;
      assert s.trace + [] == s.trace;
    } else {
      var before := plan[..|plan| - 1];
      k := RunTraces(app, s, before);
      if Run(app, s, before).threw {
        assert before[..k] == plan[..k];
      } else {
        k := |plan|;
        assert plan[..k] == plan && before[..|before|] == before;
        assert plan == before + [plan[|plan| - 1]];
        PerformTraces(app, Run(app, s, before).state, plan[|plan| - 1]);
      }
    }
  }

  lemma {:induction false} InstantiationsConcat(a: seq<Action>, b: seq<Action>)
    ensures Instantiations(a + b) == Instantiations(a) + Instantiations(b)
    decreases |b|
  {
    if b == [] {
      assert a + b == a;
    } else {
      InstantiationsConcat(a, b[..|b| - 1]);
      assert (a + b)[..|a + b| - 1] == a + b[..|b| - 1];
    }
  }

  lemma {:induction false} CompletionsConcat(a: seq<Action>, b: seq<Action>)
    ensures Completions(a + b) == Completions(a) + Completions(b)
    decreases |b|
  {
    if b == [] {
      assert a + b == a;
    } else {
      CompletionsConcat(a, b[..|b| - 1]);
      assert (a + b)[..|a + b| - 1] == a + b[..|b| - 1];
    }
  }

  lemma {:induction false} NoInstantiations(plan: seq<Action>)
    requires forall a :: a in plan ==> !a.Instantiate?
    ensures Instantiations(plan) == []
  {
    if plan != [] {
      NoInstantiations(plan[..|plan| - 1]);
    }
  }

  lemma {:induction false} TagActionsAreTags(app: App, keyname: string, n: nat)
    requires n <= |app.tags|
    ensures forall a :: a in TagActions(app, keyname, n) ==> a.RegisterTag?
  {
    if n > 0 {
      TagActionsAreTags(app, keyname, n - 1);
    }
  }

  lemma {:induction false} ProviderActionsAreProviders(r: Ref, providers: seq<Registration>)
    ensures forall a :: a in ProviderActions(r, providers) ==> a.RegisterProvider? && a.r == r
  {
    if providers != [] {
      ProviderActionsAreProviders(r, providers[..|providers| - 1]);
    }
  }

  lemma BlockKinds(app: App, r: Ref)
    requires r in app.graph
    ensures forall a :: a in Block(app, r) ==> a.RegisterTag? || a.RegisterProvider? || a.RunOnInit?
  {
    TagActionsAreTags(app, app.graph[r].keyname, |app.tags|);
    ProviderActionsAreProviders(r, app.graph[r].providers);
  }

  lemma {:induction false} InitPlanInstantiates(app: App, es: seq<Event>)
    ensures Instantiations(InitPlan(app, es)) == Entered(es)
  {
    if es != [] {
      InitPlanInstantiates(app, es[1..]);
      InstantiationsConcat(EventActions(app, es[0]), InitPlan(app, es[1..]));
      if es[0].Enter? {
        assert [Instantiate(es[0].r)][..0] == [];
        assert Instantiations([Instantiate(es[0].r)]) == [es[0].r];
      } else {
        if es[0].r in app.graph { BlockKinds(app, es[0].r); }
        NoInstantiations(EventActions(app, es[0]));
      }
    }
  }

  lemma CompletesItself(r: Ref, hook: Option<Hook>)
    ensures Completions(AfterInitActions(r, hook)) == [r]
  {
    var first := AfterInitActions(r, hook);
    var before := first[..|first| - 1];
    assert before == match hook case None => [] case Some(h) => [RunAfterInit(r, h)];
    assert before != [] ==> before[..|before| - 1] == [];
    assert Completions(before) == [];
  }

  lemma {:induction false} AfterPlanCompletes(app: App, order: seq<Ref>)
    requires forall m :: m in order ==> m in app.graph
    ensures Completions(AfterPlan(app, order)) == order
  {
    if order != [] {
      AfterPlanCompletes(app, order[1..]);
      var first := AfterInitActions(order[0], app.graph[order[0]].afterInit);
      CompletionsConcat(first, AfterPlan(app, order[1..]));
      CompletesItself(order[0], app.graph[order[0]].afterInit);
    }
  }
}
