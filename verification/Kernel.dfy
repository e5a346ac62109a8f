/** The kernel: boot, verification of a boot, and shutdown over one module graph. */
module Kernel {
  import opened Common
  import opened Container
  import opened ModuleGraph
  import opened ModuleOrder
  import opened ModuleWrapping
  import opened KernelPlan
  import opened AfterInit
  import opened KernelPhases
  import opened KernelConfiguration
  import opened KernelMissing
  import opened KernelShutdown
  import opened Configuration

  // --------------------------------------------------------- plans under construction

  lemma RunThrewStays(app: App, s: KernelState, a: seq<Action>, whole: seq<Action>)
    requires a <= whole && Run(app, s, a).threw
    ensures Run(app, s, whole) == Run(app, s, a)
  {
    assert whole == a + whole[|a|..];
    RunConcat(app, s, a, whole[|a|..]);
  }

  lemma {:induction false} TagActionsGrow(app: App, keyname: string, i: nat, n: nat)
    requires i <= n <= |app.tags|
    ensures TagActions(app, keyname, i) <= TagActions(app, keyname, n)
    decreases n
  {
    if i < n {
      TagActionsGrow(app, keyname, i, n - 1);
    }
  }

  lemma {:induction false} UnscopedTagActionsGrow(app: App, i: nat, n: nat)
    requires i <= n <= |app.tags|
    ensures UnscopedTagActions(app, i) <= UnscopedTagActions(app, n)
    decreases n
  {
    if i < n {
      UnscopedTagActionsGrow(app, i, n - 1);
    }
  }

  lemma {:induction false} ProviderActionsGrow(r: Ref, providers: seq<Registration>, i: nat)
    requires i <= |providers|
    ensures ProviderActions(r, providers[..i]) <= ProviderActions(r, providers)
    decreases |providers|
  {
    if i == |providers| {
      assert providers[..i] == providers;
    } else {
      ProviderActionsGrow(r, providers[..|providers| - 1], i);
      assert providers[..|providers| - 1][..i] == providers[..i];
    }
  }

  lemma RunProvidersNext(app: App, s: KernelState, r: Ref, providers: seq<Registration>, i: nat)
    requires i < |providers| && !Run(app, s, ProviderActions(r, providers[..i])).threw
    ensures Run(app, s, ProviderActions(r, providers[..i + 1]))
         == Perform(app, Run(app, s, ProviderActions(r, providers[..i])).state, RegisterProvider(r, providers[i]))
  {
    assert providers[..i + 1][..i] == providers[..i];
    RunNext(app, s, ProviderActions(r, providers[..i]), RegisterProvider(r, providers[i]));
  }

  lemma RunProvidersStops(app: App, s: KernelState, r: Ref, providers: seq<Registration>, i: nat)
    requires i <= |providers| && Run(app, s, ProviderActions(r, providers[..i])).threw
    ensures Run(app, s, ProviderActions(r, providers)) == Run(app, s, ProviderActions(r, providers[..i]))
  {
    ProviderActionsGrow(r, providers, i);
    RunThrewStays(app, s, ProviderActions(r, providers[..i]), ProviderActions(r, providers));
  }

  /** A loop over imports that throws at one of them has performed the plan of the whole list. */
  lemma {:induction false} WalkAllGrows(app: App, seen: set<string>, ms: seq<Ref>, i: nat)
    requires Closed(app.graph) && i <= |ms| && forall m :: m in ms ==> m in app.graph
    ensures InitPlan(app, WalkAll(app.graph, seen, ms[..i])) <= InitPlan(app, WalkAll(app.graph, seen, ms))
    decreases |ms| - i
  {
    if i == |ms| {
      assert ms[..i] == ms;
    } else {
      WalkAllGrows(app, seen, ms, i + 1);
      WalkNext(app.graph, seen, ms, i);
      var before := WalkAll(app.graph, seen, ms[..i]);
      InitPlanConcat(app, before, Walk(app.graph, seen + Keynames(app.graph, Entered(before)), ms[i]));
    }
  }

  lemma TakeNext(earlier: seq<Definition>, definitions: seq<Definition>, j: nat)
    requires j < |definitions|
    ensures earlier + definitions[..j + 1] == earlier + definitions[..j] + [definitions[j]]
    ensures earlier + definitions[..j + 1] <= earlier + definitions
  {
  }

  class Kernel {
    const app: App
    /** A dictionary from keyname to module, in insertion order; the key is the module's own keyname. */
    var instantiatedModules: seq<Ref>
    var afterInstantiatedModules: seq<Ref>
    var container: Container
    var stopped: bool
    /** The actions performed so far. */
    ghost var trace: seq<Action>

    constructor (app: App, container: Container)
      ensures this.app == app && State() == KernelState([], [], container, []) && !stopped
      ensures ValidApp(app) ==> Valid()
    {
      this.app, this.container := app, container;
      instantiatedModules, afterInstantiatedModules, stopped, trace := [], [], false, [];
    }

    ghost function State(): KernelState
      reads this
    {
      KernelState(instantiatedModules, afterInstantiatedModules, container, trace)
    }

    method RegisterProviderRegistration(registration: Registration, ghost source: Action) returns (threw: bool)
      requires source.RegisterTag? || source.RegisterProvider?
      requires source.registration == registration
      modifies this`container, this`trace
      ensures Ran(State(), threw) == Perform(app, old(State()), source)
    {
      trace := trace + [source];
      threw := !app.accepts(container, registration);
      if !threw {
        container := container.(registrations := container.registrations + [registration]);
      }
    }

    method RunHook(hook: Hook, ghost source: Action) returns (threw: bool)
      requires source.RunOnInit? || source.RunAfterInit?
      requires source.hook == hook
      modifies this`container, this`trace
      ensures Ran(State(), threw) == Perform(app, old(State()), source)
    {
      trace := trace + [source];
      match hook(container) {
        case Returned(c) => container, threw := c, false;
        case Raised(c, _) => container, threw := c, true;
      }
    }

    method RegisterModuleServiceTags(keyname: string) returns (threw: bool)
      modifies this`container, this`trace
      ensures Ran(State(), threw) == Run(app, old(State()), TagActions(app, keyname, |app.tags|))
    {
      var i := 0;
      while i < |app.tags|
        invariant 0 <= i <= |app.tags|
        invariant Ran(State(), false) == Run(app, old(State()), TagActions(app, keyname, i))
        invariant instantiatedModules == old(instantiatedModules)
                  && afterInstantiatedModules == old(afterInstantiatedModules)
      {
        var tag := app.tags[i];
        i := i + 1;
        if ScopeOf(app, tag) != Some(keyname) { continue; }
        RunNext(app, old(State()), TagActions(app, keyname, i - 1), RegisterTag(i - 1, tag.registration));
        threw := RegisterProviderRegistration(tag.registration, RegisterTag(i - 1, tag.registration));
        if threw {
          TagActionsGrow(app, keyname, i, |app.tags|);
          RunThrewStays(app, old(State()), TagActions(app, keyname, i), TagActions(app, keyname, |app.tags|));
          return;
        }
      }
      threw := false;
    }

    method RegisterNonModuleScopedServiceTags() returns (threw: bool)
      modifies this`container, this`trace
      ensures Ran(State(), threw) == Run(app, old(State()), UnscopedTagActions(app, |app.tags|))
    {
      var i := 0;
      while i < |app.tags|
        invariant 0 <= i <= |app.tags|
        invariant Ran(State(), false) == Run(app, old(State()), UnscopedTagActions(app, i))
        invariant instantiatedModules == old(instantiatedModules)
                  && afterInstantiatedModules == old(afterInstantiatedModules)
      {
        var tag := app.tags[i];
        i := i + 1;
        if ScopeOf(app, tag) != None { continue; }
        RunNext(app, old(State()), UnscopedTagActions(app, i - 1), RegisterTag(i - 1, tag.registration));
        threw := RegisterProviderRegistration(tag.registration, RegisterTag(i - 1, tag.registration));
        if threw {
          UnscopedTagActionsGrow(app, i, |app.tags|);
          RunThrewStays(app, old(State()), UnscopedTagActions(app, i), UnscopedTagActions(app, |app.tags|));
          return;
        }
      }
      threw := false;
    }

    method RegisterProviders(r: Ref) returns (threw: bool)
      requires r in app.graph
      modifies this`container, this`trace
      ensures Ran(State(), threw) == Run(app, old(State()), ProviderActions(r, app.graph[r].providers))
    {
      var providers := app.graph[r].providers;
      var i := 0;
      while i < |providers|
        invariant 0 <= i <= |providers|
        invariant Ran(State(), false) == Run(app, old(State()), ProviderActions(r, providers[..i]))
        invariant instantiatedModules == old(instantiatedModules)
                  && afterInstantiatedModules == old(afterInstantiatedModules)
      {
        RunProvidersNext(app, old(State()), r, providers, i);
        threw := RegisterProviderRegistration(providers[i], RegisterProvider(r, providers[i]));
        i := i + 1;
        if threw {
          RunProvidersStops(app, old(State()), r, providers, i);
          return;
        }
      }
      assert providers[..i] == providers;
      threw := false;
    }

    /** The part of `initModule` that follows the recursion. */
    method CompleteInit(r: Ref) returns (threw: bool)
      requires r in app.graph
      modifies this`container, this`trace
      ensures Ran(State(), threw) == Run(app, old(State()), Block(app, r))
    {
      var m := app.graph[r];
      ghost var s := State();
      ghost var tags, providers := TagActions(app, m.keyname, |app.tags|), ProviderActions(r, m.providers);
      RunConcat(app, s, tags, providers);
      RunConcat(app, s, tags + providers, OnInitActions(r, m.onInit));
      threw := RegisterModuleServiceTags(m.keyname);
      if threw { return; }
      threw := RegisterProviders(r);
      if threw { return; }
      if m.onInit.Some? {
        RunNext(app, State(), [], RunOnInit(r, m.onInit.value));
        assert [] + [RunOnInit(r, m.onInit.value)] == [RunOnInit(r, m.onInit.value)];
        threw := RunHook(m.onInit.value, RunOnInit(r, m.onInit.value));
      }
    }

    method InitModule(r: Ref) returns (threw: bool, spans: seq<Ref>)
      requires Closed(app.graph) && r in app.graph && DistinctKeynames(app.graph, instantiatedModules)
      modifies this`instantiatedModules, this`container, this`trace
      ensures DistinctKeynames(app.graph, instantiatedModules)
      ensures var es := Walk(app.graph, Keynames(app.graph, old(instantiatedModules)), r);
              && Ran(State(), threw) == Run(app, old(State()), InitPlan(app, es))
              && (!threw ==> spans == Left(es) && instantiatedModules == old(instantiatedModules) + Entered(es))
      decreases AllKeynames(app.graph) - Keynames(app.graph, instantiatedModules), 0
    {
      ghost var s0, seen0 := State(), Keynames(app.graph, instantiatedModules);
      if app.graph[r].keyname in Keynames(app.graph, instantiatedModules) {
        return false, [];
      }
      assert app.graph[r].keyname in AllKeynames(app.graph);
      DistinctKeynamesConcat(app.graph, instantiatedModules, [r]);
      instantiatedModules := instantiatedModules + [r];
      trace := trace + [Instantiate(r)];
      KeynamesConcat(app.graph, old(instantiatedModules), [r]);
      assert Keynames(app.graph, [r]) == {app.graph[r].keyname};
      ghost var inner := WalkAll(app.graph, seen0 + {app.graph[r].keyname}, app.graph[r].imports);
      InitSplits(app, s0, r, inner);
      threw, spans := InitImports(app.graph[r].imports);
      if threw { return; }
      threw := CompleteInit(r);
      if threw { return; }
      WalkUnfold(app.graph, seen0, r);
      spans := spans + [r];
      Associative(old(instantiatedModules), [r], Entered(inner));
    }

    /** The recursion of `initModule` over a list of imports. */
    method InitImports(imports: seq<Ref>) returns (threw: bool, spans: seq<Ref>)
      requires Closed(app.graph) && forall m :: m in imports ==> m in app.graph
      requires DistinctKeynames(app.graph, instantiatedModules)
      modifies this`instantiatedModules, this`container, this`trace
      ensures DistinctKeynames(app.graph, instantiatedModules)
      ensures var es := WalkAll(app.graph, Keynames(app.graph, old(instantiatedModules)), imports);
              && Ran(State(), threw) == Run(app, old(State()), InitPlan(app, es))
              && (!threw ==> spans == Left(es) && instantiatedModules == old(instantiatedModules) + Entered(es))
      decreases AllKeynames(app.graph) - Keynames(app.graph, instantiatedModules), 1
    {
      threw, spans := false, [];
      ghost var seen0 := Keynames(app.graph, instantiatedModules);
      var i := 0;
      while i < |imports|
        invariant 0 <= i <= |imports|
        invariant !threw && afterInstantiatedModules == old(afterInstantiatedModules)
        invariant DistinctKeynames(app.graph, instantiatedModules)
        invariant Ran(State(), false) == Run(app, old(State()), InitPlan(app, WalkAll(app.graph, seen0, imports[..i])))
        invariant spans == Left(WalkAll(app.graph, seen0, imports[..i]))
        invariant instantiatedModules == old(instantiatedModules) + Entered(WalkAll(app.graph, seen0, imports[..i]))
      {
        ghost var before := WalkAll(app.graph, seen0, imports[..i]);
        WalkNext(app.graph, seen0, imports, i);
        KeynamesConcat(app.graph, old(instantiatedModules), Entered(before));
        ghost var next := Walk(app.graph, Keynames(app.graph, instantiatedModules), imports[i]);
        InitPlanConcat(app, before, next);
        RunConcat(app, old(State()), InitPlan(app, before), InitPlan(app, next));
        var initialized;
        threw, initialized := InitModule(imports[i]);
        Associative(old(instantiatedModules), Entered(before), Entered(next));
        spans := spans + initialized;
        i := i + 1;
        if threw {
          WalkAllGrows(app, seen0, imports, i);
          RunThrewStays(app, old(State()), InitPlan(app, WalkAll(app.graph, seen0, imports[..i])),
                        InitPlan(app, WalkAll(app.graph, seen0, imports)));
          return;
        }
      }
      assert imports[..i] == imports;
    }

    /** `afterInitModule`: it recurses before it looks at what is done, so it has to be called where that is over
        within some number of nested calls. */
    method AfterInitModule(r: Ref, ghost depth: nat) returns (threw: bool)
      requires Closed(app.graph) && r in app.graph && AfterWithin(app, State(), r, depth).Some?
      modifies this`afterInstantiatedModules, this`container, this`trace
      ensures Some(Ran(State(), threw)) == AfterWithin(app, old(State()), r, depth)
      decreases depth, 0
    {
      threw := AfterInitImports(app.graph[r].imports, depth - 1);
      if threw { return; }
      if app.graph[r].keyname in Keynames(app.graph, afterInstantiatedModules) { return; }
      threw := CompleteAfterInitOf(r);
    }

    method CompleteAfterInitOf(r: Ref) returns (threw: bool)
      requires r in app.graph
      modifies this`afterInstantiatedModules, this`container, this`trace
      ensures Ran(State(), threw) == Run(app, old(State()), AfterInitActions(r, app.graph[r].afterInit))
    {
      var m := app.graph[r];
      ghost var s := State();
      threw := false;
      if m.afterInit.Some? {
        RunNext(app, s, [], RunAfterInit(r, m.afterInit.value));
        assert [] + [RunAfterInit(r, m.afterInit.value)] == [RunAfterInit(r, m.afterInit.value)];
        RunNext(app, s, [RunAfterInit(r, m.afterInit.value)], CompleteAfterInit(r));
        assert AfterInitActions(r, m.afterInit) == [RunAfterInit(r, m.afterInit.value)] + [CompleteAfterInit(r)];
        threw := RunHook(m.afterInit.value, RunAfterInit(r, m.afterInit.value));
        if threw { return; }
      } else {
        RunNext(app, s, [], CompleteAfterInit(r));
        assert [] + [CompleteAfterInit(r)] == [CompleteAfterInit(r)];
      }
      afterInstantiatedModules := afterInstantiatedModules + [r];
      trace := trace + [CompleteAfterInit(r)];
    }

    method AfterInitImports(imports: seq<Ref>, ghost depth: nat) returns (threw: bool)
      requires Closed(app.graph) && forall m :: m in imports ==> m in app.graph
      requires AfterAllWithin(app, State(), imports, depth).Some?
      modifies this`afterInstantiatedModules, this`container, this`trace
      ensures Some(Ran(State(), threw)) == AfterAllWithin(app, old(State()), imports, depth)
      decreases depth, 1
    {
      threw := false;
      var rest := imports;
      while rest != []
        invariant !threw && forall m :: m in rest ==> m in app.graph
        invariant AfterAllWithin(app, State(), rest, depth) == AfterAllWithin(app, old(State()), imports, depth)
        decreases |rest|
      {
        threw := AfterInitModule(rest[0], depth);
        if threw { return; }
        rest := rest[1..];
      }
    }

    // ------------------------------------------------------------- configuration

    ghost predicate Valid()
      reads this
    {
      ValidApp(app) && DistinctKeynames(app.graph, instantiatedModules)
    }

    method RegisterConfigurationDefinitions() returns (threw: bool, manager: ConfigurationManager)
      requires Valid()
      ensures fresh(manager)
      ensures threw <==> DefinitionPhase(app, State()).None?
      ensures !threw ==> Some(manager.configurationDefinitions) == DefinitionPhase(app, State())
    {
      manager := new ConfigurationManager();
      if !app.resolvesConfigurationManager(container) { return true, manager; }
      var i := 0;
      while i < |instantiatedModules|
        invariant 0 <= i <= |instantiatedModules|
        invariant Some(manager.configurationDefinitions)
               == DeclareAll(Empty(), Declared(app.graph, instantiatedModules[..i]))
      {
        DeclaredNext(app.graph, instantiatedModules, i);
        DeclaredGrows(app.graph, instantiatedModules, i + 1);
        threw := RegisterEach(manager, app.graph[instantiatedModules[i]].definitions,
                              Declared(app.graph, instantiatedModules[..i]));
        i := i + 1;
        if threw {
          DeclareStopped(Empty(), Declared(app.graph, instantiatedModules[..i]),
            Declared(app.graph, instantiatedModules));
          return;
        }
      }
      assert instantiatedModules[..i] == instantiatedModules;
      threw := false;
    }

    /** The inner loop: one module's definitions after those registered earlier. */
    static method RegisterEach(manager: ConfigurationManager, definitions: seq<Definition>,
        ghost earlier: seq<Definition>)
      returns (threw: bool)
      requires Some(manager.configurationDefinitions) == DeclareAll(Empty(), earlier)
      modifies manager
      ensures threw <==> DeclareAll(Empty(), earlier + definitions).None?
      ensures !threw ==> Some(manager.configurationDefinitions) == DeclareAll(Empty(), earlier + definitions)
    {
      var j := 0;
      assert earlier + definitions[..0] == earlier;
      while j < |definitions|
        invariant 0 <= j <= |definitions|
        invariant Some(manager.configurationDefinitions) == DeclareAll(Empty(), earlier + definitions[..j])
      {
        TakeNext(earlier, definitions, j);
        DeclareNext(Empty(), earlier + definitions[..j], definitions[j]);
        var registered := manager.Register(definitions[j]);
        j := j + 1;
        if !registered {
          DeclareStopped(Empty(), earlier + definitions[..j], earlier + definitions);
          return true;
        }
      }
      assert definitions[..j] == definitions;
      return false;
    }

    method CollectConfigDefaults() returns (collected: Collected)
      requires Valid()
      ensures collected == Collect(Entries(app.graph, instantiatedModules))
    {
      collected := Collected(Empty(), Empty());
      var i := 0;
      while i < |instantiatedModules|
        invariant 0 <= i <= |instantiatedModules|
        invariant collected.Collected?
        invariant collected == Collect(Entries(app.graph, instantiatedModules[..i]))
      {
        EntriesNext(app.graph, instantiatedModules, i);
        EntriesGrow(app.graph, instantiatedModules, i + 1);
        collected := CollectBlock(app.graph[instantiatedModules[i]], collected,
          Entries(app.graph, instantiatedModules[..i]));
        i := i + 1;
        if collected.Conflict? {
          CollectStopped(Entries(app.graph, instantiatedModules[..i]), Entries(app.graph, instantiatedModules));
          return;
        }
      }
      assert instantiatedModules[..i] == instantiatedModules;
    }

    /** The inner loop: one module's block on top of what the earlier modules set. */
    static method CollectBlock(m: Module, before: Collected, ghost earlier: seq<Entry>) returns (collected: Collected)
      requires m.configDefaults.Valid() && before.Collected? && before == Collect(earlier)
      ensures collected == Collect(earlier + DefaultsBlock(m, m.configDefaults.keys))
    {
      var keys := m.configDefaults.keys;
      collected := before;
      var j := 0;
      assert earlier + DefaultsBlock(m, keys[..0]) == earlier;
      while j < |keys|
        invariant 0 <= j <= |keys|
        invariant collected.Collected?
        invariant collected == Collect(earlier + DefaultsBlock(m, keys[..j]))
      {
        CollectBlockNext(m, earlier, j);
        var key, incoming := keys[j], m.configDefaults.values[keys[j]];
        var Collected(merged, sourceByKey) := collected;
        j := j + 1;
        if sourceByKey.Has(key) && merged.Has(key) && !Same(merged.values[key], incoming) {
          CollectBlockStops(m, earlier, j);
          return Conflict;
        }
        collected := Collected(merged.Set(key, incoming), sourceByKey.Set(key, m.keyname));
      }
      assert keys[..j] == keys;
    }

    /** Fails at the first `configDefaults` key that no definition declares. */
    static method ValidateConfigDefaultsAgainstDefinitions(sourceByKey: Record<string>, registered: Record<Definition>)
      returns (threw: bool)
      requires sourceByKey.Valid()
      ensures threw <==> !(sourceByKey.values.Keys <= registered.values.Keys)
    {
      var i := 0;
      while i < |sourceByKey.keys|
        invariant 0 <= i <= |sourceByKey.keys|
        invariant forall k :: k in sourceByKey.keys[..i] ==> k in registered.values
      {
        if !registered.Has(sourceByKey.keys[i]) {
          assert sourceByKey.keys[i] in sourceByKey.values;
          return true;
        }
        i := i + 1;
      }
      forall k | k in sourceByKey.values.Keys ensures k in registered.values.Keys {
        assert k in sourceByKey.keys;
        assert sourceByKey.keys[..i] == sourceByKey.keys;
      }
      return false;
    }

    method LoadConfiguration(manager: ConfigurationManager, overrides: Record<Setting>) returns (threw: bool)
      requires Valid() && overrides.Valid() && manager.configurationDefinitions.Valid()
      modifies this`container, manager
      ensures Ran(State(), threw) == LoadPhase(app, old(State()), old(manager.configurationDefinitions), overrides)
    {
      var collected := CollectConfigDefaults();
      CollectsUnionOrConflict(Entries(app.graph, instantiatedModules));
      if collected.Conflict? { return true; }
      threw := ValidateConfigDefaultsAgainstDefinitions(collected.sourceByKey, manager.configurationDefinitions);
      if threw { return; }
      var result;
      result, container := manager.Load(overrides, container, collected.merged, app.fileConfig);
      threw := !result.Loaded?;
    }

    // --------------------------------------------------------- start and its rehearsal

    method RegisterInstantiationId()
      modifies this`container
      ensures State() == WithInstantiationId(old(State()))
    {
      container := container.(registrations := container.registrations + [InstantiationId]);
    }

    method Start(root: Ref, overrides: Record<Setting>, ghost depth: nat) returns (threw: bool)
      requires Valid() && root in app.graph && overrides.Valid()
      requires Booted(app, depth, State(), root, overrides).Some?
      modifies this
      ensures Valid()
      ensures Some(Ran(State(), threw)) == Booted(app, depth, old(State()), root, overrides)
    {
      RegisterInstantiationId();
      var spans;
      threw, spans := InitModule(root);
      if threw { return; }
      var manager;
      threw, manager := RegisterConfigurationDefinitions();
      if threw { return; }
      DeclaresIffDistinct(Declared(app.graph, instantiatedModules));
      threw := LoadConfiguration(manager, overrides);
      if threw { return; }
      threw := RegisterNonModuleScopedServiceTags();
      if threw { return; }
      threw := AfterInitModule(root, depth);
      if threw { return; }
      threw := !app.resolvesLogHandler(container);
    }

    /** Runs the phases of `Start`, recording each outcome instead of letting it escape. The report has every
        phase once and in order, with what it came to, and lists what the overrides lack. */
    method VerifyInstantiation(
        root: Ref, overrides: Record<Setting>, runInstantiationTests: bool, stopOnFirstFailure: bool, ghost depth: nat)
      returns (report: InstantiationReport, ghost o: Outcomes)
      requires Valid() && root in app.graph && overrides.Valid()
      requires RehearsalOver(app, depth, State(), root, overrides, stopOnFirstFailure)
      modifies this
      ensures Valid()
      ensures ListsPhases(report.phases, o)
      ensures Rehearsed(
                app, depth, old(State()), root, overrides, runInstantiationTests, stopOnFirstFailure, o, State())
      ensures o.BootsFine() <==> Returns(Booted(app, depth, old(State()), root, overrides))
      ensures o.BootsFine() ==> Some(Ran(State(), false)) == Booted(app, depth, old(State()), root, overrides)
      ensures !o.registration.Failed? ==>
        instantiatedModules == InitPhase(app, old(State()), root).state.instantiated
      ensures o.registration.Failed? || o.check.Failed? ==> report.missingRequiredConfiguration == []
      ensures !o.registration.Failed? && !o.check.Failed? ==>
        Lists(overrides, o.check, report.missingRequiredConfiguration)
    {
      ghost var was := State();
      RegisterInstantiationId();
      var threw, spans := InitModule(root);
      if threw {
        o := Outcomes(Failed, Skipped, Skipped, Skipped, Skipped, Skipped, Skipped);
        report := Halted();
      } else {
        var phases, missing;
        ghost var loaded;
        phases, missing, o, loaded := VerifyFromConfiguration(
            [Result(ModuleRegistration, false)], root, overrides, runInstantiationTests, stopOnFirstFailure, depth);
        report := InstantiationReport(phases, missing);
        ListedInOrder(o);
      }
      RehearsalMatchesStart(app, depth, was, root, overrides, runInstantiationTests, stopOnFirstFailure, o, State());
    }

    /** The parameters that an instantiated module requires and no override gives; a warning if there are any. */
    ghost predicate Lists(overrides: Record<Setting>, check: Status, missing: seq<Missing>)
      reads this
    {
      && ReportsExactly(app.graph, instantiatedModules, overrides, missing)
      && ReportsInOrder(app.graph, instantiatedModules, missing)
      && (check == if missing == [] then Passed else PassedWithWarnings)
    }

    /** The phases of the rehearsal that follow the registration of the modules. */
    method VerifyFromConfiguration(
        before: seq<PhaseResult>, root: Ref, overrides: Record<Setting>, runInstantiationTests: bool,
        stopOnFirstFailure: bool, ghost depth: nat)
      returns (phases: seq<PhaseResult>, missing: seq<Missing>, ghost o: Outcomes, ghost loaded: KernelState)
      requires Valid() && root in app.graph && overrides.Valid()
      requires OverFromConfiguration(app, depth, State(), root, overrides, stopOnFirstFailure)
      requires before == [Result(ModuleRegistration, false)]
      modifies this`afterInstantiatedModules, this`container, this`trace
      ensures phases == o.Listed()
      ensures RehearsedFromConfiguration(
                app, depth, old(State()), root, overrides, runInstantiationTests, stopOnFirstFailure, o, loaded,
                State())
      ensures if o.check.Failed? then missing == [] else Lists(overrides, o.check, missing)
    {
      var check, load;
      ghost var was := State();
      check, load, missing := CheckAndLoad(overrides);
      loaded := State();
      OverWhereItGoesOn(app, depth, was, root, overrides, stopOnFirstFailure, check, load, loaded);
      phases := before + [PhaseResult(ConfigurationCheck, check), PhaseResult(ConfigurationLoad, load)];
      var rest;
      if !load.Passed? && stopOnFirstFailure {
        rest := [Skip(ServiceTagRegistration), Skip(AfterInit), Skip(BootProbe), Skip(InstantiationTests)];
        o := Outcomes(Passed, check, load, Skipped, Skipped, Skipped, Skipped);
      } else {
        rest, o := VerifyFromTags(root, runInstantiationTests, stopOnFirstFailure, depth);
      }
      FollowsTheLoad(app, depth, was, root, overrides, runInstantiationTests, stopOnFirstFailure, check, load, loaded,
                     o, State());
      phases := phases + rest;
      o := o.(registration := Passed, check := check, load := load);
    }

    /** The check registers the definitions and lists what is missing; without definitions there is nothing
        to load. */
    method CheckAndLoad(overrides: Record<Setting>) returns (check: Status, load: Status, missing: seq<Missing>)
      requires Valid() && overrides.Valid()
      modifies this`container
      ensures CheckedAndLoaded(app, old(State()), overrides, check, load, State())
      ensures if check.Failed? then missing == [] else Lists(overrides, check, missing)
    {
      var threw, manager := RegisterConfigurationDefinitions();
      if threw { return Failed, Skipped, []; }
      MissingIsExact(app.graph, instantiatedModules, overrides);
      missing := manager.GetMissingRequiredParameters(overrides);
      check := if |missing| > 0 then PassedWithWarnings else Passed;
      threw := LoadConfiguration(manager, overrides);
      load := if threw then Failed else Passed;
    }

    /** The phases of the rehearsal that follow the configuration. */
    method VerifyFromTags(root: Ref, runInstantiationTests: bool, stopOnFirstFailure: bool, ghost depth: nat)
      returns (rest: seq<PhaseResult>, ghost o: Outcomes)
      requires ValidApp(app) && root in app.graph
      requires OverFromTags(app, depth, State(), root, stopOnFirstFailure)
      modifies this`afterInstantiatedModules, this`container, this`trace
      ensures instantiatedModules == old(instantiatedModules)
      ensures rest == o.FromTags()
      ensures RehearsedFromTags(
                app, depth, old(State()), root, runInstantiationTests, stopOnFirstFailure, o, State())
    {
      var threw := RegisterNonModuleScopedServiceTags();
      var tags := if threw then Failed else Passed;
      rest := [PhaseResult(ServiceTagRegistration, tags)];
      o := Outcomes(Passed, Passed, Passed, tags, Skipped, Skipped, Skipped);
      if threw && stopOnFirstFailure {
        rest := rest + [Skip(AfterInit), Skip(BootProbe), Skip(InstantiationTests)];
        return;
      }
      threw := AfterInitModule(root, depth);
      var afterInit := if threw then Failed else Passed;
      rest := rest + [PhaseResult(AfterInit, afterInit)];
      o := o.(afterInit := afterInit);
      if threw && stopOnFirstFailure {
        rest := rest + [Skip(BootProbe), Skip(InstantiationTests)];
        return;
      }
      var probe := if app.resolvesLogHandler(container) then Passed else Failed;
      // The tests phase catches whatever a test throws.
      var tests := if runInstantiationTests then Passed else Skipped;
      rest := rest + [PhaseResult(BootProbe, probe), PhaseResult(InstantiationTests, tests)];
      o := o.(probe := probe, tests := tests);
    }

    // ------------------------------------------------------------------- shutdown

    /** Runs the `onShutdown` hooks in discovery order, once. A hook that throws or times out is a `Raised`
        result: it is logged and the next hook runs, unless the error has no message to read. */
    method Stop() returns (t: Teardown)
      requires Valid()
      modifies this`stopped, this`container
      ensures stopped && container == t.container
      ensures t == if old(stopped) then Teardown(old(container), [], [], false)
                   else TornDown(app.graph, old(container), instantiatedModules)
    {
      t := Teardown(container, [], [], false);
      if stopped { return; }
      stopped := true;
      var i := 0;
      while i < |instantiatedModules|
        invariant 0 <= i <= |instantiatedModules|
        invariant stopped && container == t.container && !t.rejected
        invariant t == TornDown(app.graph, old(container), instantiatedModules[..i])
      {
        var r := instantiatedModules[i];
        TornDownNext(app.graph, old(container), instantiatedModules, i);
        i := i + 1;
        if app.graph[r].onShutdown.None? { continue; }
        t := CallHook(t, r, app.graph[r].onShutdown.value);
        container := t.container;
        if t.rejected {
          TornDownStops(app.graph, old(container), instantiatedModules, i);
          return;
        }
      }
      assert instantiatedModules[..i] == instantiatedModules;
    }

    /** Any number of `stop` calls, from any number of signal handlers, are one: they call each hook at most
        once, and those that the first call skipped never. */
    method StopRepeatedly(times: nat) returns (reached: seq<Ref>)
      requires Valid()
      modifies this`stopped, this`container
      ensures reached == if old(stopped) || times == 0 then []
                         else TornDown(app.graph, old(container), instantiatedModules).reached
      ensures Distinct(reached)
    {
      reached := [];
      HooksOnce(app.graph, instantiatedModules);
      RejectsExactlyWhen(app.graph, container, instantiatedModules);
      var i := 0;
      while i < times
        invariant 0 <= i <= times
        invariant stopped <==> old(stopped) || i > 0
        invariant i == 0 ==> container == old(container)
        invariant reached == if old(stopped) || i == 0 then []
                             else TornDown(app.graph, old(container), instantiatedModules).reached
      {
        var t := Stop();
        reached := reached + t.reached;
        i := i + 1;
      }
    }
  }

  /** The three stretches of a visit: mark, recurse, complete. */
  lemma InitSplits(app: App, s: KernelState, r: Ref, inner: seq<Event>)
    requires r in app.graph
    ensures var marked := Perform(app, s, Instantiate(r)).state;
            var recursed := Run(app, marked, InitPlan(app, inner));
            Run(app, s, InitPlan(app, [Enter(r)] + inner + [Leave(r)]))
            == if recursed.threw then recursed else Run(app, recursed.state, Block(app, r))
  {
    InitPlanConcat(app, [Enter(r)] + inner, [Leave(r)]);
    InitPlanConcat(app, [Enter(r)], inner);
    InitPlanSingle(app, Enter(r));
    InitPlanSingle(app, Leave(r));
    RunNext(app, s, [], Instantiate(r));
    assert [] + [Instantiate(r)] == [Instantiate(r)];
    RunConcat(app, s, [Instantiate(r)], InitPlan(app, inner));
    RunConcat(app, s, [Instantiate(r)] + InitPlan(app, inner), Block(app, r));
  }
}
