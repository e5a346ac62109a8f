/** The configuration phase of a boot: when it throws, and what it has bound when it does not. */
module KernelLoad {
  import opened Common
  import opened Container
  import opened Configuration
  import opened ConfigurationPrecedence
  import opened ConfigurationTurns
  import opened ModuleGraph
  import opened KernelPlan
  import opened AfterInit
  import opened KernelPhases
  import opened KernelConfiguration

  ghost predicate SomeUndeclared(g: Graph, refs: seq<Ref>, definitions: Record<Definition>) {
    exists r, k :: r in refs && r in g && g[r].configDefaults.Has(k) && !definitions.Has(k)
  }

  lemma EntriesKeys(g: Graph, refs: seq<Ref>, k: string)
    requires ValidDefaults(g) && forall m :: m in refs ==> m in g
    ensures k in Keys(Entries(g, refs)) <==> exists r :: r in refs && g[r].configDefaults.Has(k)
  {
    EntriesMembers(g, refs);
    if k in Keys(Entries(g, refs)) {
      var e :| e in Entries(g, refs) && e.key == k;
      var r :| r in refs && SetsEntry(g[r], e);
    }
    if r :| r in refs && g[r].configDefaults.Has(k) {
      var e := Entry(g[r].keyname, k, g[r].configDefaults.values[k]);
      assert SetsEntry(g[r], e);
      assert e in Entries(g, refs) && e.key == k;
    }
  }

  /** `load` is reached exactly when no two modules disagree and every key they set is declared. */
  lemma ReachesLoadExactlyWhen(app: App, s: KernelState, definitions: Record<Definition>)
    requires ValidApp(app) && forall m :: m in s.instantiated ==> m in app.graph
    ensures ReachesLoad(app, s, definitions) <==>
              !SomeDisagree(app.graph, s.instantiated) && !SomeUndeclared(app.graph, s.instantiated, definitions)
  {
    var g, refs := app.graph, s.instantiated;
    ConflictIffModulesDisagree(g, refs);
    CollectsUnionOrConflict(Entries(g, refs));
    forall k ensures k in Keys(Entries(g, refs)) <==> exists r :: r in refs && g[r].configDefaults.Has(k) {
      EntriesKeys(g, refs, k);
    }
    if Collect(Entries(g, refs)).Collected? {
      DeclaredIffWithin(g, refs, Keys(Entries(g, refs)), definitions);
    }
  }

  lemma DeclaredIffWithin(g: Graph, refs: seq<Ref>, keys: set<string>, definitions: Record<Definition>)
    requires forall m :: m in refs ==> m in g
    requires forall k :: k in keys <==> exists r :: r in refs && g[r].configDefaults.Has(k)
    ensures keys <= definitions.values.Keys <==> !SomeUndeclared(g, refs, definitions)
  {
    if r, k :| r in refs && r in g && g[r].configDefaults.Has(k) && !definitions.Has(k) {
      assert k in keys;
    }
    if k :| k in keys && !definitions.Has(k) {
      var r :| r in refs && g[r].configDefaults.Has(k);
    }
  }

  ghost predicate SomeStray(app: App, definitions: Record<Definition>, overrides: Record<Setting>) {
    exists k :: (overrides.Has(k) || app.fileConfig.Has(k)) && !definitions.Has(k)
  }

  lemma UnknownIsStray(app: App, s: KernelState, definitions: Record<Definition>, overrides: Record<Setting>)
    requires ValidApp(app) && overrides.Valid() && ReachesLoad(app, s, definitions)
    ensures SomeUnknown(definitions, Settings(app, s, overrides)) <==> SomeStray(app, definitions, overrides)
  {
    var es := Entries(app.graph, s.instantiated);
    var defaults, merged := Collect(es).merged, Settings(app, s, overrides);
    CollectsUnionOrConflict(es);
    forall k | !definitions.Has(k) ensures merged.Has(k) <==> overrides.Has(k) || app.fileConfig.Has(k) {
      MergedIsExplicit(defaults, app.fileConfig, overrides, k);
    }
    if k :| k in merged.values && k !in definitions.values {
      assert merged.Has(k) && !definitions.Has(k);
    }
    if k :| (overrides.Has(k) || app.fileConfig.Has(k)) && !definitions.Has(k) {
      assert k in merged.values;
    }
  }

  /** The configuration phase returns exactly when no two instantiated modules disagree on a key, no module,
      override or file sets a key that no module declares, and each declared key has a value at its turn. */
  lemma LoadPhaseReturnsExactlyWhen(app: App, s: KernelState, definitions: Record<Definition>,
      overrides: Record<Setting>)
    requires ValidApp(app) && definitions.Valid() && overrides.Valid()
    requires forall m :: m in s.instantiated ==> m in app.graph
    ensures !LoadPhase(app, s, definitions, overrides).threw <==>
      && !SomeDisagree(app.graph, s.instantiated)
      && !SomeUndeclared(app.graph, s.instantiated, definitions)
      && !SomeStray(app, definitions, overrides)
      && EachHasValue(app, s, definitions, overrides)
  {
    ReachesLoadExactlyWhen(app, s, definitions);
    if ReachesLoad(app, s, definitions) {
      LoadThrowsExactlyWhen(definitions, s.container, Settings(app, s, overrides));
      UnknownIsStray(app, s, definitions, overrides);
    }
  }

  /** The container that `load` leaves is the last of those that the turns of the keys lead through. */
  ghost predicate LeavesTurns(app: App, s: KernelState, definitions: Record<Definition>, overrides: Record<Setting>,
      state: KernelState, cs: seq<Container>)
    requires ValidApp(app) && definitions.Valid() && overrides.Valid() && ReachesLoad(app, s, definitions)
  {
    var settings := Settings(app, s, overrides);
    && (exists crashed :: Turns(definitions.values, settings.values, BindOrder(definitions, settings), cs, crashed))
    && cs[0] == s.container && state == s.(container := cs[|cs| - 1])
  }

  lemma LoadLeavesTurns(app: App, s: KernelState, definitions: Record<Definition>, overrides: Record<Setting>)
      returns (cs: seq<Container>)
    requires ValidApp(app) && definitions.Valid() && overrides.Valid() && ReachesLoad(app, s, definitions)
    ensures LeavesTurns(app, s, definitions, overrides, LoadPhase(app, s, definitions, overrides).state, cs)
  {
    cs := LoadTakesTurns(definitions, s.container, Settings(app, s, overrides));
  }

  /** However the phase ends: it changes nothing when two modules disagree or set an undeclared key, and otherwise it
      leaves the container that the turns of the keys have come to. */
  lemma LoadPhaseTakesTurns(app: App, s: KernelState, definitions: Record<Definition>, overrides: Record<Setting>)
      returns (cs: seq<Container>)
    requires ValidApp(app) && definitions.Valid() && overrides.Valid()
    requires forall m :: m in s.instantiated ==> m in app.graph
    ensures var state := LoadPhase(app, s, definitions, overrides).state;
            if SomeDisagree(app.graph, s.instantiated) || SomeUndeclared(app.graph, s.instantiated, definitions)
            then state == s
            else ReachesLoad(app, s, definitions) && LeavesTurns(app, s, definitions, overrides, state, cs)
  {
    ReachesLoadExactlyWhen(app, s, definitions);
    if ReachesLoad(app, s, definitions) {
      cs := LoadLeavesTurns(app, s, definitions, overrides);
    } else {
      cs := [];
    }
  }

  ghost predicate EachHasValue(app: App, s: KernelState, definitions: Record<Definition>, overrides: Record<Setting>)
    requires ValidApp(app) && definitions.Valid() && overrides.Valid()
  {
    ReachesLoad(app, s, definitions) ==>
      && !SomeUnresolvable(definitions, s.container, Settings(app, s, overrides))
      && !SomeUnsatisfied(definitions, s.container, Settings(app, s, overrides))
  }

  /** A key that `load` rejects as unknown comes from the overrides or the file, never from a module. */
  lemma UnknownKeysAreNotDefaults(
      app: App, s: KernelState, definitions: Record<Definition>, overrides: Record<Setting>, key: string)
    requires ValidApp(app) && definitions.Valid() && overrides.Valid()
    requires forall m :: m in s.instantiated ==> m in app.graph
    requires ReachesLoad(app, s, definitions)
    requires var p := BothPasses(definitions, s.container, Settings(app, s, overrides));
             !p.crashed && UnknownKey(key) in p.errors
    ensures overrides.Has(key) || app.fileConfig.Has(key)
    ensures !definitions.Has(key) && forall m :: m in s.instantiated ==> !app.graph[m].configDefaults.Has(key)
  {
    var es := Entries(app.graph, s.instantiated);
    CollectsUnionOrConflict(es);
    EntriesKeys(app.graph, s.instantiated, key);
    DeclaredDefaultsAreNeverUnknown(definitions, s.container, Collect(es).merged, app.fileConfig, overrides, key);
    LoadErrorsExactly(definitions, s.container, Settings(app, s, overrides));
  }

  // ---------------------------------------------------------------------- a whole boot

  /** What a boot has bound when the tags phase begins: exactly one binding for each parameter that the
      instantiated modules declare, after whatever the init walk has left in the container, each to the
      highest of override, file, `configDefaults`, default resolver and default value, as resolved at its
      turn. The rest of the boot starts from there. */
  lemma BootedBindsEachParameter(
      app: App, depth: nat, s: KernelState, root: Ref, overrides: Record<Setting>) returns (added: seq<Binding>)
    requires ValidApp(app) && root in app.graph && overrides.Valid()
    requires Returns(Booted(app, depth, s, root, overrides))
    ensures var s1 := InitPhase(app, s, root).state;
            && !InitPhase(app, s, root).threw && DefinitionPhase(app, s1).Some?
            && DefinitionPhase(app, s1).value.Valid()
            && BindsDeclared(app, s1, DefinitionPhase(app, s1).value, overrides, added)
            && Booted(app, depth, s, root, overrides)
               == BootedFromTags(app, depth, s1.(container := WithBindings(s1.container, added)), root)
  {
    var s1 := InitPhase(app, s, root).state;
    DeclaresIffDistinct(Declared(app.graph, s1.instantiated));
    var definitions := DefinitionPhase(app, s1).value;
    added := LoadBinds(app, s1, definitions, overrides);
  }

  ghost function WithBindings(container: Container, added: seq<Binding>): Container {
    container.(bindings := container.bindings + added)
  }

  /** Each key has the setting of the highest layer that has it, and no other key has one. */
  ghost predicate ByLayers(overrides: Record<Setting>, file: Record<Setting>, defaults: Record<Setting>,
      settings: Record<Setting>)
  {
    forall k ::
      if overrides.Has(k) then settings.Has(k) && settings.values[k] == overrides.values[k]
      else if file.Has(k) then settings.Has(k) && settings.values[k] == file.values[k]
      else if defaults.Has(k) then settings.Has(k) && settings.values[k] == defaults.values[k]
      else !settings.Has(k)
  }

  lemma MergedByLayers(overrides: Record<Setting>, file: Record<Setting>, defaults: Record<Setting>)
    requires overrides.Valid() && file.Valid() && defaults.Valid()
    ensures ByLayers(overrides, file, defaults, Merged(defaults, file, overrides))
  {
    var merged := Merged(defaults, file, overrides);
    forall k
      ensures if overrides.Has(k) then merged.Has(k) && merged.values[k] == overrides.values[k]
              else if file.Has(k) then merged.Has(k) && merged.values[k] == file.values[k]
              else if defaults.Has(k) then merged.Has(k) && merged.values[k] == defaults.values[k]
              else !merged.Has(k)
    {
      MergedIsExplicit(defaults, file, overrides, k);
    }
  }

  ghost predicate BindsDeclared(
      app: App, s: KernelState, definitions: Record<Definition>, overrides: Record<Setting>, added: seq<Binding>)
    requires ValidApp(app) && definitions.Valid() && overrides.Valid()
  {
    && ReachesLoad(app, s, definitions)
    && IsUnion(Entries(app.graph, s.instantiated), Collect(Entries(app.graph, s.instantiated)))
    && ByLayers(overrides, app.fileConfig, Collect(Entries(app.graph, s.instantiated)).merged,
                Settings(app, s, overrides))
    && definitions.values.Keys == ParameterNames(Declared(app.graph, s.instantiated))
    && var order := BindOrder(definitions, Settings(app, s, overrides));
       && Distinct(order) && (forall k :: k in order <==> definitions.Has(k))
       && BindsEach(definitions.values, Settings(app, s, overrides).values, s.container, order, added)
  }

  lemma LoadBinds(app: App, s: KernelState, definitions: Record<Definition>, overrides: Record<Setting>)
      returns (added: seq<Binding>)
    requires ValidApp(app) && overrides.Valid()
    requires DefinitionPhase(app, s) == Some(definitions) && definitions.Valid()
    requires !LoadPhase(app, s, definitions, overrides).threw
    ensures BindsDeclared(app, s, definitions, overrides, added)
    ensures LoadPhase(app, s, definitions, overrides).state == s.(container := WithBindings(s.container, added))
  {
    CollectsUnionOrConflict(Entries(app.graph, s.instantiated));
    DeclaresIffDistinct(Declared(app.graph, s.instantiated));
    MergedByLayers(overrides, app.fileConfig, Collect(Entries(app.graph, s.instantiated)).merged);
    added := LoadedBindsEachKeyOnce(definitions, s.container, Settings(app, s, overrides));
  }
}
