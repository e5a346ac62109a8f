/** The phases of a boot as functions of the kernel's state, and `start` as their sequence. */
module KernelPhases {
  import opened Common
  import opened Container
  import opened Configuration
  import opened ModuleGraph
  import opened KernelPlan
  import opened AfterInit
  import opened KernelConfiguration

  const InstantiationId: Registration := Registration("$kernel.instantiation_id$", 0)

  ghost predicate ValidApp(app: App) {
    Closed(app.graph) && ValidDefaults(app.graph) && app.fileConfig.Valid()
  }

  ghost function WithInstantiationId(s: KernelState): KernelState {
    s.(container := s.container.(registrations := s.container.registrations + [InstantiationId]))
  }

  ghost function InitPhase(app: App, s: KernelState, root: Ref): Ran
    requires ValidApp(app) && root in app.graph
  {
    Run(app, WithInstantiationId(s), InitPlan(app, Walk(app.graph, Keynames(app.graph, s.instantiated), root)))
  }

  ghost function DefinitionPhase(app: App, s: KernelState): Option<Record<Definition>> {
    if app.resolvesConfigurationManager(s.container) then DeclareAll(Empty(), Declared(app.graph, s.instantiated))
    else None
  }

  /** The modules' `configDefaults` agree and set declared keys only: `load` is reached. */
  ghost predicate ReachesLoad(app: App, s: KernelState, definitions: Record<Definition>)
    requires ValidApp(app)
  {
    var collected := Collect(Entries(app.graph, s.instantiated));
    collected.Collected? && collected.merged.Valid() && collected.sourceByKey.values.Keys <= definitions.values.Keys
  }

  /** The explicit values that `load` is given: overrides, file, `configDefaults`. */
  ghost function Settings(app: App, s: KernelState, overrides: Record<Setting>): (m: Record<Setting>)
    requires ValidApp(app) && overrides.Valid()
    requires Collect(Entries(app.graph, s.instantiated)).Collected?
    requires Collect(Entries(app.graph, s.instantiated)).merged.Valid()
    ensures m.Valid()
  {
    Merged(Collect(Entries(app.graph, s.instantiated)).merged, app.fileConfig, overrides)
  }

  /** `loadConfiguration`: collect, validate, load. */
  ghost function LoadPhase(app: App, s: KernelState, definitions: Record<Definition>, overrides: Record<Setting>): Ran
    requires ValidApp(app) && definitions.Valid() && overrides.Valid()
  {
    if !ReachesLoad(app, s, definitions) then Ran(s, true)
    else
      var p := BothPasses(definitions, s.container, Settings(app, s, overrides));
      Ran(s.(container := p.container), !Configuration.Outcome(p).Loaded?)
  }

  ghost function TagPhase(app: App, s: KernelState): Ran {
    Run(app, s, UnscopedTagActions(app, |app.tags|))
  }

  /** The phases of `start` that follow the configuration; None when `afterInitModule` is not over within
      `depth` nested calls. */
  ghost function BootedFromTags(app: App, depth: nat, s: KernelState, root: Ref): Option<Ran>
    requires ValidApp(app) && root in app.graph
  {
    var tagged := TagPhase(app, s);
    if tagged.threw then Some(tagged)
    else
      match AfterWithin(app, tagged.state, root, depth)
      case None => None
      case Some(completed) =>
        Some(Ran(completed.state, completed.threw || !app.resolvesLogHandler(completed.state.container)))
  }

  /** The phases of `start` that follow the registration of the modules. */
  ghost function BootedFromConfiguration(
      app: App, depth: nat, s: KernelState, root: Ref, overrides: Record<Setting>): Option<Ran>
    requires ValidApp(app) && root in app.graph && overrides.Valid()
  {
    match DefinitionPhase(app, s)
    case None => Some(Ran(s, true))
    case Some(definitions) =>
      DeclaresIffDistinct(Declared(app.graph, s.instantiated));
      var loaded := LoadPhase(app, s, definitions, overrides);
      if loaded.threw then Some(loaded) else BootedFromTags(app, depth, loaded.state, root)
  }

  /** `start`: each phase on the state the previous one left, until one throws. */
  ghost function Booted(app: App, depth: nat, s: KernelState, root: Ref, overrides: Record<Setting>): Option<Ran>
    requires ValidApp(app) && root in app.graph && overrides.Valid()
  {
    var initialized := InitPhase(app, s, root);
    if initialized.threw then Some(initialized)
    else BootedFromConfiguration(app, depth, initialized.state, root, overrides)
  }

  // ------------------------------------------------------------------- a rehearsal

  /** A rehearsal that carries on comes to `afterInitModule` in states that `start` does not; it needs that call
      to be over there too. */
  ghost predicate OverFromTags(app: App, depth: nat, s: KernelState, root: Ref, halts: bool)
    requires ValidApp(app) && root in app.graph
  {
    var tagged := TagPhase(app, s);
    (tagged.threw && halts) || AfterWithin(app, tagged.state, root, depth).Some?
  }

  ghost predicate OverFromConfiguration(
      app: App, depth: nat, s: KernelState, root: Ref, overrides: Record<Setting>, halts: bool)
    requires ValidApp(app) && root in app.graph && overrides.Valid()
  {
    match DefinitionPhase(app, s)
    case None => halts || OverFromTags(app, depth, s, root, halts)
    case Some(definitions) =>
      DeclaresIffDistinct(Declared(app.graph, s.instantiated));
      var loaded := LoadPhase(app, s, definitions, overrides);
      (loaded.threw && halts) || OverFromTags(app, depth, loaded.state, root, halts)
  }

  ghost predicate RehearsalOver(
      app: App, depth: nat, s: KernelState, root: Ref, overrides: Record<Setting>, halts: bool)
    requires ValidApp(app) && root in app.graph && overrides.Valid()
  {
    var initialized := InitPhase(app, s, root);
    initialized.threw || OverFromConfiguration(app, depth, initialized.state, root, overrides, halts)
  }

  // ----------------------------------------------------------------------- report

  datatype Phase =
    | ModuleRegistration | ConfigurationCheck | ConfigurationLoad | ServiceTagRegistration
    | AfterInit | BootProbe | InstantiationTests

  datatype Status = Passed | PassedWithWarnings | Failed | Skipped

  datatype PhaseResult = PhaseResult(phase: Phase, status: Status)

  datatype InstantiationReport = InstantiationReport(
    phases: seq<PhaseResult>, missingRequiredConfiguration: seq<Missing>)

  function Result(phase: Phase, threw: bool): PhaseResult {
    PhaseResult(phase, if threw then Failed else Passed)
  }

  function Skip(phase: Phase): PhaseResult {
    PhaseResult(phase, Skipped)
  }

  /** The outcome of each phase of one verification. */
  datatype Outcomes = Outcomes(
    registration: Status, check: Status, load: Status, tags: Status, afterInit: Status, probe: Status, tests: Status)
  {
    /** The seven phases, each once, in the order of the enumeration. */
    ghost function Listed(): seq<PhaseResult> {
      [PhaseResult(ModuleRegistration, registration), PhaseResult(ConfigurationCheck, check),
       PhaseResult(ConfigurationLoad, load)] + FromTags()
    }

    ghost function FromTags(): seq<PhaseResult> {
      [PhaseResult(ServiceTagRegistration, tags), PhaseResult(AfterInit, afterInit),
       PhaseResult(BootProbe, probe), PhaseResult(InstantiationTests, tests)]
    }

    /** The first six phases passed, possibly with warnings. */
    ghost predicate BootsFine() {
      Fine(registration) && Fine(check) && Fine(load) && TagsOnFine()
    }

    ghost predicate TagsOnFine() {
      Fine(tags) && Fine(afterInit) && Fine(probe)
    }

    /** Halting at the first failure: a failed phase before the probe leaves all later ones skipped. */
    ghost predicate HaltsAtFailure() {
      && (registration.Failed? ==> check.Skipped? && load.Skipped? && TagsOnSkipped())
      && (check.Failed? ==> load.Skipped? && TagsOnSkipped())
      && (load.Failed? ==> TagsOnSkipped())
      && TagsOnHalt()
    }

    ghost predicate TagsOnSkipped() {
      tags.Skipped? && afterInit.Skipped? && probe.Skipped? && tests.Skipped?
    }

    ghost predicate TagsOnHalt() {
      && (tags.Failed? ==> afterInit.Skipped? && probe.Skipped? && tests.Skipped?)
      && (afterInit.Failed? ==> probe.Skipped? && tests.Skipped?)
    }

    /** Carrying on after failures: only a load without definitions, and tests not asked for, are skipped. */
    ghost predicate CarriesOn(runTests: bool) {
      && !check.Skipped? && (load.Skipped? <==> check.Failed?) && TagsOnRun() && (tests.Skipped? <==> !runTests)
    }

    ghost predicate TagsOnRun() {
      !tags.Skipped? && !afterInit.Skipped? && !probe.Skipped?
    }
  }

  predicate Fine(status: Status) {
    status.Passed? || status.PassedWithWarnings?
  }

  /** The seven phases, each once and in order. */
  ghost predicate ListsPhases(phases: seq<PhaseResult>, o: Outcomes) {
    phases == [
      PhaseResult(ModuleRegistration, o.registration), PhaseResult(ConfigurationCheck, o.check),
      PhaseResult(ConfigurationLoad, o.load), PhaseResult(ServiceTagRegistration, o.tags),
      PhaseResult(AfterInit, o.afterInit), PhaseResult(BootProbe, o.probe), PhaseResult(InstantiationTests, o.tests)]
  }

  lemma ListedInOrder(o: Outcomes)
    ensures ListsPhases(o.Listed(), o)
  {
  }

  /** The report of a rehearsal that ends with the registration of the modules. */
  function Halted(): InstantiationReport {
    InstantiationReport(
      [Result(ModuleRegistration, true), Skip(ConfigurationCheck), Skip(ConfigurationLoad),
       Skip(ServiceTagRegistration), Skip(AfterInit), Skip(BootProbe), Skip(InstantiationTests)], [])
  }

  /** What the check and the load of the configuration come to, from `s` to `s'`. */
  ghost predicate CheckedAndLoaded(
      app: App, s: KernelState, overrides: Record<Setting>, check: Status, load: Status, s': KernelState)
    requires ValidApp(app) && overrides.Valid()
  {
    match DefinitionPhase(app, s)
    case None => check == Failed && load == Skipped && s' == s
    case Some(definitions) =>
      && definitions.Valid() && Fine(check) && load == (if load.Failed? then Failed else Passed)
      && Ran(s', load.Failed?) == LoadPhase(app, s, definitions, overrides)
  }

  /** What the phases from the tags on come to, from `s` to `s'`. */
  ghost predicate RehearsedFromTags(app: App, depth: nat, s: KernelState, root: Ref, runTests: bool, halts: bool,
      o: Outcomes, s': KernelState)
    requires ValidApp(app) && root in app.graph
  {
    var tagged := TagPhase(app, s);
    && o.tags == (if tagged.threw then Failed else Passed)
    && if tagged.threw && halts then o.afterInit == o.probe == o.tests == Skipped && s' == tagged.state
       else
         var completed := AfterWithin(app, tagged.state, root, depth);
         && completed.Some? && s' == completed.value.state
         && o.afterInit == (if completed.value.threw then Failed else Passed)
         && if completed.value.threw && halts then o.probe == o.tests == Skipped
            else
              && o.probe == (if app.resolvesLogHandler(s'.container) then Passed else Failed)
              && o.tests == (if runTests then Passed else Skipped)
  }

  ghost predicate RehearsedFromConfiguration(app: App, depth: nat, s: KernelState, root: Ref,
      overrides: Record<Setting>, runTests: bool, halts: bool, o: Outcomes, loaded: KernelState, s': KernelState)
    requires ValidApp(app) && root in app.graph && overrides.Valid()
  {
    && o.registration == Passed
    && CheckedAndLoaded(app, s, overrides, o.check, o.load, loaded)
    && if o.load != Passed && halts then o.TagsOnSkipped() && s' == loaded
       else RehearsedFromTags(app, depth, loaded, root, runTests, halts, o, s')
  }

  /** Each phase takes the state that the phase before has left, even by failing, and reports whether it failed;
      those that are not run are reported as skipped. */
  ghost predicate Rehearsed(app: App, depth: nat, s: KernelState, root: Ref, overrides: Record<Setting>,
      runTests: bool, halts: bool, o: Outcomes, s': KernelState)
    requires ValidApp(app) && root in app.graph && overrides.Valid()
  {
    var initialized := InitPhase(app, s, root);
    if initialized.threw then
      o.registration == Failed && o.check == o.load == Skipped && o.TagsOnSkipped() && s' == initialized.state
    else
      exists loaded ::
        RehearsedFromConfiguration(app, depth, initialized.state, root, overrides, runTests, halts, o, loaded, s')
  }

  lemma TagsOnMatchStart(app: App, depth: nat, s: KernelState, root: Ref, runTests: bool, halts: bool,
      o: Outcomes, s': KernelState)
    requires ValidApp(app) && root in app.graph
    requires RehearsedFromTags(app, depth, s, root, runTests, halts, o, s')
    ensures o.TagsOnFine() <==> Returns(BootedFromTags(app, depth, s, root))
    ensures o.TagsOnFine() ==> Some(Ran(s', false)) == BootedFromTags(app, depth, s, root)
    ensures if halts then o.TagsOnHalt() else o.TagsOnRun() && (o.tests.Skipped? <==> !runTests)
  {
  }

  lemma ConfigurationOnMatchesStart(app: App, depth: nat, s: KernelState, root: Ref, overrides: Record<Setting>,
      runTests: bool, halts: bool, o: Outcomes, loaded: KernelState, s': KernelState)
    requires ValidApp(app) && root in app.graph && overrides.Valid()
    requires RehearsedFromConfiguration(app, depth, s, root, overrides, runTests, halts, o, loaded, s')
    ensures o.BootsFine() <==> Returns(BootedFromConfiguration(app, depth, s, root, overrides))
    ensures o.BootsFine() ==> Some(Ran(s', false)) == BootedFromConfiguration(app, depth, s, root, overrides)
    ensures if halts then o.HaltsAtFailure() else o.CarriesOn(runTests)
  {
    if o.load == Passed || !halts {
      TagsOnMatchStart(app, depth, loaded, root, runTests, halts, o, s');
    }
  }

  /** A rehearsal finds its first six phases fine exactly when `start` would return, and then leaves what `start`
      leaves; told to stop at the first failure, it skips all that follows it, and otherwise skips nothing but a load
      without definitions and tests not asked for. */
  lemma RehearsalMatchesStart(app: App, depth: nat, s: KernelState, root: Ref, overrides: Record<Setting>,
      runTests: bool, halts: bool, o: Outcomes, s': KernelState)
    requires ValidApp(app) && root in app.graph && overrides.Valid()
    requires Rehearsed(app, depth, s, root, overrides, runTests, halts, o, s')
    ensures o.BootsFine() <==> Returns(Booted(app, depth, s, root, overrides))
    ensures o.BootsFine() ==> Some(Ran(s', false)) == Booted(app, depth, s, root, overrides)
    ensures if halts || o.registration.Failed? then o.HaltsAtFailure() else o.CarriesOn(runTests)
  {
    var initialized := InitPhase(app, s, root);
    if !initialized.threw {
      var loaded :|
        RehearsedFromConfiguration(app, depth, initialized.state, root, overrides, runTests, halts, o, loaded, s');
      ConfigurationOnMatchesStart(
        app, depth, initialized.state, root, overrides, runTests, halts, o, loaded, s');
    }
  }

  /** The later phases put behind the check and the load. */
  lemma FollowsTheLoad(app: App, depth: nat, s: KernelState, root: Ref, overrides: Record<Setting>, runTests: bool,
      halts: bool, check: Status, load: Status, loaded: KernelState, later: Outcomes, s': KernelState)
    requires ValidApp(app) && root in app.graph && overrides.Valid()
    requires CheckedAndLoaded(app, s, overrides, check, load, loaded)
    requires if load != Passed && halts then later.TagsOnSkipped() && s' == loaded
             else RehearsedFromTags(app, depth, loaded, root, runTests, halts, later, s')
    ensures var o := later.(registration := Passed, check := check, load := load);
            && RehearsedFromConfiguration(app, depth, s, root, overrides, runTests, halts, o, loaded, s')
            && o.Listed() == [Result(ModuleRegistration, false)]
                             + [PhaseResult(ConfigurationCheck, check), PhaseResult(ConfigurationLoad, load)]
                             + later.FromTags()
  {
  }

  /** Where the rehearsal goes on from the check and the load, `afterInitModule` is over there too. */
  lemma OverWhereItGoesOn(app: App, depth: nat, s: KernelState, root: Ref, overrides: Record<Setting>, halts: bool,
      check: Status, load: Status, s': KernelState)
    requires ValidApp(app) && root in app.graph && overrides.Valid()
    requires CheckedAndLoaded(app, s, overrides, check, load, s')
    requires OverFromConfiguration(app, depth, s, root, overrides, halts)
    ensures (!load.Passed? && halts) || OverFromTags(app, depth, s', root, halts)
  {
  }
}
