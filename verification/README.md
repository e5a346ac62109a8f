# Pristine in Dafny

A model of the parts of the Pristine framework whose behaviour is hardest to see by reading one function at a time,
with proofs of what those parts promise.

- **The boot kernel** (`ModuleGraph`, `ModuleOrder`, `ModuleCycles`, `AfterInit`, `AfterInitDepth`, `ModuleWrapping`,
  `ShutdownOrder`, `TeardownOrder`, `KernelPlan`, `KernelPhases`, `KernelConfiguration`, `KernelDefaults`,
  `KernelLoad`, `KernelMissing`, `KernelShutdown`, `KernelTeardown`, `Kernel`, `KernelBoot`, `KernelRegistrations`,
  `KernelContainers`, `KernelReturn`). An application is a graph of modules. The kernel marks a module and then
  recurses into its imports (`initModule`), or recurses and then looks (`afterInitModule`); it merges
  `configDefaults`, registers providers, runs hooks, rehearses a boot phase by phase, and shuts down. A boot is a plan
  of actions read off the walk of the graph; the class `Kernel` is proved to perform that plan, up to the action that
  throws. What the plan registers, and in which order, is then proved of the graph and the registry of tags alone.
- **Configuration loading** (`Configuration`, `ConfigurationPrecedence`, `ConfigurationTurns`). `load` drains a
  dictionary of definitions in two passes. It is proved to refine a one-pass reference in which every key in turn
  takes the value of its highest-precedence source, against the container as it stands at that step.
- **Deep merge** (`DeepMergeLaws`, `ObjectUtil`). `deepMerge` on a heap of objects and arrays, proved to write only
  into containers of its own and to compute a function on values, whose algebra is then proved.
- **The request pipeline** (`Router`, `RouterOrder`, `RouterGates`, `RouterAnswers`, `RouterOutcome`,
  `RouterReplies`). `Router.execute` as the trace of its effects, in surroundings whose every reply may depend on
  everything that happened before.
- **The deployment poller** (`Cloudformation`, `CloudformationCalls`), **the command line** (`CommandEventMapper`,
  `CommandTokens`), **raw terminal input** (`TerminalKeys`, `TerminalPrompts`), and **the duration printer**
  (`DateUtil`).

`Common` holds optional values, insertion-ordered dictionaries, and the positions that a filter picks from a list;
`Container` is the dependency-injection container as a log of registrations and a log of bound values. Awaits are step
boundaries. Hooks, resolvers, interceptors and remote services are parameters: functions of the state they can see, or
sequences of replies.

`dafny verify dfyconfig.toml` checks the whole project.

## Where the code and its documentation disagree

The model follows the code.

- `stop` is documented to run hooks "in reverse instantiation order" (`packages/core/src/kernel.ts:297-299`) and
  "outer-to-inner" (`packages/common/src/interfaces/module.interface.ts:79-82`). It runs them in discovery order. The
  first holds exactly when the modules form a chain (`ShutdownReversesInitIffChain`). The second, importers before
  what they import, holds exactly when no reachable module transitively imports itself and each import of a reachable
  module is either reached by its earlier imports or reaches nothing that they reach (`OuterFirstIffUntangled`); in a
  diamond the shared import is shut down before its second importer (`DiamondShutsDownSharedEarly`). On every graph
  `ShutdownFollowsAnImporter` holds.
- `stop` is documented to go on with the next hook when one throws (`packages/core/src/kernel.ts:304-307`,
  `docs/getting-started/12-production/02.graceful-shutdown.md:99-100`). A hook that throws or rejects with `undefined`
  or `null` makes the error handler itself throw, because it reads the message (`packages/core/src/kernel.ts:350`):
  `stop` rejects, the later hooks never run, and a second call does nothing. It rejects exactly when some hook does so
  at its turn, and all hooks run exactly when none before the last does (`RejectsExactlyWhen`,
  `UndefinedSkipsTheRest`).
- `afterInitModule` recurses before it looks at what is done, so from a module that reaches an import cycle it does
  not return, although `initModule` does (`RecursionEndsIffAcyclic`); it ends there only if an `afterInit` hook that
  comes first throws (`OverUnlessCyclic`), and then without nesting deeper than there are modules
  (`OverIffOverBySize`), or when the stack overflows.
- `deepMerge` is documented to share no references with its inputs (`packages/common/src/utils/object.util.ts:20-21`).
  That holds for plain objects and arrays. A class instance, date or function is shared exactly when the last source
  to set a leaf at some path holds it there (`SharesIffGiven`), as in `DateIsShared`.
- `execute` is meant to answer every request (`packages/networking/src/router.ts:184-185`). Its promise never settles
  in exactly these cases (`UnsettledExactlyWhen`): the URL does not parse
  (`packages/networking/src/utils/url.util.ts:72-79`), the controller of the route cannot be resolved, or `undefined`
  or `null` is thrown into one of the two catch blocks, which read the message of what they catch. There is an input
  for each (`UnparsedUrlHangs`, `UnresolvedControllerHangs`, `UndefinedErrorHangs`).
- Wrapping an application under `.with-cli` is described as harmless when the CLI module is already there
  (`packages/cli/src/cli.ts:142-145`). It is, exactly when no reached module already carries the wrapper's keyname
  (`WrapTransparentIffKeynameFresh`); otherwise that module is never initialised (`TakenKeynameHidesAModule`).
- A positional argument spelled `_` overwrites the list of positionals it is stored beside, so the list restarts
  (`KeptAllIff`, `UnderscoreDropsTheFirst`).
- Interceptors: returning `undefined` is documented to drop the request
  (`docs/getting-started/03-controllers/06.interceptors.md:135-136`), but it keeps it; interceptors of equal priority
  are documented to have no defined order (`:140-141`), but the sort is stable (`PriorityOrder`); throws are
  documented to be answered from stages 3 to 7 (`docs/getting-started/03-controllers/00.index.md:79`), but a throwing
  response interceptor is answered too, and the response interceptors then run on a second response
  (`ErrorIsExplained`); a failed authentication is documented as a 403, but defaults to a 401 (`AuthenticationError`).
- `Backspace` is documented to erase one character (`packages/cli/src/managers/cli-prompt.manager.ts:151-153`). It
  erases one UTF-16 code unit, so it undoes a character exactly when that is one unit (`BackspaceUndoesIff`).
- A chunk of input may carry several keys (`packages/cli/src/utils/terminal-key-decoder.ts:8-11`), but a chunk that
  starts with an escape is one key. Two arrows in one chunk are a key that nobody acts on (`TwoArrowsAreLost`), and a
  secret's Enter that shares its chunk with an earlier escape is lost (`SecretIsPlainText`). Cutting a text into two
  chunks makes no difference exactly under the condition of `DecodingAddsUpIff`.

## Model

| member | source | states |
|---|---|---|
| ModuleOrder.WalkVisitsExactlyReachable | packages/core/src/kernel.ts:463-486 | on every finite graph, cyclic or not, the check-mark-recurse walk enters exactly the modules reachable from the root, and no keyname twice |
| ModuleOrder.WalkVisits | packages/core/src/kernel.ts:465-511 | a walk enters only unmarked keynames, each once, and leaves each module it enters exactly once: one span per newly instantiated module |
| ModuleOrder.AfterInitOrderEqualsOnInitOrder | packages/core/src/kernel.ts:630-648 | on an acyclic graph recurse-then-check completes `afterInit` in the very order in which `initModule` completes `onInit`, once for each reachable module |
| ModuleOrder.AfterOrderIsLeaveOrder | packages/core/src/kernel.ts:630-648 | the same from any point of a boot: with some modules done and some importers still under way, both walks complete the same modules in the same order |
| ModuleOrder.AfterOrderImportsFirst | packages/core/src/kernel.ts:631-647 | `afterInit` of a module completes after those of all its direct imports |
| ModuleOrder.TransitiveImportsFirst | packages/common/src/interfaces/module.interface.ts:15-19 | an order in which direct imports come first has every transitive import first |
| ModuleCycles.RecursionEndsIffAcyclic | packages/core/src/kernel.ts:630-636 | the unchecked recursion of `afterInitModule` is finite from a module if and only if nothing that this module reaches transitively imports itself |
| ModuleCycles.CycleNeverEnds | packages/core/src/kernel.ts:630-636 | from a module on a cycle no depth of recursion suffices |
| ModuleCycles.RankedIffAcyclic | packages/core/src/kernel.ts:630-636 | modules can be ranked along imports from a root down if and only if the root reaches no cycle |
| ModuleCycles.ImportsInitialisedFirstIffAcyclic | packages/common/src/interfaces/module.interface.ts:15-19 | from a given root, every import is initialised before its importers if and only if the root reaches no cycle |
| AfterInit.OverUnlessCyclic | packages/core/src/kernel.ts:630-648 | from a module that reaches no cycle the run of `afterInitModule` is over in every state, whatever throws; from one that does, it never returns: it is over only if a hook throws |
| AfterInitDepth.OverIffOverBySize | packages/core/src/kernel.ts:630-648 | on any graph and in any state, the run is over, by returning or by a hook that throws, if and only if it is over without nesting deeper than there are modules |
| AfterInit.AfterFollowsOrder | packages/core/src/kernel.ts:630-648 | where the recursion ends, the run completes the modules in the recurse-then-check order, up to the hook that throws, from any set of modules already done |
| AfterInit.ReturnsInInitOrder | packages/core/src/kernel.ts:630-648 | a run that returns, on any graph, has run the hooks in the order in which `onInit` ran |
| ModuleWrapping.CollectModules | packages/cli/src/commands/info.command.ts:107-122 | the list that `pristine info` prints is the kernel's insertion order of `instantiatedModules`, on every graph |
| ModuleWrapping.ModuleCollector.Walk | packages/cli/src/commands/info.command.ts:111-118 | the recursive closure appends exactly what the walk of the module enters and marks exactly those keynames |
| ModuleWrapping.WrapTransparentIffKeynameFresh | packages/cli/src/cli.ts:142-153 | a wrapper puts exactly one module around the walk of the list it imports if and only if nothing that the list reaches carries the wrapper's keyname |
| ModuleWrapping.TakenKeynameHidesAModule | packages/cli/src/cli.ts:142-153 | an application, one of whose modules is called as the wrapper will be, that loses this module when it is wrapped |
| ModuleWrapping.WrapWithCli | packages/cli/src/cli.ts:147-153 | the wrapped application initialises as the original, then what the CLI module newly brings, then the wrapper; nothing in between when the CLI module is already reached |
| ModuleWrapping.WalkAllVisitsExactlyReachable | packages/core/src/kernel.ts:463-486 | a wrapped list instantiates exactly what its members reach |
| ModuleWrapping.DroppingRepeatsKeepsWalk | packages/cli/src/bootstrap/plugin-loader.ts:73-84 | dropping repeated module references never changes what is instantiated, nor the order |
| ModuleWrapping.Wrap | packages/cli/src/bootstrap/plugin-loader.ts:65-91 | no plugin, no wrapper; otherwise a module that imports the application and every plugin module, each reference at its first occurrence |
| ModuleWrapping.FirstOccurrencesAre | packages/cli/src/bootstrap/plugin-loader.ts:70-84 | those are the references at exactly the positions where nothing before is the same, in order, none twice |
| ModuleWrapping.AllModulesConcat | packages/cli/src/bootstrap/plugin-loader.ts:80-84 | every plugin contributes all its modules, plugin by plugin |
| ModuleWrapping.WrapWithPlugins | packages/cli/src/bootstrap/plugin-loader.ts:59-91 | the kernel treats the wrapped application as the unfiltered list of modules followed by the wrapper |
| ShutdownOrder.ShutdownFollowsAnImporter | packages/core/src/kernel.ts:334-342 | every module but the root is shut down after at least one of its importers, and after all of them if it has one |
| ShutdownOrder.DiamondShutsDownSharedEarly | packages/common/src/interfaces/module.interface.ts:78-82 | a graph in which a shared import is shut down before one of its importers |
| ShutdownOrder.ShutdownReversesInitIffChain | packages/core/src/kernel.ts:297-300 | discovery order is the reverse of instantiation order if and only if each discovered module is imported by the one before it |
| TeardownOrder.OuterFirstIffUntangled | packages/core/src/kernel.ts:334-342 | every module is shut down before everything it imports if and only if, for each reachable module: it does not transitively import itself, and each of its imports is either reached by its earlier imports or reaches nothing that they reach |
| TeardownOrder.SeparateIffNoCrossing | packages/common/src/interfaces/module.interface.ts:79-82 | the same condition on the imports, one edge at a time: nothing that an import newly reaches imports what the earlier ones already reach |
| KernelPlan.RunTraces | packages/core/src/kernel.ts:463-514 | a boot that throws has performed a prefix of its plan, the last action of it being the one that threw, and marked exactly what that prefix marks |
| KernelPlan.RunConcat | packages/core/src/kernel.ts:481-500 | performing one plan after another is performing both, unless the first throws |
| KernelConfiguration.DeclaresIffDistinct | packages/core/src/kernel.ts:523-542 | registering definitions succeeds if and only if no parameter name comes twice, and then holds each definition under its name and nothing else |
| KernelConfiguration.CollectsUnionOrConflict | packages/core/src/kernel.ts:571-600 | collecting `configDefaults` throws if and only if two entries for one key differ; otherwise it returns their union: exactly the keys set, each with the value of its last entry, which equals every setter's, and with the keyname of the module of that entry |
| KernelConfiguration.ConflictIffModulesDisagree | packages/core/src/kernel.ts:562-600 | the boot conflicts if and only if two instantiated modules set one key to different values |
| KernelConfiguration.ModuleOrderIrrelevant | packages/core/src/kernel.ts:571-600 | two orders of the same modules conflict together, or merge to the same keys and values |
| KernelConfiguration.SameOrDiffer | packages/core/src/kernel.ts:586 | two settings are the same if and only if both are `undefined`, or one plain value, or one and the same resolver |
| KernelDefaults.LastSetterAnswers | packages/core/src/kernel.ts:584-596 | when nothing conflicts, the last of the modules that set a key is the one named for it, with its own setting |
| KernelDefaults.MergedKeysAre | packages/core/src/kernel.ts:574-600 | the merged keys are the keys at exactly those entries that set a key for the first time, in order |
| Kernel.Kernel.InitModule | packages/core/src/kernel.ts:463-514 | performs the init plan of the walk, up to the action that throws; when nothing throws, it returns one span per module left and has marked exactly the modules entered, in order |
| Kernel.Kernel.InitImports | packages/core/src/kernel.ts:481-486 | the same for a list of imports |
| Kernel.Kernel.CompleteInit | packages/core/src/kernel.ts:490-505 | performs what leaving a module does (`BlockIsTurn`), up to the action that throws |
| KernelRegistrations.BlockIsTurn | packages/core/src/kernel.ts:488-505 | leaving a module registers the tags scoped to its keyname, each with its own registration and in registry order, then each of its providers in order, then runs its `onInit` hook, and does nothing else |
| KernelRegistrations.ModulesInTurn | packages/core/src/kernel.ts:463-514 | marking apart, the init walk does this module by module, in the order in which it leaves them, each module once |
| Kernel.Kernel.RegisterModuleServiceTags | packages/core/src/kernel.ts:657-670 | registers exactly the tags scoped to this module, in registry order |
| KernelRegistrations.ScopedTags | packages/core/src/kernel.ts:657-670 | those are the registrations at exactly the positions of the registry whose class is scoped to the keyname, in order |
| Kernel.Kernel.RegisterNonModuleScopedServiceTags | packages/core/src/kernel.ts:677-686 | registers exactly the unscoped tags, in registry order |
| KernelRegistrations.UnscopedTags | packages/core/src/kernel.ts:677-686 | those are the registrations at exactly the positions whose class has no scope, in order |
| Kernel.Kernel.AfterInitModule | packages/core/src/kernel.ts:630-648 | on every run that is over, on any graph, it has done what the depth-bounded run from this module does: hooks, completions, container, and whether it throws |
| Kernel.Kernel.AfterInitImports | packages/core/src/kernel.ts:631-636 | the same for a list of imports |
| KernelRegistrations.AfterInitTraces | packages/core/src/kernel.ts:638-648 | on any graph a run that is over has only run hooks and completed modules: a module is completed right after its own hook, or without one if it has none, and a hook that nothing follows has thrown |
| Kernel.Kernel.RegisterConfigurationDefinitions | packages/core/src/kernel.ts:523-542 | every instantiated module's definitions in order, or a failure when the manager does not resolve or a name comes twice |
| Kernel.Kernel.CollectConfigDefaults | packages/core/src/kernel.ts:571-600 | the loop over modules and keys computes `Collect` of their entries |
| Kernel.Kernel.ValidateConfigDefaultsAgainstDefinitions | packages/core/src/kernel.ts:609-621 | throws if and only if some collected key is not declared |
| Kernel.Kernel.LoadConfiguration | packages/core/src/kernel.ts:555-559 | collect, validate, load; nothing is bound when either of the first two throws |
| Kernel.Kernel.Start | packages/core/src/kernel.ts:74-126 | the phases in order, each on the state the one before left, until one throws; the kernel stays valid, with distinct keynames, whether it throws or not |
| Kernel.Kernel.VerifyInstantiation | packages/core/src/kernel.ts:141-295 | lists the seven phases once each in order; each takes the state that the phase before has left and reports whether it failed, or is skipped; the first six are fine if and only if `start` would return, and then the kernel is left as `start` leaves it; the missing configuration is exactly as in `MissingIsExact`, and empty when the modules or the definitions cannot be registered |
| Kernel.Kernel.CheckAndLoad | packages/core/src/kernel.ts:172-210 | the check fails if and only if the definitions cannot be registered, and the load is then skipped and the list empty; otherwise the list is exact and in order, the check warns if and only if it is not empty, and the load fails if and only if `loadConfiguration` throws, leaving what that leaves |
| KernelMissing.MissingIsExact | packages/core/src/kernel.ts:178-182 | a parameter is reported missing if and only if an instantiated module declares it as required and the given overrides have no value, or `undefined`, for it: each once, in the order in which the modules declare them, and with whether it has default resolvers |
| KernelPhases.RehearsalMatchesStart | packages/core/src/kernel.ts:141-295 | what a rehearsal that runs its phases so has found, from any state: the same match with `start`; stopping at the first failure skips all that follows, and carrying on skips only a load without definitions and tests not asked for |
| Kernel.Kernel.Stop | packages/core/src/kernel.ts:314-367 | calls the shutdown hooks in discovery order, each on the container the one before left, going on after a failure whose message it can log and rejecting at one whose message it cannot read; a second call does nothing |
| Kernel.Kernel.StopRepeatedly | packages/core/src/kernel.ts:308-318 | any number of calls, on any valid kernel, also one whose boot threw midway, calls each hook at most once, and those skipped by the first call never |
| KernelShutdown.RejectsExactlyWhen | packages/core/src/kernel.ts:340-356 | `stop` rejects if and only if some hook raises `undefined` or `null` at its turn; every hook is called if and only if none before the last does; the hooks called are the first ones, and the other failures among them are exactly those logged |
| KernelShutdown.UndefinedSkipsTheRest | packages/core/src/kernel.ts:347-350 | two hooks, the first rejecting with `undefined`: the second is never called |
| KernelShutdown.HooksOnce | packages/core/src/kernel.ts:339-345 | the hooks to call are those of the instantiated modules that have one, each once |
| KernelTeardown.HooksInOrder | packages/core/src/kernel.ts:337-345 | they come in the order of the modules: those at exactly the positions with a hook |
| KernelTeardown.StopCallsInTurn | packages/core/src/kernel.ts:334-356 | each hook is given the container that the one before has left, even by throwing; all return or throw an error with a message, except the last one called by a `stop` that rejects; exactly the failures with a message are logged, in order |
| KernelBoot.TaggedProvidersRegisteredOnce | packages/core/src/kernel.ts:657-686 | a boot registers a tagged provider exactly once if the source text of its class has no scope or that scope's module is instantiated, and never otherwise |
| KernelRegistrations.RegistrationsFollowImports | packages/core/src/kernel.ts:463-505 | on an acyclic graph the init walk completes one module at a time (scoped tags, providers, hook), each after everything that it transitively imports |
| KernelRegistrations.BootTagsFirst | packages/core/src/kernel.ts:490-505 | however a boot of a fresh kernel ends, no provider registration and no `onInit` hook of a module has come before a tag scoped to that module |
| KernelRegistrations.BootStopsWhereItThrows | packages/core/src/kernel.ts:74-126 | nor is anything done after a phase that throws: the actions of a boot are the first ones of the init walk, all of them before any unscoped tag, those only once the configuration phase has returned, and all of them before any `afterInit` hook; if anything of the first two is left undone, `start` throws |
| KernelContainers.RunActs | packages/core/src/kernel.ts:463-514 | every action of a run takes the container that the one before has left: an accepted registration is put behind the others and nothing else changes, a hook leaves what it returns, and what is not accepted, or throws, ends the run |
| KernelContainers.InitRegisters | packages/core/src/kernel.ts:488-500 | if no hook touches the registrations, the init walk leaves in the container, behind what was there and the instantiation id, the scoped tags and then the providers of each module, module by module in the order in which they are left |
| KernelContainers.BootedRegisters | packages/core/src/kernel.ts:74-126 | and a boot that returns has added, behind those, the unscoped tags in registry order, and nothing else |
| KernelContainers.OwnProviderOverridesTag | packages/core/src/kernel.ts:490-500 | a module with a provider and a scoped tag for one token: the tag is registered first, so the provider is the later of the two |
| KernelLoad.ReachesLoadExactlyWhen | packages/core/src/kernel.ts:555-621 | the configuration manager's `load` is called if and only if no two instantiated modules disagree on a key and every key they set is declared |
| KernelLoad.LoadPhaseReturnsExactlyWhen | packages/core/src/kernel.ts:545-559 | the configuration phase returns if and only if, besides, no override and no key of the file is undeclared, and each declared key has a value at its turn |
| KernelLoad.LoadPhaseTakesTurns | packages/core/src/kernel.ts:555-559 | however it ends, it changes nothing when modules disagree or set an undeclared key, and otherwise leaves the container that the turns of the keys have come to |
| KernelLoad.UnknownKeysAreNotDefaults | packages/core/src/kernel.ts:602-621 | a key that `load`, called by the kernel, rejects as unknown comes from the overrides or the file, and no instantiated module sets it |
| KernelLoad.BootedBindsEachParameter | packages/core/src/kernel.ts:74-126 | a boot that returns has bound, on top of what the init walk left, exactly one value for each parameter that the instantiated modules declare: what its override gives, else its file setting, else its `configDefaults` setting, else the first of its resolvers that does not fail, else its default value, each against the container at its turn; the later phases start from there |
| KernelBoot.BootedDoesExactlyThis | packages/core/src/kernel.ts:74-126 | a fresh kernel whose `start` returns has instantiated exactly the reachable modules in discovery order, completed `afterInit` in `onInit` order, and performed exactly the actions of the three walks |
| KernelReturn.StartReturnsExactlyWhen | packages/core/src/kernel.ts:74-126 | a fresh kernel's `start` returns if and only if every registration and `onInit` hook of the init walk succeeds, the configuration manager resolves, no parameter is declared twice, the configuration phase's conditions hold, the unscoped tags are accepted, the root reaches no cycle, every `afterInit` hook returns, and the log handler resolves |
| Configuration.ConfigurationManager.Register | packages/configuration/src/managers/configuration.manager.ts:25-31 | fails without effect if and only if the name is already registered; otherwise adds it last |
| Configuration.ConfigurationManager.Load | packages/configuration/src/managers/configuration.manager.ts:60-162 | merge, bind the explicit values, bind the rest; the result, the container and what is left of the definitions, on success, on collected errors and on an exception, as `LoadTakesTurns` and the rows after it spell out |
| Configuration.ConfigurationManager.BindExplicitValues | packages/configuration/src/managers/configuration.manager.ts:94-109 | the first loop: one binding and one deletion per known key, one message per unknown key, stopping at a value that does not resolve |
| Configuration.ConfigurationManager.BindRemaining | packages/configuration/src/managers/configuration.manager.ts:111-155 | the second loop: default resolvers, then a message or the default value |
| Configuration.ConfigurationManager.TryResolvers | packages/configuration/src/managers/configuration.manager.ts:124-139 | what the resolvers come to (`FirstResolverWins`); nothing changes |
| Configuration.ConfigurationManager.GetMissingRequiredParameters | packages/configuration/src/managers/configuration.manager.ts:171-198 | the required keys without an override, in order, with whether they have resolvers; nothing changes |
| ConfigurationPrecedence.ResolvesToWhatItGives | packages/configuration/src/parsers/configuration.parser.ts:15-50 | a plain value resolves to itself, a resolver to what it gives against the container at that time, and `undefined` to nothing |
| ConfigurationPrecedence.FirstResolverWins | packages/configuration/src/managers/configuration.manager.ts:120-144 | the resolvers come to a value if and only if some resolver gives it and every one before that fails; they come to none if and only if all of them fail |
| ConfigurationPrecedence.StepCases | packages/configuration/src/managers/configuration.manager.ts:94-155 | at its turn a key is bound to what its explicit setting gives; without one, to what the first of its resolvers that does not fail gives; and if all fail, to what its default value gives, unless it is required, which is noted; what gives nothing there ends the load |
| ConfigurationPrecedence.LoadRefinesReference | packages/configuration/src/managers/configuration.manager.ts:94-159 | the two draining passes do what one pass over the keys does: same container, same exception, and one message per unknown key followed by one per unsatisfied required key |
| ConfigurationPrecedence.MergedIsExplicit | packages/configuration/src/managers/configuration.manager.ts:69-92 | the merged map holds for each key the override, else the file's value, else the `configDefaults` value |
| ConfigurationTurns.MergedKeys | packages/configuration/src/managers/configuration.manager.ts:69-92 | the merged keys are those of `configDefaults`, then what the file adds, then what the overrides add, each in its own order |
| ConfigurationTurns.ExplicitKeysFirst | packages/configuration/src/managers/configuration.manager.ts:94-113 | of two registered keys the one that takes its turn first is the explicit one; of two explicit ones the one merged first; of two others the one registered first |
| ConfigurationTurns.LoadTakesTurns | packages/configuration/src/managers/configuration.manager.ts:94-155 | however `load` ends: key after key is bound, to a value that it takes against the container found there, or left because it is required and has none, up to the end or to the first key whose value cannot be had; the container is then the one that was come to |
| ConfigurationTurns.LoadLeavesTheRest | packages/configuration/src/managers/configuration.manager.ts:107-161 | a `load` that throws its messages has taken out exactly the definitions of the explicit keys, and kept the order of the others |
| ConfigurationTurns.CrashLeavesTheRest | packages/configuration/src/managers/configuration.manager.ts:102-109 | one that an explicit value ends has taken out exactly those of the explicit keys before it |
| ConfigurationTurns.MessagesInOrder | packages/configuration/src/managers/configuration.manager.ts:96-148 | the messages about unknown keys come first, in the order of the merged keys, and then those about required keys, in the order of their turns |
| ConfigurationPrecedence.LoadedBindsEachKeyOnce | packages/configuration/src/managers/configuration.manager.ts:33-45 | after a successful load each registered key is bound exactly once, under the key between two percent signs, to a value that its explicit setting, else the first of its resolvers that does not fail, else its default value gives against the container at that step, and nothing else is bound |
| ConfigurationPrecedence.LoadErrorsExactly | packages/configuration/src/managers/configuration.manager.ts:96-148 | no message twice; the messages are exactly those for unknown explicit keys and unsatisfied required keys |
| ConfigurationPrecedence.RequiredMessageIffUnsatisfied | packages/configuration/src/managers/configuration.manager.ts:120-149 | a key has a required-message if and only if at its turn it is required, not explicit, and no resolver succeeds |
| ConfigurationPrecedence.LoadThrowsExactlyWhen | packages/configuration/src/managers/configuration.manager.ts:94-159 | `load` passes on an exception if and only if some known key, at its turn, is explicit and does not resolve, or is optional and neither its resolvers nor its default value do; otherwise it throws its messages if and only if an explicit key is unknown or a required key unsatisfied |
| ConfigurationPrecedence.RequiredErrorsWereListed | packages/configuration/src/managers/configuration.manager.ts:164-198 | every key that `load` reports as required was listed as missing for the same overrides |
| ConfigurationPrecedence.ListedWithoutFallbackFails | packages/configuration/src/managers/configuration.manager.ts:164-198 | a listed key with no resolvers, in neither the file nor `configDefaults`, makes `load` fail |
| ConfigurationPrecedence.TokenInjective | packages/configuration/src/managers/configuration.manager.ts:104-105 | distinct keys are bound under distinct tokens |
| ObjectUtil.DeepMerge | packages/common/src/utils/object.util.ts:23-31 | changes no existing object; the result is a tree of fresh containers that holds the merge of the sources |
| ObjectUtil.MergeInto | packages/common/src/utils/object.util.ts:39-54 | writes only into the target's own tree, in any order of the keys, and keeps it a tree; the target then holds the merge |
| ObjectUtil.MergeValue | packages/common/src/utils/object.util.ts:62-84 | a container is merged into one of its kind or cloned, anything else replaces; the source is never changed or aliased |
| ObjectUtil.ReachedByOnePath | packages/common/src/utils/object.util.ts:20-22 | every container reachable in a result is the result's own and is reached by one path only |
| ObjectUtil.ResultHoldsIffGiven | packages/common/src/utils/object.util.ts:16-22 | the result holds a primitive or an instance at a path, the very same one, if and only if some source holds it there and every later source spares it |
| ObjectUtil.SharesIffGiven | packages/common/src/utils/object.util.ts:20-22 | the result shares an instance with its inputs if and only if some source gives it at some path |
| ObjectUtil.DateIsShared | packages/common/src/utils/object.util.ts:83 | a source whose date is the same object in the result |
| DeepMergeLaws.DeepMergeInStages | packages/common/src/utils/object.util.ts:23-31 | merging xs and then ys is merging the merge of xs followed by ys |
| DeepMergeLaws.DeepMergeIdempotent | packages/common/src/utils/object.util.ts:23-31 | merging a value with itself is merging it once, whatever it holds |
| DeepMergeLaws.UndefinedIsSkipped | packages/common/src/utils/object.util.ts:47-50 | an `undefined` anywhere in a source has no effect |
| DeepMergeLaws.MergesByKind | packages/common/src/utils/object.util.ts:62-84 | `undefined` leaves what is there, a leaf replaces it, and so does a container, cloned, unless it meets one of its own kind: then a key of the source holds the merge of the two values there, and every other key what the target has |
| DeepMergeLaws.LeafAfterMerge | packages/common/src/utils/object.util.ts:62-84 | a leaf is at a path of a merge if and only if the source has it there, or the target has it and the source spares it |
| DeepMergeLaws.LastLeafWins | packages/common/src/utils/object.util.ts:16-18 | a leaf is at a path of the result if and only if some source has it there and every later source, compared with that one alone, spares it |
| DeepMergeLaws.MergeAssociativeIffGroups | packages/common/src/utils/object.util.ts:62-84 | two groupings of three values agree if and only if, wherever a value of another sort sits between two containers of one kind, the last covers the first |
| DeepMergeLaws.DeepMergeGroupsIff | packages/common/src/utils/object.util.ts:23-31 | the same for `deepMerge` of three objects; it always holds when the kinds agree at the shared paths |
| DeepMergeLaws.ScalarBetweenContainers | packages/common/src/utils/object.util.ts:77-83 | three sources for which the groupings differ |
| DeepMergeLaws.CoversIffReplaced | packages/common/src/utils/object.util.ts:77-83 | one container covers another if and only if merging it leaves nothing of the other |
| Router.Router.Execute | packages/networking/src/router.ts:183-480 | the effects of the request and its outcome, for every reply of the surroundings; `ExecutionCloses` says what they make of the replies |
| Router.Router.RunInterceptors | packages/networking/src/router.ts:513-583 | the interceptors of a stage as a left fold in priority order, stopping at the first that throws |
| Router.Router.ExecuteErrorResponseInterceptors | packages/networking/src/router.ts:677-749 | the responder, then the error interceptors on its response, then the response interceptors on theirs |
| Router.PriorityOrder | packages/networking/src/router.ts:532-537 | the order is by non-increasing priority, 0 by default, and keeps the interceptors of each priority in their own order |
| Router.DescendingIsUnique | packages/networking/src/router.ts:532-537 | no other order has both properties |
| Router.ChainIsOrderedFold | packages/networking/src/router.ts:532-571 | interceptors run in non-increasing priority, each on what the one before left, and each that implements the stage is reached unless an earlier one throws |
| Router.FoldVisits | packages/networking/src/router.ts:539-571 | the interceptors called are those that implement the stage, in order: all of them, or those up to the one that threw |
| RouterAnswers.ByPrioritySorts | packages/networking/src/router.ts:532-537 | non-increasing priorities, a missing one counting as 0, and the interceptors of one priority as they were |
| RouterAnswers.ChainIntercepts | packages/networking/src/router.ts:513-670 | a stage asks, in that order, exactly the interceptors that implement it, up to one that throws: the first is given the message of the stage, each other one what the one before has returned, or was given if that returned nothing; the stage leaves what the last one leaves |
| Router.AuthenticationError | packages/networking/src/router.ts:329-337 | the error answered is always a 401 or a 403, and is the authenticator's own whenever that already is one |
| RouterOrder.StagesInOrder | docs/getting-started/03-controllers/00.index.md:16-73 | in every execution the stages come in the documented order, each effect at most once except interceptors and arguments; no span ends twice or before it starts |
| RouterOutcome.ControllerCalledAtMostOnce | packages/networking/src/router.ts:407-411 | the controller is called at most once, and never while an error is answered |
| RouterGates.ControllerIsGated | packages/networking/src/router.ts:294-374 | in every execution the controller called is that of the route cached or found, and only after authentication of that route gave an identity, its authorization said yes to it, and the request interceptors ran to the end; it gets the arguments of that route for the intercepted request |
| RouterGates.ArgumentsAreOfIntercepted | packages/networking/src/router.ts:376-407 | from the arguments on, the only controller called is that of the route, with the arguments cached for the intercepted request, or one value per argument of the route, each resolved from that request and the identity |
| RouterOutcome.ExecutionCloses | packages/networking/src/router.ts:249-251 | a promise that settles does so after its execution span ended; without an error, with what the response interceptors leave of the controller's own response, or of one with status 200 and what the controller returned as body; and otherwise with what the error interceptors and then the response interceptors leave of the responder's response to one error, or rejects with what one of them throws; one that does not settle answers nothing |
| RouterAnswers.ExecutionSays | packages/networking/src/router.ts:407-451 | a response that answers no error is what the response interceptors leave of what the controller called last returned |
| RouterAnswers.ErrorsAnswer | packages/networking/src/router.ts:677-749 | an error is answered with the responder's status, headers and body for it, the request put in, as the error interceptors and then the response interceptors leave it; what one of them throws rejects the promise |
| RouterOutcome.UnsettledExactlyWhen | packages/networking/src/router.ts:201-480 | a request is never settled if and only if its URL does not parse, the controller of its route cannot be resolved, or `undefined` or `null` is thrown into a catch block, by the authenticator, the authorizer, the interceptor collection, a response interceptor, the argument cache, an argument or the controller |
| RouterReplies.UnsettledByReplies | packages/networking/src/router.ts:201-480 | the same read off the replies alone, stage by stage along the route found |
| RouterOutcome.UnparsedUrlHangs | packages/networking/src/utils/url.util.ts:72-79 | a request for `//` whose promise never settles |
| RouterOutcome.UnresolvedControllerHangs | packages/networking/src/router.ts:282 | a controller that cannot be resolved, and the promise never settles |
| RouterOutcome.UndefinedErrorHangs | packages/networking/src/router.ts:452-457 | a controller that throws `undefined`, and the promise never settles |
| RouterOutcome.ExecutionSpanEndsOnce | packages/networking/src/router.ts:446-475 | the execution span ends exactly once when the promise settles, and not otherwise |
| RouterOutcome.ErrorIsExplained | packages/networking/src/router.ts:247-475 | the error answered is what the last thing done threw; NotFound only when no route was found, Forbidden when authorization said no, a 401 or 403 when authentication failed, and a throwing response interceptor is answered like any other; `undefined` thrown by a request interceptor has been replaced by the error of reading its message |
| Cloudformation.CloudformationClient.DeployStack | packages/aws/src/clients/cloudformation.client.ts:393-457 | the calls made (`DeploymentCalls`) and the status returned, for every sequence of replies; never in progress |
| Cloudformation.CloudformationClient.MonitorChangeSet | packages/aws/src/clients/cloudformation.client.ts:459-504 | polls until the first decisive reply, no further, and returns what that reply decides |
| Cloudformation.CloudformationClient.MonitorStack | packages/aws/src/clients/cloudformation.client.ts:506-572 | the same for the stack |
| Cloudformation.CloudformationClient.GetStackDescription | packages/aws/src/clients/cloudformation.client.ts:97-127 | one poll: the first stack, nothing for an empty list or a fault that says the stack does not exist, and any other fault |
| CloudformationCalls.SaysGoneExactly | packages/aws/src/clients/cloudformation.client.ts:120 | a fault says so if and only if its message has the name of the stack and, later on the same line, that it does not exist |
| CloudformationCalls.DescribesExactly | packages/aws/src/clients/cloudformation.client.ts:102-126 | one poll finds no stack if and only if the list is empty or the fault says so, throws any other fault, and otherwise is the first stack listed |
| CloudformationCalls.UndecidedExactly | packages/aws/src/clients/cloudformation.client.ts:512-571 | the stack is polled again if and only if its status is one of the six in progress, missing, or unknown to the poller |
| CloudformationCalls.UndecidedChangeSetExactly | packages/aws/src/clients/cloudformation.client.ts:468-503 | the change set is polled again if and only if its status is one of the four in progress, missing, or unknown, and is complete if and only if it is one of the two complete ones |
| CloudformationCalls.ChangeSetCallsArePolls | packages/aws/src/clients/cloudformation.client.ts:459-504 | each poll of the change set is one call, followed by the callback, if there is one, exactly when it shows progress |
| CloudformationCalls.DeploymentCalls | packages/aws/src/clients/cloudformation.client.ts:393-457 | every call of a deployment, read off the replies: the stack is described; unless that fails, a change set is created, of type CREATE exactly when there was no stack, that carries each parameter once, in order, under its own name and with its own value; unless that fails, it is polled up to the first reply that decides; if that finds it complete, it is executed, and the stack polled up to the first reply that decides, with one callback right after each poll that shows progress |
| CloudformationCalls.ChangeSetsCarryTheParameters | packages/aws/src/clients/cloudformation.client.ts:394-427 | whatever the replies, a change set that is created carries each parameter under its own name, and no others |
| Cloudformation.ExecutesOnlyAfterComplete | packages/aws/src/clients/cloudformation.client.ts:410-456 | the change set is executed at most once, only after the stack was described, a change set of the matching type created, and the first decisive poll of it found it complete; only polls of the stack follow |
| Cloudformation.CompletesExactlyWhen | packages/aws/src/clients/cloudformation.client.ts:393-572 | a deployment completes if and only if nothing before fails, the first decisive change-set poll is complete, and the first decisive stack poll finds a complete state |
| Cloudformation.NothingToPerformExactlyWhen | packages/aws/src/clients/cloudformation.client.ts:488-495 | there is nothing to perform if and only if the first decisive change-set poll failed for one of the two reasons that say so |
| Cloudformation.FailsExactlyWhen | packages/aws/src/clients/cloudformation.client.ts:459-572 | a deployment fails if and only if, its change set created, the first decisive poll of that finds it failed for any other reason, or finds it complete, it is executed, and the first decisive poll of the stack finds one of the broken states |
| Cloudformation.ThrowsExactlyWhen | packages/aws/src/clients/cloudformation.client.ts:393-572 | a deployment throws an error if and only if that is the first fault on its way, or the stack is not found by the first decisive poll of it |
| Cloudformation.CallbackCountsProgressPolls | packages/aws/src/clients/cloudformation.client.ts:526-539 | the callback is called once for each in-progress poll of the executed change set's stack before the first decisive one, and not otherwise |
| CommandEventMapper.ParseArguments | packages/cli/src/mappers/command-event.mapper.ts:65-140 | the index-skipping loop gives each token the meaning that its own window of three tokens gives it |
| CommandTokens.AssignsExactly | packages/cli/src/mappers/command-event.mapper.ts:80-88 | a token is an assignment of a value to a name if and only if it is two dashes, the name, an equal sign and the value, and the name has no equal sign |
| CommandTokens.NamesExactly | packages/cli/src/mappers/command-event.mapper.ts:80-107 | a token names an option if and only if it is two dashes and a name without an equal sign, or one dash and a name that does not start with another |
| CommandTokens.EachTokenHasOneRole | packages/cli/src/mappers/command-event.mapper.ts:66-113 | each token is exactly one of: an assignment; an option with the next token, which has no dash, as its value; an option on its own; such a value; a positional |
| CommandTokens.EachTokenCounts | packages/cli/src/mappers/command-event.mapper.ts:65-140 | and makes of the entry of every name what its role says: a text goes behind what is there, a number or a truth value after an option replaces it, an option on its own is true, and a positional is true under its own name and goes behind the list under `_` |
| CommandTokens.TrueIs | packages/cli/src/mappers/command-event.mapper.ts:121-124 | the word true is recognised in any mixture of cases, and nothing else is |
| CommandTokens.FalseIs | packages/cli/src/mappers/command-event.mapper.ts:121-128 | the same for the word false |
| CommandEventMapper.UnderscoreHoldsPositionals | packages/cli/src/mappers/command-event.mapper.ts:68-78 | with no flag named `_`, the entry `_` is exactly the positionals in order, from the last one spelled `_` on |
| CommandEventMapper.KeptAllIff | packages/cli/src/mappers/command-event.mapper.ts:72-76 | that is all of them if and only if `_` is not a positional after the first |
| CommandEventMapper.UnderscoreDropsTheFirst | packages/cli/src/mappers/command-event.mapper.ts:72-76 | three operands, the second spelled `_`: the list has lost the first |
| CommandEventMapper.RenderedItemsParseBack | packages/cli/src/mappers/command-event.mapper.ts:65-140 | options rendered as `--name=value`, interleaved with operands in any way, parse back to each option with its values in order, each operand, the operands in order, and nothing else |
| CommandEventMapper.Map | packages/cli/src/mappers/command-event.mapper.ts:49-146 | throws on nothing that `supportsMapping` lets through; otherwise the first argument names the command and the others are parsed |
| CommandEventMapper.MappersPartitionArgv | packages/cli/src/mappers/repl-start-event.mapper.ts:37-51 | under the CLI keyname an argv with a bin is claimed by exactly one of the two mappers, and anything else by neither |
| CommandEventMapper.FindBinIsFirst | packages/cli/src/utils/pristine-argv.ts:31-43 | the bin found is the first string recognised as one |
| CommandTokens.ParsesAroundTheBin | packages/cli/src/utils/pristine-argv.ts:31-43 | the script is the first bin, and the arguments are what follows it, strings only |
| CommandTokens.WordsConcat | packages/cli/src/utils/pristine-argv.ts:40-42 | which are the strings in order, each once, and nothing for what is not a string |
| CommandTokens.ParsesWithoutABin | packages/cli/src/utils/pristine-argv.ts:33-37 | without a bin there is no script and there are no arguments |
| CommandTokens.FirstArgumentDecides | packages/cli/src/mappers/repl-start-event.mapper.ts:37-51 | behind the bin, no argument or `repl` starts the session, and any other first argument is a command |
| TerminalKeys.Decode | packages/cli/src/utils/terminal-key-decoder.ts:23-45 | the loop gives one key per character, after the two whole-chunk cases |
| TerminalKeys.DecodingKeepsText | packages/cli/src/utils/terminal-key-decoder.ts:13-21 | the sequences of the keys of a chunk spell the chunk |
| TerminalKeys.DecodesExactly | packages/cli/src/utils/terminal-key-decoder.ts:23-68 | a chunk that starts with an escape is an arrow or one key of no meaning; any other is one key per character, surrogate pairs kept together, and each key is what that character stands for: Enter, Backspace, Ctrl-C, nothing for another control character, or itself |
| TerminalKeys.DecodingAddsUpIff | packages/cli/src/utils/terminal-key-decoder.ts:33-44 | for any two chunks, decoding them is decoding their concatenation if and only if one is empty, or the first does not start with an escape, the cut does not split a surrogate pair, and an escape that starts the second is all of it |
| TerminalKeys.TwoArrowsAreLost | packages/cli/src/utils/terminal-key-decoder.ts:29-31 | two arrows in one chunk are a single key of no meaning |
| TerminalKeys.ArrowsNeedTheirOwnChunk | packages/cli/src/utils/terminal-key-decoder.ts:23-45 | an arrow key comes only from a chunk that is that arrow |
| TerminalPrompts.KeyRead.constructor | packages/cli/src/managers/terminal-key-reader.manager.ts:43-47 | a read starts in raw mode with one more listener, and remembers the mode before |
| TerminalPrompts.KeyRead.Settle | packages/cli/src/managers/terminal-key-reader.manager.ts:50-66 | the first outcome is kept; the terminal is as it was before, paused, and the listener gone |
| TerminalPrompts.KeyRead.OnData | packages/cli/src/managers/terminal-key-reader.manager.ts:68-86 | the keys of a chunk in turn until one settles the read |
| TerminalPrompts.KeyRead.Feed | packages/cli/src/managers/terminal-key-reader.manager.ts:68-92 | any number of chunks is the sequence of all their keys; nothing after the settling key is delivered |
| TerminalPrompts.EndsAtTheFirst | packages/cli/src/managers/terminal-key-reader.manager.ts:68-86 | a read ends at the first key that ends it, with what that key says; later keys reach nobody, and a cancelling key does not reach the handler |
| TerminalPrompts.GoesOnWhileQuiet | packages/cli/src/managers/terminal-key-reader.manager.ts:68-86 | until then the handler has had every key |
| TerminalPrompts.Select | packages/cli/src/managers/cli-prompt.manager.ts:121-148 | no choices is an error; otherwise the value of the choice highlighted at Enter, from the index of the first choice that has the default value, or 0 without one, and the terminal is restored |
| TerminalPrompts.SelectLands | packages/cli/src/managers/cli-prompt.manager.ts:135-144 | Enter selects (start + downs - ups) mod n, counting the arrows typed before it, whatever else was typed |
| TerminalPrompts.FormatChoiceRow | packages/cli/src/managers/cli-prompt.manager.ts:206-211 | the visible row is never wider than the width, is the whole text when it fits, and otherwise its beginning and an ellipsis |
| TerminalPrompts.SecretIsPlainText | packages/cli/src/managers/cli-prompt.manager.ts:157-180 | for any chunks, the secret is what the text of those that do not start with an escape types, however it is cut; the others type nothing, not even their Enter |
| TerminalPrompts.SecretIsErasedText | packages/cli/src/managers/cli-prompt.manager.ts:150-156 | the secret is what is left, backspaces applied, of the text before the first Enter, if no interruption comes before it |
| TerminalPrompts.PrintableIsKept | packages/cli/src/managers/cli-prompt.manager.ts:154-155 | printable text is kept as typed, surrounding blanks included |
| TerminalPrompts.BackspaceUndoesIff | packages/cli/src/managers/cli-prompt.manager.ts:165-169 | a backspace undoes the character before it if and only if that character is one code unit |
| TerminalPrompts.ReadSecret | packages/cli/src/managers/cli-prompt.manager.ts:157-180 | returns that secret, or the cancellation, with the terminal restored |
| DateUtil.FormatDuration | packages/common/src/utils/date.util.ts:6-27 | prints the digits from the first non-zero unit down, joined by commas and `and` |
| DateUtil.JoinSpelled | packages/common/src/utils/date.util.ts:26 | the regular expression turns exactly the last comma into `and` |
| DateUtil.TextIs | packages/common/src/utils/date.util.ts:6-27 | the text of a duration given in years, days, hours, minutes, seconds and milliseconds: it begins with the first of these that is not zero and names every smaller one, each with its own unit, with an s when it is above one except for milliseconds; `0 ms` for nothing |
| DateUtil.NoLeadingZero | packages/common/src/utils/date.util.ts:21 | numbers are written without leading zeros |
| DateUtil.DigitsAreMixedRadix | packages/common/src/utils/date.util.ts:8-24 | digits times units sum to the input, and every digit below the year is less than its radix |
| DateUtil.FormatDurationReadsBack | packages/common/src/utils/date.util.ts:6-27 | the numbers of the text, aligned with milliseconds, give the input back |
| DateUtil.FormatDurationInjective | packages/common/src/utils/date.util.ts:6-27 | no two durations print alike |

## Left out

- Kernel.Kernel.AfterInitModule: requires that the run is over at some depth, because the code does not return otherwise (`OverUnlessCyclic`); the stack overflow that ends such a recursion in practice, and that a rehearsal would report as a failed phase, is not modelled.
- KernelBoot.TaggedProvidersRegisteredOnce: the registry of scopes is given as it is once all decorators have run; that a later decorator on a class of the same text replaces the scope is not modelled.
- Kernel.Kernel.Start: the registration of the instantiation id is taken to succeed, and spans are modelled only as the list of modules they belong to.
- Kernel.Kernel.VerifyInstantiation: durations, serialized errors and the results of the single instantiation tests are not in the report; the phase that runs them never fails.
- Kernel.Kernel.Stop: a hook that times out is one that raises; with a timeout of 0 (`packages/core/src/kernel.ts:312`) a hook that never ends keeps the later ones waiting, which is not modelled. Every error but `undefined` and `null` is taken to have a message, logging it to return, and the termination of the log handler is not modelled.
- Configuration.ConfigurationManager.Load: the values of `pristine.config.ts` are a parameter, and the warning about keys set twice is not modelled.
- ObjectUtil.DeepMerge: sources are acyclic; arrays have index properties only, and trailing `undefined` elements do not lengthen an array; keys are taken in any order, so the key order of the result is not modelled; a `__proto__` key is not part of this model.
- Router.Router.Execute: requests and responses are values, so an interceptor that changes one in place is not modelled; the search of the route tree, the content of the argument cache and the surroundings' replies are parameters; the search and the extraction of route parameters, logging and tracing are taken to return, and the request context and the `methodNode` parameter are left out.
- Router.Router.RunInterceptors: one loop stands for the three near-identical ones; priorities are integers.
- Cloudformation.CloudformationClient.DeployStack: the status callback is taken to return and every fault to have a message; waiting between polls, the random name and the inherited properties of the parameters are not modelled; the name of the stack is taken literally in the pattern that a fault is matched with.
- CommandEventMapper.ParseArguments: names inherited from `Object.prototype` and integer-like names are not modelled; `parseFloat` is a parameter.
- CommandEventMapper.MappersPartitionArgv: which strings name the bin (`basename`, `extname`) is a parameter.
- TerminalKeys.Decode: starts from decoded text; a chunk of bytes that splits a UTF-8 character is not part of this model.
- TerminalPrompts.Select: the escape output of the menu is not modelled, and choice values are compared by equality.
- TerminalPrompts.ReadSecret: the echoed asterisks are not modelled.
- DateUtil.FormatDuration: milliseconds are natural numbers, exact at any size; negative and fractional ones, and those above 2^53, which the code divides and prints inexactly, are not modelled.
- Real time, the event loop, dynamic import, manifests on disk, the shell and the spinner.
- The authenticators, JWT checks, event mappers other than the two for the command line, payload and model classes, error texts and configuration keys: field copying, constants or calls into code that is not here.
