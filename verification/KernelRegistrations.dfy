/** What a boot registers, read off the graph and the registry of tags alone: in which order, and what the container
    holds afterwards. */
module KernelRegistrations {
  import opened Common
  import opened Container
  import opened ModuleGraph
  import opened ModuleOrder
  import opened ModuleCycles
  import opened KernelPlan
  import opened AfterInit
  import opened KernelPhases
  import opened KernelConfiguration
  import opened KernelBoot

  /** The tags whose class is scoped to `keyname`. */
  ghost function ScopedTo(app: App, keyname: string): set<nat> {
    set i: nat | i < |app.tags| && app.tags[i].classText in app.scopes && app.scopes[app.tags[i].classText] == keyname
  }

  ghost function Unscoped(app: App): set<nat> {
    set i: nat | i < |app.tags| && app.tags[i].classText !in app.scopes
  }

  // -------------------------------------------------------------- one module at a time

  ghost predicate AreTags(app: App, picks: seq<nat>, actions: seq<Action>) {
    && |actions| == |picks|
    && forall j :: 0 <= j < |picks| ==>
         picks[j] < |app.tags| && actions[j] == RegisterTag(picks[j], app.tags[picks[j]].registration)
  }

  ghost predicate AreProviders(r: Ref, providers: seq<Registration>, actions: seq<Action>) {
    |actions| == |providers| && forall j :: 0 <= j < |providers| ==> actions[j] == RegisterProvider(r, providers[j])
  }

  lemma ScopeSpelled(app: App, i: nat, keyname: string)
    requires i < |app.tags|
    ensures ScopeOf(app, app.tags[i]) == Some(keyname) <==> i in ScopedTo(app, keyname)
    ensures ScopeOf(app, app.tags[i]) == None <==> i in Unscoped(app)
  {
  }

  lemma {:induction false} ScopedTags(app: App, keyname: string, n: nat)
    requires n <= |app.tags|
    ensures AreTags(app, Picked(ScopedTo(app, keyname), n), TagActions(app, keyname, n))
  {
    if n > 0 {
      ScopedTags(app, keyname, n - 1);
      ScopeSpelled(app, n - 1, keyname);
    }
  }

  lemma {:induction false} UnscopedTags(app: App, n: nat)
    requires n <= |app.tags|
    ensures AreTags(app, Picked(Unscoped(app), n), UnscopedTagActions(app, n))
  {
    if n > 0 {
      UnscopedTags(app, n - 1);
      ScopeSpelled(app, n - 1, "");
    }
  }

  lemma {:induction false} ListProviders(r: Ref, providers: seq<Registration>)
    ensures AreProviders(r, providers, ProviderActions(r, providers))
  {
    if providers != [] {
      ListProviders(r, providers[..|providers| - 1]);
    }
  }

  /** The tags scoped to a module, in the order of the registry. */
  ghost function TagsOf(app: App, r: Ref): seq<nat>
    requires r in app.graph
  {
    Picked(ScopedTo(app, app.graph[r].keyname), |app.tags|)
  }

  /** What leaving a module does: its scoped tags, then its own providers, then its `onInit` hook, and nothing
      else. */
  ghost predicate IsTurn(app: App, r: Ref, actions: seq<Action>)
    requires r in app.graph
  {
    var m := app.graph[r];
    var tags := TagsOf(app, r);
    var n, k := |tags|, |tags| + |m.providers|;
    && k <= |actions|
    && AreTags(app, tags, actions[..n])
    && AreProviders(r, m.providers, actions[n..k])
    && actions[k..] == match m.onInit case None => [] case Some(h) => [RunOnInit(r, h)]
  }

  lemma BlockIsTurn(app: App, r: Ref)
    requires r in app.graph
    ensures IsTurn(app, r, Block(app, r))
  {
    var m := app.graph[r];
    ScopedTags(app, m.keyname, |app.tags|);
    ListProviders(r, m.providers);
  }

  ghost predicate InTurn(app: App, order: seq<Ref>, actions: seq<Action>) {
    if order == [] then actions == []
    else
      exists k: nat ::
        && k <= |actions| && order[0] in app.graph
        && IsTurn(app, order[0], actions[..k]) && InTurn(app, order[1..], actions[k..])
  }

  lemma {:induction false} BlocksInTurn(app: App, order: seq<Ref>)
    requires forall m :: m in order ==> m in app.graph
    ensures InTurn(app, order, Blocks(app, order))
  {
    if order != [] {
      var block := Block(app, order[0]);
      BlocksInTurn(app, order[1..]);
      BlockIsTurn(app, order[0]);
      assert Blocks(app, order)[..|block|] == block && Blocks(app, order)[|block|..] == Blocks(app, order[1..]);
    }
  }

  /** Apart from marking modules, the init walk completes the modules one at a time. */
  lemma ModulesInTurn(app: App, root: Ref)
    requires Closed(app.graph) && root in app.graph
    ensures var es := Walk(app.graph, {}, root);
            InTurn(app, Left(es), Unmarked(InitPlan(app, es))) && Distinct(Left(es))
  {
    var es := Walk(app.graph, {}, root);
    LeftOnce(app.graph, root);
    LeftDistinctKeynames(app.graph, root);
    PlanIsBlocks(app, es);
    BlocksInTurn(app, Left(es));
  }

  /** Each module comes after all that it transitively imports. */
  ghost predicate FollowsImports(g: Graph, order: seq<Ref>) {
    forall j, p :: 0 <= j < |order| && IsPath(g, p) && |p| > 1 && p[0] == order[j] ==> p[|p| - 1] in order[..j]
  }

  lemma FollowsTransitively(g: Graph, order: seq<Ref>)
    requires Unique(g) && (forall m :: m in order ==> m in g) && ImportsFirst(g, {}, order)
    ensures FollowsImports(g, order)
  {
    forall j, p | 0 <= j < |order| && IsPath(g, p) && |p| > 1 && p[0] == order[j] ensures p[|p| - 1] in order[..j] {
      TransitiveImportsFirst(g, order, j, p);
    }
  }

  /** On an acyclic graph the init walk registers whole modules at a time, each after all that it transitively
      imports. */
  lemma RegistrationsFollowImports(app: App, root: Ref)
    requires Closed(app.graph) && Unique(app.graph) && root in app.graph && AcyclicFrom(app.graph, root)
    ensures var es := Walk(app.graph, {}, root);
            InTurn(app, Left(es), Unmarked(InitPlan(app, es))) && FollowsImports(app.graph, Left(es))
  {
    ModulesInTurn(app, root);
    LeftDistinctKeynames(app.graph, root);
    ImportsInitialisedFirstIffAcyclic(app.graph, root);
    FollowsTransitively(app.graph, Left(Walk(app.graph, {}, root)));
  }

  // ------------------------------------------------------------------ tags come first

  ghost predicate IsOwn(a: Action) {
    a.RegisterProvider? || a.RunOnInit?
  }

  ghost predicate Clash(app: App, own: Action, tag: Action) {
    IsOwn(own) && tag.RegisterTag? && own.r in app.graph && tag.i in ScopedTo(app, app.graph[own.r].keyname)
  }

  /** No provider or hook of a module comes before a tag scoped to that module. */
  ghost predicate TagsFirst(app: App, plan: seq<Action>) {
    forall p, q :: 0 <= p < q < |plan| ==> !Clash(app, plan[p], plan[q])
  }

  lemma TagsFirstConcat(app: App, a: seq<Action>, b: seq<Action>)
    requires TagsFirst(app, a) && TagsFirst(app, b)
    requires forall x, y :: x in a && y in b ==> !Clash(app, x, y)
    ensures TagsFirst(app, a + b)
  {
    forall p, q | 0 <= p < q < |a + b| ensures !Clash(app, (a + b)[p], (a + b)[q]) {
      if p < |a| <= q {
        assert a[p] in a && b[q - |a|] in b;
      }
    }
  }

  lemma TurnAt(app: App, r: Ref, actions: seq<Action>, q: nat)
    requires r in app.graph && IsTurn(app, r, actions) && q < |actions|
    ensures q < |TagsOf(app, r)| ==> actions[q].RegisterTag? && actions[q].i in ScopedTo(app, app.graph[r].keyname)
    ensures q >= |TagsOf(app, r)| ==> IsOwn(actions[q]) && actions[q].r == r
    ensures actions[q].RunOnInit? ==> app.graph[r].onInit == Some(actions[q].hook)
  {
    var n, k := |TagsOf(app, r)|, |TagsOf(app, r)| + |app.graph[r].providers|;
    if q < n {
      PickedInOrder(ScopedTo(app, app.graph[r].keyname), |app.tags|);
      assert actions[q] == actions[..n][q] && TagsOf(app, r)[q] in TagsOf(app, r);
    } else if q < k {
      assert actions[q] == actions[n..k][q - n];
    } else {
      assert actions[q] == actions[k..][q - k];
    }
  }

  lemma BlockTagsFirst(app: App, r: Ref)
    requires r in app.graph
    ensures TagsFirst(app, Block(app, r))
    ensures forall a :: a in Block(app, r) && IsOwn(a) ==> a.r == r
    ensures forall a :: a in Block(app, r) && a.RegisterTag? ==> a.i in ScopedTo(app, app.graph[r].keyname)
  {
    var block := Block(app, r);
    BlockIsTurn(app, r);
    forall q: nat | q < |block|
      ensures if q < |TagsOf(app, r)| then block[q].RegisterTag? && block[q].i in ScopedTo(app, app.graph[r].keyname)
              else IsOwn(block[q]) && block[q].r == r
    {
      TurnAt(app, r, block, q);
    }
  }

  /** Where the actions of the init walk come from. */
  lemma {:induction false} InitPlanOrigins(app: App, es: seq<Event>)
    ensures forall a :: a in InitPlan(app, es) && IsOwn(a) ==> a.r in Left(es) && a.r in app.graph
    ensures forall a :: a in InitPlan(app, es) && a.RegisterTag? ==>
              exists r :: r in Left(es) && r in app.graph && a.i in ScopedTo(app, app.graph[r].keyname)
  {
    if es != [] {
      InitPlanOrigins(app, es[1..]);
      if es[0].Leave? && es[0].r in app.graph {
        BlockTagsFirst(app, es[0].r);
      }
    }
  }

  lemma {:induction false} InitPlanTagsFirst(app: App, es: seq<Event>)
    requires DistinctKeynames(app.graph, Left(es))
    ensures TagsFirst(app, InitPlan(app, es))
  {
    if es != [] {
      var rest := InitPlan(app, es[1..]);
      if es[0].Enter? {
        InitPlanTagsFirst(app, es[1..]);
        TagsFirstConcat(app, [Instantiate(es[0].r)], rest);
      } else {
        DistinctRest(app.graph, Left(es));
        InitPlanTagsFirst(app, es[1..]);
        BlockTagsFirst(app, es[0].r);
        InitPlanOrigins(app, es[1..]);
        TagsFirstConcat(app, Block(app, es[0].r), rest);
      }
    }
  }

  lemma DistinctRest(g: Graph, order: seq<Ref>)
    requires order != [] && DistinctKeynames(g, order)
    ensures DistinctKeynames(g, order[1..])
    ensures forall m :: m in order[1..] ==> g[m].keyname != g[order[0]].keyname
  {
    forall m | m in order[1..] ensures g[m].keyname != g[order[0]].keyname {
      var j :| 0 <= j < |order[1..]| && order[1..][j] == m;
      assert order[1 + j] == m;
    }
  }

  // -------------------------------------------------------------- the whole of a boot

  /** A module is completed right after its `afterInit` hook, or without one if it has none; a hook that nothing
      follows is one that threw. */
  ghost predicate HookThenComplete(app: App, actions: seq<Action>, threw: bool, k: nat) {
    k < |actions| ==>
      match actions[k]
      case RunAfterInit(r, h) =>
        && r in app.graph && app.graph[r].afterInit == Some(h)
        && if k + 1 < |actions| then actions[k + 1] == CompleteAfterInit(r) else threw
      case CompleteAfterInit(r) =>
        && r in app.graph
        && (app.graph[r].afterInit.Some? ==> k > 0 && actions[k - 1] == RunAfterInit(r, app.graph[r].afterInit.value))
      case _ => false
  }

  ghost predicate HooksThenComplete(app: App, actions: seq<Action>, threw: bool) {
    forall k: nat :: HookThenComplete(app, actions, threw, k)
  }

  lemma HooksThenCompleteConcat(app: App, a: seq<Action>, b: seq<Action>, threw: bool)
    requires HooksThenComplete(app, a, false) && HooksThenComplete(app, b, threw)
    ensures HooksThenComplete(app, a + b, threw)
  {
    forall k: nat ensures HookThenComplete(app, a + b, threw, k) {
      assert HookThenComplete(app, a, false, k);
      assert k >= |a| ==> HookThenComplete(app, b, threw, k - |a|);
    }
  }

  lemma CompletesOne(app: App, s: KernelState, r: Ref) returns (more: seq<Action>)
    requires r in app.graph
    ensures var ran := Run(app, s, AfterInitActions(r, app.graph[r].afterInit));
            ran.state.trace == s.trace + more && HooksThenComplete(app, more, ran.threw)
  {
    var hook := app.graph[r].afterInit;
    var k := RunTraces(app, s, AfterInitActions(r, hook));
    more := AfterInitActions(r, hook)[..k];
    assert hook.Some? ==> AfterInitActions(r, hook) == [RunAfterInit(r, hook.value), CompleteAfterInit(r)];
  }

  /** On any graph, a run of `afterInitModule` that is over has done nothing but that. */
  lemma {:induction false} AfterInitTraces(app: App, s: KernelState, r: Ref, n: nat) returns (more: seq<Action>)
    requires Closed(app.graph) && r in app.graph && AfterWithin(app, s, r, n).Some?
    ensures var ran := AfterWithin(app, s, r, n).value;
            ran.state.trace == s.trace + more && HooksThenComplete(app, more, ran.threw)
    decreases n, 0
  {
    more := AllAfterInitTraces(app, s, app.graph[r].imports, n - 1);
    var below := AfterAllWithin(app, s, app.graph[r].imports, n - 1).value;
    if !below.threw && app.graph[r].keyname !in Keynames(app.graph, below.state.afterInstantiated) {
      var last := CompletesOne(app, below.state, r);
      HooksThenCompleteConcat(app, more, last, AfterWithin(app, s, r, n).value.threw);
      more := more + last;
    }
  }

  lemma {:induction false} AllAfterInitTraces(app: App, s: KernelState, rs: seq<Ref>, n: nat)
      returns (more: seq<Action>)
    requires Closed(app.graph) && (forall m :: m in rs ==> m in app.graph) && AfterAllWithin(app, s, rs, n).Some?
    ensures var ran := AfterAllWithin(app, s, rs, n).value;
            ran.state.trace == s.trace + more && HooksThenComplete(app, more, ran.threw)
    decreases n, 1 + |rs|
  {
    more := [];
    if rs != [] {
      more := AfterInitTraces(app, s, rs[0], n);
      var first := AfterWithin(app, s, rs[0], n).value;
      if !first.threw {
        var rest := AllAfterInitTraces(app, first.state, rs[1..], n);
        HooksThenCompleteConcat(app, more, rest, AfterAllWithin(app, s, rs, n).value.threw);
        more := more + rest;
      }
    }
  }

  lemma TagsFirstPrefix(app: App, plan: seq<Action>, k: nat)
    requires TagsFirst(app, plan) && k <= |plan|
    ensures TagsFirst(app, plan[..k])
  {
  }

  lemma InitPhaseTagsFirst(app: App, container: Container, root: Ref)
    requires ValidApp(app) && root in app.graph
    ensures TagsFirst(app, InitPhase(app, KernelState([], [], container, []), root).state.trace)
  {
    var s := KernelState([], [], container, []);
    var es := Walk(app.graph, {}, root);
    assert Keynames(app.graph, []) == {};
    LeftDistinctKeynames(app.graph, root);
    InitPlanTagsFirst(app, es);
    var k := RunTraces(app, WithInstantiationId(s), InitPlan(app, es));
    TagsFirstPrefix(app, InitPlan(app, es), k);
  }

  lemma UnscopedNeverClash(app: App, y: Action)
    requires y in UnscopedTagActions(app, |app.tags|)
    ensures y.RegisterTag? && y.i in Unscoped(app)
  {
    var tags, picks := UnscopedTagActions(app, |app.tags|), Picked(Unscoped(app), |app.tags|);
    UnscopedTags(app, |app.tags|);
    PickedInOrder(Unscoped(app), |app.tags|);
    var j :| 0 <= j < |tags| && tags[j] == y;
    assert picks[j] in picks;
  }

  lemma TagPhaseTagsFirst(app: App, s: KernelState)
    requires TagsFirst(app, s.trace)
    ensures TagsFirst(app, TagPhase(app, s).state.trace)
  {
    var tags := UnscopedTagActions(app, |app.tags|);
    var k := RunTraces(app, s, tags);
    forall y | y in tags[..k] ensures y.RegisterTag? && y.i in Unscoped(app) {
      UnscopedNeverClash(app, y);
    }
    forall q | 0 <= q < k ensures tags[..k][q].RegisterTag? {
      assert tags[..k][q] in tags[..k];
    }
    TagsFirstConcat(app, s.trace, tags[..k]);
  }

  lemma NoTagsAfterInit(app: App, actions: seq<Action>, threw: bool)
    requires HooksThenComplete(app, actions, threw)
    ensures TagsFirst(app, actions) && forall a :: a in actions ==> !a.RegisterTag?
  {
    forall k: nat | k < |actions| ensures !actions[k].RegisterTag? {
      assert HookThenComplete(app, actions, threw, k);
    }
  }

  lemma AfterInitTagsFirst(app: App, s: KernelState, root: Ref, n: nat)
    requires Closed(app.graph) && root in app.graph && AfterWithin(app, s, root, n).Some? && TagsFirst(app, s.trace)
    ensures TagsFirst(app, AfterWithin(app, s, root, n).value.state.trace)
  {
    var more := AfterInitTraces(app, s, root, n);
    NoTagsAfterInit(app, more, AfterWithin(app, s, root, n).value.threw);
    TagsFirstConcat(app, s.trace, more);
  }

  /** However a boot of a fresh kernel ends, no provider and no `onInit` hook of a module has come before a tag that
      is scoped to that module. */
  lemma BootTagsFirst(app: App, depth: nat, container: Container, root: Ref, overrides: Record<Setting>)
    requires ValidApp(app) && root in app.graph && overrides.Valid()
    ensures var booted := Booted(app, depth, KernelState([], [], container, []), root, overrides);
            booted.Some? ==> TagsFirst(app, booted.value.state.trace)
  {
    var initialized := InitPhase(app, KernelState([], [], container, []), root);
    InitPhaseTagsFirst(app, container, root);
    if !initialized.threw && DefinitionPhase(app, initialized.state).Some? {
      DeclaresIffDistinct(Declared(app.graph, initialized.state.instantiated));
      var loaded := LoadPhase(app, initialized.state, DefinitionPhase(app, initialized.state).value, overrides);
      if !loaded.threw {
        TagPhaseTagsFirst(app, loaded.state);
        var tagged := TagPhase(app, loaded.state);
        if !tagged.threw && AfterWithin(app, tagged.state, root, depth).Some? {
          AfterInitTagsFirst(app, tagged.state, root, depth);
        }
      }
    }
  }

  // ------------------------------------------------------------------ where a boot stops

  /** The init walk, the registration of the definitions and the configuration phase all return. */
  ghost predicate Loads(app: App, s: KernelState, root: Ref, overrides: Record<Setting>)
    requires ValidApp(app) && root in app.graph && overrides.Valid()
  {
    var initialized := InitPhase(app, s, root);
    && !initialized.threw && DefinitionPhase(app, initialized.state).Some?
    && DefinitionPhase(app, initialized.state).value.Valid()
    && !LoadPhase(app, initialized.state, DefinitionPhase(app, initialized.state).value, overrides).threw
  }

  /** The first `i` actions of the init walk, the first `j` unscoped tags, and the hooks: nothing is begun before
      all that comes first is done, and whatever is not done makes the boot throw. */
  ghost predicate StopsAt(plan: seq<Action>, tags: seq<Action>, loads: bool, trace: seq<Action>, threw: bool, i: nat,
      j: nat, hooks: seq<Action>)
  {
    && i <= |plan| && j <= |tags| && trace == plan[..i] + tags[..j] + hooks
    && (i < |plan| || !loads ==> threw && j == 0 && hooks == [])
    && (j < |tags| ==> threw && hooks == [])
  }

  lemma ThrowsLater(app: App, actions: seq<Action>, threw: bool)
    requires HooksThenComplete(app, actions, false)
    ensures HooksThenComplete(app, actions, threw)
  {
    forall k: nat ensures HookThenComplete(app, actions, threw, k) {
      assert HookThenComplete(app, actions, false, k);
    }
  }

  lemma TagsOnStop(app: App, depth: nat, s: KernelState, root: Ref) returns (j: nat, hooks: seq<Action>)
    requires ValidApp(app) && root in app.graph && BootedFromTags(app, depth, s, root).Some?
    ensures var booted, tags := BootedFromTags(app, depth, s, root).value, UnscopedTagActions(app, |app.tags|);
            && j <= |tags| && booted.state.trace == s.trace + tags[..j] + hooks
            && (j < |tags| ==> booted.threw && hooks == [])
            && HooksThenComplete(app, hooks, booted.threw)
  {
    var tagged := TagPhase(app, s);
    j := RunTraces(app, s, UnscopedTagActions(app, |app.tags|));
    if tagged.threw {
      hooks := [];
      assert tagged.state.trace + [] == tagged.state.trace;
    } else {
      var completed := AfterWithin(app, tagged.state, root, depth).value;
      hooks := AfterInitTraces(app, tagged.state, root, depth);
      if !completed.threw {
        ThrowsLater(app, hooks, BootedFromTags(app, depth, s, root).value.threw);
      }
    }
  }

  lemma InitStops(app: App, container: Container, root: Ref) returns (i: nat)
    requires ValidApp(app) && root in app.graph
    ensures var initialized, plan := InitPhase(app, KernelState([], [], container, []), root),
                                     InitPlan(app, Walk(app.graph, {}, root));
            && i <= |plan| && initialized.state.trace == plan[..i] && (i < |plan| ==> initialized.threw)
  {
    assert Keynames(app.graph, []) == {};
    var s := WithInstantiationId(KernelState([], [], container, []));
    i := RunTraces(app, s, InitPlan(app, Walk(app.graph, {}, root)));
  }

  lemma UnloadedThrows(app: App, depth: nat, s: KernelState, root: Ref, overrides: Record<Setting>)
    requires ValidApp(app) && root in app.graph && overrides.Valid() && !Loads(app, s, root, overrides)
    requires Booted(app, depth, s, root, overrides).Some?
    ensures var booted := Booted(app, depth, s, root, overrides).value;
            booted.threw && booted.state.trace == InitPhase(app, s, root).state.trace
  {
    var initialized := InitPhase(app, s, root);
    if !initialized.threw && DefinitionPhase(app, initialized.state).Some? {
      DeclaresIffDistinct(Declared(app.graph, initialized.state.instantiated));
    }
  }

  /** However a boot of a fresh kernel ends, nothing is done after a phase that throws. */
  lemma BootStopsWhereItThrows(app: App, depth: nat, container: Container, root: Ref, overrides: Record<Setting>)
      returns (i: nat, j: nat, hooks: seq<Action>)
    requires ValidApp(app) && root in app.graph && overrides.Valid()
    requires Booted(app, depth, KernelState([], [], container, []), root, overrides).Some?
    ensures var s := KernelState([], [], container, []);
            var booted := Booted(app, depth, s, root, overrides).value;
            && StopsAt(InitPlan(app, Walk(app.graph, {}, root)), UnscopedTagActions(app, |app.tags|),
                       Loads(app, s, root, overrides), booted.state.trace, booted.threw, i, j, hooks)
            && HooksThenComplete(app, hooks, booted.threw)
  {
    var s := KernelState([], [], container, []);
    var initialized := InitPhase(app, s, root);
    i := InitStops(app, container, root);
    if Loads(app, s, root, overrides) {
      var definitions := DefinitionPhase(app, initialized.state).value;
      j, hooks := TagsOnStop(app, depth, LoadPhase(app, initialized.state, definitions, overrides).state, root);
    } else {
      j, hooks := 0, [];
      UnloadedThrows(app, depth, s, root, overrides);
    }
  }
}
