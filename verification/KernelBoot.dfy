/** What a whole boot has done: which registrations happened, how often and in which order. */
module KernelBoot {
  import opened Common
  import opened Container
  import opened ModuleGraph
  import opened ModuleOrder
  import opened ModuleCycles
  import opened KernelPlan
  import opened AfterInit
  import opened KernelPhases
  import opened KernelConfiguration

  // --------------------------------------------------- tagged registrations, exactly once

  ghost function TagCount(plan: seq<Action>, i: nat): nat {
    if plan == [] then 0
    else (if plan[0].RegisterTag? && plan[0].i == i then 1 else 0) + TagCount(plan[1..], i)
  }

  lemma {:induction false} TagCountConcat(a: seq<Action>, b: seq<Action>, i: nat)
    ensures TagCount(a + b, i) == TagCount(a, i) + TagCount(b, i)
  {
    if a == [] {
      assert a + b == b;
    } else {
      TagCountConcat(a[1..], b, i);
      assert (a + b)[1..] == a[1..] + b;
    }
  }

  lemma {:induction false} NoTags(plan: seq<Action>, i: nat)
    requires forall a :: a in plan ==> !a.RegisterTag?
    ensures TagCount(plan, i) == 0
  {
    if plan != [] {
      NoTags(plan[1..], i);
    }
  }

  lemma {:induction false} ScopedTagCount(app: App, keyname: string, n: nat, i: nat)
    requires n <= |app.tags|
    ensures TagCount(TagActions(app, keyname, n), i)
         == if i < n && ScopeOf(app, app.tags[i]) == Some(keyname) then 1 else 0
  {
    if n > 0 {
      ScopedTagCount(app, keyname, n - 1, i);
      TagCountConcat(TagActions(app, keyname, n - 1), [RegisterTag(n - 1, app.tags[n - 1].registration)], i);
    }
  }

  lemma {:induction false} UnscopedTagCount(app: App, n: nat, i: nat)
    requires n <= |app.tags|
    ensures TagCount(UnscopedTagActions(app, n), i) == if i < n && ScopeOf(app, app.tags[i]) == None then 1 else 0
  {
    if n > 0 {
      UnscopedTagCount(app, n - 1, i);
      TagCountConcat(UnscopedTagActions(app, n - 1), [RegisterTag(n - 1, app.tags[n - 1].registration)], i);
    }
  }

  lemma BlockTagCount(app: App, r: Ref, i: nat)
    requires r in app.graph && i < |app.tags|
    ensures TagCount(Block(app, r), i) == if ScopeOf(app, app.tags[i]) == Some(app.graph[r].keyname) then 1 else 0
  {
    var m := app.graph[r];
    var tags, providers := TagActions(app, m.keyname, |app.tags|), ProviderActions(r, m.providers);
    ScopedTagCount(app, m.keyname, |app.tags|, i);
    ProviderActionsAreProviders(r, m.providers);
    NoTags(providers, i);
    NoTags(OnInitActions(r, m.onInit), i);
    TagCountConcat(tags, providers, i);
    TagCountConcat(tags + providers, OnInitActions(r, m.onInit), i);
  }

  /** How many of the modules carry a keyname. */
  ghost function Carriers(g: Graph, rs: seq<Ref>, keyname: string): nat {
    if rs == [] then 0
    else (if rs[0] in g && g[rs[0]].keyname == keyname then 1 else 0) + Carriers(g, rs[1..], keyname)
  }

  lemma {:induction false} DistinctCarriers(g: Graph, rs: seq<Ref>, keyname: string)
    requires DistinctKeynames(g, rs)
    ensures Carriers(g, rs, keyname) == if keyname in Keynames(g, rs) then 1 else 0
  {
    if rs != [] {
      DistinctCarriers(g, rs[1..], keyname);
      KeynamesSplit(g, rs);
      assert Keynames(g, [rs[0]]) == {g[rs[0]].keyname};
      forall m | m in rs[1..] ensures g[m].keyname != g[rs[0]].keyname {
        var j :| 0 <= j < |rs[1..]| && rs[1..][j] == m;
        assert g[rs[0]].keyname != g[rs[j + 1]].keyname;
      }
    }
  }

  lemma {:induction false} PlanTagCount(app: App, es: seq<Event>, i: nat)
    requires i < |app.tags|
    ensures TagCount(InitPlan(app, es), i)
         == match ScopeOf(app, app.tags[i]) case None => 0 case Some(k) => Carriers(app.graph, Left(es), k)
  {
    if es != [] {
      PlanTagCount(app, es[1..], i);
      TagCountConcat(EventActions(app, es[0]), InitPlan(app, es[1..]), i);
      if es[0].Enter? {
        NoTags([Instantiate(es[0].r)], i);
      } else if es[0].r in app.graph {
        BlockTagCount(app, es[0].r, i);
      }
    }
  }

  lemma DistinctByMembership(g: Graph, entered: seq<Ref>, left: seq<Ref>)
    requires DistinctKeynames(g, entered) && Distinct(left) && forall m :: m in left ==> m in entered
    ensures DistinctKeynames(g, left)
  {
  }

  lemma LeftDistinctKeynames(g: Graph, r: Ref)
    requires Closed(g) && r in g
    ensures DistinctKeynames(g, Left(Walk(g, {}, r)))
    ensures Keynames(g, Left(Walk(g, {}, r))) == Keynames(g, Entered(Walk(g, {}, r)))
  {
    var entered, left := Entered(Walk(g, {}, r)), Left(Walk(g, {}, r));
    assert Distinct(left) && DistinctKeynames(g, entered) by {
      LeftOnce(g, r);
      WalkVisits(g, {}, r);
    }
    forall m ensures m in left <==> m in entered {
      LeftIsEntered(g, r, m);
    }
    DistinctByMembership(g, entered, left);
  }

  /** After the init walk and the pass over unscoped tags, a tagged provider has been registered exactly once
      when its class is unscoped or its module is instantiated, and never otherwise. */
  lemma TaggedProvidersRegisteredOnce(app: App, root: Ref, i: nat)
    requires Closed(app.graph) && root in app.graph && i < |app.tags|
    ensures var es := Walk(app.graph, {}, root);
            TagCount(InitPlan(app, es) + UnscopedTagActions(app, |app.tags|), i)
            == match ScopeOf(app, app.tags[i])
               case None => 1
               case Some(k) => if k in Keynames(app.graph, Entered(es)) then 1 else 0
  {
    var es := Walk(app.graph, {}, root);
    TagCountConcat(InitPlan(app, es), UnscopedTagActions(app, |app.tags|), i);
    PlanTagCount(app, es, i);
    UnscopedTagCount(app, |app.tags|, i);
    if ScopeOf(app, app.tags[i]).Some? {
      var k := ScopeOf(app, app.tags[i]).value;
      LeftDistinctKeynames(app.graph, root);
      DistinctCarriers(app.graph, Left(es), k);
    }
  }

  // ------------------------------------------------------- registrations in import order

  /** The actions other than marking a module. */
  ghost function Unmarked(plan: seq<Action>): seq<Action> {
    if plan == [] then []
    else if plan[0].Instantiate? then Unmarked(plan[1..])
    else [plan[0]] + Unmarked(plan[1..])
  }

  lemma {:induction false} UnmarkedConcat(a: seq<Action>, b: seq<Action>)
    ensures Unmarked(a + b) == Unmarked(a) + Unmarked(b)
  {
    if a == [] {
      assert a + b == b;
    } else {
      var first, rest := a[0], a[1..];
      UnmarkedConcat(rest, b);
      Associative([first], rest, b);
      Associative(if first.Instantiate? then [] else [first], Unmarked(rest), Unmarked(b));
      assert a == [first] + rest;
    }
  }

  lemma {:induction false} NothingMarked(plan: seq<Action>)
    requires forall a :: a in plan ==> !a.Instantiate?
    ensures Unmarked(plan) == plan
  {
    if plan != [] {
      NothingMarked(plan[1..]);
    }
  }

  ghost function Blocks(app: App, order: seq<Ref>): seq<Action> {
    if order == [] then []
    else if order[0] in app.graph then Block(app, order[0]) + Blocks(app, order[1..])
    else Blocks(app, order[1..])
  }

  lemma {:induction false} PlanIsBlocks(app: App, es: seq<Event>)
    ensures Unmarked(InitPlan(app, es)) == Blocks(app, Left(es))
  {
    if es != [] {
      PlanIsBlocks(app, es[1..]);
      UnmarkedConcat(EventActions(app, es[0]), InitPlan(app, es[1..]));
      if es[0].Leave? {
        if es[0].r in app.graph { BlockKinds(app, es[0].r); }
        NothingMarked(EventActions(app, es[0]));
        assert Unmarked([]) == [];
      } else {
        assert Unmarked([Instantiate(es[0].r)]) == [];
      }
    }
  }

  // ---------------------------------------------------------------------- a whole boot

  /** Performing a plan to its end adds exactly its actions and its marks. */
  lemma RunToEnd(app: App, s: KernelState, plan: seq<Action>)
    requires !Run(app, s, plan).threw
    ensures var s' := Run(app, s, plan).state;
            && s'.trace == s.trace + plan
            && s'.instantiated == s.instantiated + Instantiations(plan)
            && s'.afterInstantiated == s.afterInstantiated + Completions(plan)
  {
    var k := RunTraces(app, s, plan);
    assert plan[..k] == plan;
  }

  lemma {:induction false} NoCompletions(plan: seq<Action>)
    requires forall a :: a in plan ==> !a.CompleteAfterInit?
    ensures Completions(plan) == []
  {
    if plan != [] {
      NoCompletions(plan[..|plan| - 1]);
    }
  }

  lemma {:induction false} InitPlanKinds(app: App, es: seq<Event>)
    ensures forall a :: a in InitPlan(app, es) ==> !a.CompleteAfterInit? && !a.RunAfterInit?
  {
    if es != [] {
      InitPlanKinds(app, es[1..]);
      if es[0].Leave? && es[0].r in app.graph { BlockKinds(app, es[0].r); }
    }
  }

  lemma {:induction false} UnscopedKinds(app: App, n: nat)
    requires n <= |app.tags|
    ensures forall a :: a in UnscopedTagActions(app, n) ==> a.RegisterTag?
  {
    if n > 0 {
      UnscopedKinds(app, n - 1);
    }
  }

  lemma {:induction false} AfterPlanKinds(app: App, order: seq<Ref>)
    ensures forall a :: a in AfterPlan(app, order) ==> a.RunAfterInit? || a.CompleteAfterInit?
  {
    if order != [] {
      AfterPlanKinds(app, order[1..]);
    }
  }

  lemma InitPhaseDoes(app: App, container: Container, root: Ref)
    requires ValidApp(app) && root in app.graph && !InitPhase(app, KernelState([], [], container, []), root).threw
    ensures var s := InitPhase(app, KernelState([], [], container, []), root).state;
            var es := Walk(app.graph, {}, root);
            && s.instantiated == Entered(es) && s.afterInstantiated == [] && s.trace == InitPlan(app, es)
  {
    var es := Walk(app.graph, {}, root);
    assert Keynames(app.graph, []) == {};
    RunToEnd(app, WithInstantiationId(KernelState([], [], container, [])), InitPlan(app, es));
    InitPlanInstantiates(app, es);
    InitPlanKinds(app, es);
    NoCompletions(InitPlan(app, es));
  }

  lemma TagPhaseDoes(app: App, s: KernelState)
    requires !TagPhase(app, s).threw
    ensures var s' := TagPhase(app, s).state;
            && s'.instantiated == s.instantiated && s'.afterInstantiated == s.afterInstantiated
            && s'.trace == s.trace + UnscopedTagActions(app, |app.tags|)
  {
    var tags := UnscopedTagActions(app, |app.tags|);
    RunToEnd(app, s, tags);
    UnscopedKinds(app, |app.tags|);
    NoInstantiations(tags);
    NoCompletions(tags);
  }

  lemma AfterInitDoes(app: App, depth: nat, s: KernelState, root: Ref)
    requires ValidApp(app) && Unique(app.graph) && root in app.graph && s.afterInstantiated == []
    requires Returns(AfterWithin(app, s, root, depth))
    ensures var s' := AfterWithin(app, s, root, depth).value.state;
            var order := Left(Walk(app.graph, {}, root));
            && s'.instantiated == s.instantiated && s'.afterInstantiated == order
            && s'.trace == s.trace + AfterPlan(app, order)
  {
    var order := Left(Walk(app.graph, {}, root));
    ReturnsInInitOrder(app, s, root, depth);
    LeftOnce(app.graph, root);
    RunToEnd(app, s, AfterPlan(app, order));
    AfterPlanKinds(app, order);
    NoInstantiations(AfterPlan(app, order));
    AfterPlanCompletes(app, order);
  }

  /** A fresh kernel whose `start` returns has instantiated exactly the reachable modules in discovery order,
      has completed `afterInit` in the order in which `onInit` completed, and has performed exactly the
      actions of the three walks. */
  lemma BootedDoesExactlyThis(
      app: App, depth: nat, container: Container, root: Ref, overrides: Record<Setting>)
    requires ValidApp(app) && Unique(app.graph) && root in app.graph && overrides.Valid()
    requires Returns(Booted(app, depth, KernelState([], [], container, []), root, overrides))
    ensures var es := Walk(app.graph, {}, root);
            var s := Booted(app, depth, KernelState([], [], container, []), root, overrides).value.state;
            && s.instantiated == Entered(es)
            && (forall m :: m in s.instantiated <==> Reaches(app.graph, root, m))
            && s.afterInstantiated == Left(es)
            && s.trace == InitPlan(app, es) + UnscopedTagActions(app, |app.tags|) + AfterPlan(app, Left(es))
  {
    InitPhaseDoes(app, container, root);
    var s1 := InitPhase(app, KernelState([], [], container, []), root).state;
    DeclaresIffDistinct(Declared(app.graph, s1.instantiated));
    var s2 := LoadPhase(app, s1, DefinitionPhase(app, s1).value, overrides).state;
    TagPhaseDoes(app, s2);
    AfterInitDoes(app, depth, TagPhase(app, s2).state, root);
    WalkVisitsExactlyReachable(app.graph, root);
  }
}
