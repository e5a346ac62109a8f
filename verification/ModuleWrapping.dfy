/** The second walker (`pristine info`) and the two synthetic outer modules (`.with-plugins` and
    `.with-cli`), and what the kernel's walk makes of them. */
module ModuleWrapping {
  import opened Common
  import opened ModuleGraph
  import opened ModuleOrder

  // ---------------------------------------------------------------- collectModules

  /** The closure of `collectModules`: its two captured variables and its inner function. */
  class ModuleCollector {
    const graph: Graph
    var seen: set<string>
    var flat: seq<Ref>

    constructor (graph: Graph)
      ensures this.graph == graph && seen == {} && flat == []
    {
      this.graph := graph;
      seen, flat := {}, [];
    }

    method Walk(m: Ref)
      requires Closed(graph) && m in graph
      modifies this
      ensures flat == old(flat) + Entered(ModuleGraph.Walk(graph, old(seen), m))
      ensures seen == old(seen) + Keynames(graph, Entered(ModuleGraph.Walk(graph, old(seen), m)))
      decreases AllKeynames(graph) - seen
    {
      if graph[m].keyname in seen { return; }
      assert graph[m].keyname in AllKeynames(graph);
      seen := seen + {graph[m].keyname};
      flat := flat + [m];
      ghost var seen0, flat0, visited := seen, flat, [];
      var i := 0;
      while i < |graph[m].imports|
        invariant 0 <= i <= |graph[m].imports|
        invariant visited == Entered(WalkAll(graph, seen0, graph[m].imports[..i]))
        invariant flat == flat0 + visited
        invariant seen == seen0 + Keynames(graph, visited)
      {
        WalkNext(graph, seen0, graph[m].imports, i);
        ghost var next := Entered(ModuleGraph.Walk(graph, seen, graph[m].imports[i]));
        Walk(graph[m].imports[i]);
        Associative(flat0, visited, next);
        visited := visited + next;
        i := i + 1;
      }
      assert graph[m].imports[..i] == graph[m].imports;
      WalkClose(graph, old(seen), m);
      Associative(old(flat), [m], visited);
    }
  }

  lemma WalkClose(g: Graph, seen: set<string>, r: Ref)
    requires Closed(g) && r in g && g[r].keyname !in seen
    ensures var inner := WalkAll(g, seen + {g[r].keyname}, g[r].imports);
            && Entered(Walk(g, seen, r)) == [r] + Entered(inner)
            && Left(Walk(g, seen, r)) == Left(inner) + [r]
            && seen + Keynames(g, Entered(Walk(g, seen, r)))
               == seen + {g[r].keyname} + Keynames(g, Entered(inner))
  {
    WalkUnfold(g, seen, r);
    assert Keynames(g, [r]) == {g[r].keyname};
    KeynamesAccumulate(g, seen, [r], Entered(WalkAll(g, seen + {g[r].keyname}, g[r].imports)));
  }

  lemma {:induction false} WalkAllSnoc(g: Graph, seen: set<string>, rs: seq<Ref>, x: Ref)
    requires Closed(g) && x in g && forall m :: m in rs ==> m in g
    ensures var before := WalkAll(g, seen, rs);
            var last := Walk(g, seen + Keynames(g, Entered(before)), x);
            && WalkAll(g, seen, rs + [x]) == before + last
            && Entered(before + last) == Entered(before) + Entered(last)
            && Left(before + last) == Left(before) + Left(last)
            && seen + Keynames(g, Entered(before + last))
               == seen + Keynames(g, Entered(before)) + Keynames(g, Entered(last))
    decreases |rs|
  {
    var before := WalkAll(g, seen, rs);
    var last := Walk(g, seen + Keynames(g, Entered(before)), x);
    WalkAllSnocEvents(g, seen, rs, x);
    EnteredConcat(before, last);
    LeftConcat(before, last);
    KeynamesAccumulate(g, seen, Entered(before), Entered(last));
  }

  /** One more import of the list, in the terms a loop over the list keeps. */
  lemma WalkNext(g: Graph, seen: set<string>, ms: seq<Ref>, i: nat)
    requires Closed(g) && i < |ms| && forall m :: m in ms ==> m in g
    ensures var before := WalkAll(g, seen, ms[..i]);
            var next := Walk(g, seen + Keynames(g, Entered(before)), ms[i]);
            var after := WalkAll(g, seen, ms[..i + 1]);
            && after == before + next
            && Entered(after) == Entered(before) + Entered(next)
            && Left(after) == Left(before) + Left(next)
            && seen + Keynames(g, Entered(after)) == seen + Keynames(g, Entered(before)) + Keynames(g, Entered(next))
  {
    assert ms[..i + 1] == ms[..i] + [ms[i]];
    WalkAllSnoc(g, seen, ms[..i], ms[i]);
  }

  lemma {:induction false} WalkAllSnocEvents(g: Graph, seen: set<string>, rs: seq<Ref>, x: Ref)
    requires Closed(g) && x in g && forall m :: m in rs ==> m in g
    ensures WalkAll(g, seen, rs + [x])
         == WalkAll(g, seen, rs) + Walk(g, seen + Keynames(g, Entered(WalkAll(g, seen, rs))), x)
    decreases |rs|
  {
    if rs == [] {
      assert rs + [x] == [x];
      assert seen + Keynames(g, []) == seen;
      WalkAllSingle(g, seen, x);
    } else {
      var first := Walk(g, seen, rs[0]);
      var seen' := seen + Keynames(g, Entered(first));
      var rest := WalkAll(g, seen', rs[1..]);
      WalkAllSnocEvents(g, seen', rs[1..], x);
      WalkAllUnfold(g, seen, rs);
      KeynamesAccumulate(g, seen, Entered(first), Entered(rest));
      var last := Walk(g, seen' + Keynames(g, Entered(rest)), x);
      WalkAllUnfold(g, seen, rs + [x]);
      assert (rs + [x])[1..] == rs[1..] + [x] && (rs + [x])[0] == rs[0];
      Associative(first, rest, last);
    }
  }

  /** The list `pristine info` prints is the kernel's discovery order, on every graph. */
  method CollectModules(graph: Graph, root: Ref) returns (flat: seq<Ref>)
    requires Closed(graph) && root in graph
    ensures flat == Entered(Walk(graph, {}, root))
  {
    var collector := new ModuleCollector(graph);
    collector.Walk(root);
    flat := collector.flat;
  }

  // -------------------------------------------------------------------- wrapping

  /** `w` is a new module object that only imports `rs` under the name `keyname`. */
  function Wrapper(keyname: string, rs: seq<Ref>): Module {
    Module(keyname, rs, [], [], Empty(), None, None, None)
  }

  function Wrapped(g: Graph, w: Ref, keyname: string, rs: seq<Ref>): Graph {
    g[w := Wrapper(keyname, rs)]
  }

  lemma WrappedClosed(g: Graph, w: Ref, keyname: string, rs: seq<Ref>)
    requires Closed(g) && w !in g && forall m :: m in rs ==> m in g
    ensures Closed(Wrapped(g, w, keyname, rs))
  {
  }

  lemma {:induction false} WalkIgnoresWrapper(
      g: Graph, w: Ref, keyname: string, rs: seq<Ref>, seen: set<string>, r: Ref)
    requires Closed(g) && w !in g && r in g && forall m :: m in rs ==> m in g
    requires keyname !in Keynames(g, Entered(Walk(g, seen, r)))
    ensures Closed(Wrapped(g, w, keyname, rs))
    ensures Walk(Wrapped(g, w, keyname, rs), seen + {keyname}, r) == Walk(g, seen, r)
    decreases AllKeynames(g) - seen, 0
  {
    WrappedClosed(g, w, keyname, rs);
    var g' := Wrapped(g, w, keyname, rs);
    var name := g[r].keyname;
    if name !in seen {
      assert name in AllKeynames(g);
      WalkUnfold(g, seen, r);
      var inner := WalkAll(g, seen + {name}, g[r].imports);
      KeynamesConcat(g, [r], Entered(inner));
      assert name in Keynames(g, [r]);
      WalkAllIgnoresWrapper(g, w, keyname, rs, seen + {name}, g[r].imports);
      assert seen + {name} + {keyname} == seen + {keyname} + {name};
    }
  }

  lemma {:induction false} WalkAllIgnoresWrapper(
      g: Graph, w: Ref, keyname: string, rs: seq<Ref>, seen: set<string>, ms: seq<Ref>)
    requires Closed(g) && w !in g && (forall m :: m in rs ==> m in g) && (forall m :: m in ms ==> m in g)
    requires keyname !in Keynames(g, Entered(WalkAll(g, seen, ms)))
    ensures Closed(Wrapped(g, w, keyname, rs))
    ensures WalkAll(Wrapped(g, w, keyname, rs), seen + {keyname}, ms) == WalkAll(g, seen, ms)
    decreases AllKeynames(g) - seen, |ms|
  {
    WrappedClosed(g, w, keyname, rs);
    var g' := Wrapped(g, w, keyname, rs);
    if ms != [] {
      var first := Walk(g, seen, ms[0]);
      var seen' := seen + Keynames(g, Entered(first));
      var rest := WalkAll(g, seen', ms[1..]);
      WalkAllUnfold(g, seen, ms);
      KeynamesConcat(g, Entered(first), Entered(rest));
      WalkIgnoresWrapper(g, w, keyname, rs, seen, ms[0]);
      WalkAllIgnoresWrapper(g, w, keyname, rs, seen', ms[1..]);
      SeenIgnoresWrapper(g, w, keyname, rs, seen, ms[0]);
      WalkAllUnfold(g', seen + {keyname}, ms);
    }
  }

  lemma SeenIgnoresWrapper(g: Graph, w: Ref, keyname: string, rs: seq<Ref>, seen: set<string>, r: Ref)
    requires Closed(g) && w !in g && r in g
    ensures var entered := Entered(Walk(g, seen, r));
            seen + Keynames(g, entered) + {keyname} == seen + {keyname} + Keynames(Wrapped(g, w, keyname, rs), entered)
  {
  }

  /** A module that carries the wrapper's keyname keeps the wrapped walk from being that walk in a wrapper. */
  lemma TakenKeynameSkips(g: Graph, w: Ref, keyname: string, inner: seq<Event>)
    requires w in g && g[w].keyname == keyname && w !in Entered(inner)
    requires exists m :: m in Entered(inner) && m in g && g[m].keyname == keyname
    ensures !DistinctKeynames(g, Entered([Enter(w)] + inner + [Leave(w)]))
  {
    WrappedEvents(w, inner);
    var m :| m in Entered(inner) && m in g && g[m].keyname == keyname;
    var i :| 0 <= i < |Entered(inner)| && Entered(inner)[i] == m;
    var es := [w] + Entered(inner);
    assert es[i + 1] == m && es[0] == w;
  }

  lemma WrapTransparentIfFresh(g: Graph, w: Ref, keyname: string, rs: seq<Ref>)
    requires Closed(g) && w !in g && forall m :: m in rs ==> m in g
    requires keyname !in Keynames(g, Entered(WalkAll(g, {}, rs)))
    ensures Closed(Wrapped(g, w, keyname, rs))
    ensures Walk(Wrapped(g, w, keyname, rs), {}, w) == [Enter(w)] + WalkAll(g, {}, rs) + [Leave(w)]
  {
    WrappedClosed(g, w, keyname, rs);
    WalkAllIgnoresWrapper(g, w, keyname, rs, {}, rs);
    assert {} + {keyname} == {keyname};
  }

  /** Wrapping puts exactly one module around the walk of the wrapped list: exactly when no module
      that the list reaches already carries the wrapper's keyname. */
  lemma WrapTransparentIffKeynameFresh(g: Graph, w: Ref, keyname: string, rs: seq<Ref>)
    requires Closed(g) && w !in g && forall m :: m in rs ==> m in g
    ensures Closed(Wrapped(g, w, keyname, rs))
    ensures keyname !in Keynames(g, Entered(WalkAll(g, {}, rs)))
       <==> Walk(Wrapped(g, w, keyname, rs), {}, w) == [Enter(w)] + WalkAll(g, {}, rs) + [Leave(w)]
  {
    WrappedClosed(g, w, keyname, rs);
    if keyname !in Keynames(g, Entered(WalkAll(g, {}, rs))) {
      WrapTransparentIfFresh(g, w, keyname, rs);
    } else {
      var g', inner := Wrapped(g, w, keyname, rs), WalkAll(g, {}, rs);
      WalkVisits(g', {}, w);
      WalkAllVisits(g, {}, rs);
      var m :| m in Entered(inner) && m in g && g[m].keyname == keyname;
      assert m in g' && g'[m].keyname == keyname;
      TakenKeynameSkips(g', w, keyname, inner);
    }
  }

  lemma OneCarrier(g: Graph, w: Ref, m: Ref)
    requires Closed(g) && w in g && m in g && m != w && g[m].keyname == g[w].keyname
    ensures m !in Entered(Walk(g, {}, w))
  {
    var order := Entered(Walk(g, {}, w));
    WalkVisits(g, {}, w);
    WalkUnfold(g, {}, w);
    assert order[0] == w;
  }

  lemma ImportIsEntered(g: Graph, r: Ref, m: Ref)
    requires Closed(g) && r in g && g[r].imports == [m] && g[m].keyname != g[r].keyname
    ensures m in Entered(Walk(g, {}, r))
  {
    var seen := {} + {g[r].keyname};
    WalkUnfold(g, {}, r);
    WalkAllSingle(g, seen, m);
    WalkUnfold(g, seen, m);
  }

  /** An application that imports a module called as the wrapper will be: wrapped, it never initialises it. */
  lemma TakenKeynameHidesAModule(g: Graph)
    requires g == map[0 := Wrapper("app", [1]), 1 := Wrapper("app.with-cli", []), 2 := Wrapper("cli", [])]
    ensures Closed(g) && 1 in Entered(Walk(g, {}, 0))
    ensures Closed(Wrapped(g, 3, "app.with-cli", [0, 2]))
    ensures 1 !in Entered(Walk(Wrapped(g, 3, "app.with-cli", [0, 2]), {}, 3))
  {
    ImportIsEntered(g, 0, 1);
    WrappedClosed(g, 3, "app.with-cli", [0, 2]);
    OneCarrier(Wrapped(g, 3, "app.with-cli", [0, 2]), 3, 1);
  }

  lemma WalkAllPair(g: Graph, a: Ref, b: Ref)
    requires Closed(g) && a in g && b in g
    ensures WalkAll(g, {}, [a, b]) == Walk(g, {}, a) + Walk(g, Keynames(g, Entered(Walk(g, {}, a))), b)
  {
    var first := Walk(g, {}, a);
    WalkAllUnfold(g, {}, [a, b]);
    assert {} + Keynames(g, Entered(first)) == Keynames(g, Entered(first));
    assert [a, b][1..] == [b];
    WalkAllSingle(g, Keynames(g, Entered(first)), b);
  }

  lemma WrappedOrders(w: Ref, a: seq<Event>, b: seq<Event>)
    ensures Entered([Enter(w)] + (a + b) + [Leave(w)]) == [w] + Entered(a) + Entered(b)
    ensures Left([Enter(w)] + (a + b) + [Leave(w)]) == Left(a) + Left(b) + [w]
  {
    EnteredConcat(a, b);
    LeftConcat(a, b);
    WrappedEvents(w, a + b);
    Associative([w], Entered(a), Entered(b));
  }

  /** `Cli.wrapWithCliModule`: when the CLI module's keyname is already reached by the application,
      the init sequence is the original one followed by the wrapper; otherwise the modules the CLI
      module newly brings come in between. */
  lemma WrapWithCli(g: Graph, w: Ref, app: Ref, cli: Ref)
    requires Closed(g) && w !in g && app in g && cli in g
    requires g[app].keyname + ".with-cli" !in Keynames(g, Entered(WalkAll(g, {}, [app, cli])))
    ensures var g' := Wrapped(g, w, g[app].keyname + ".with-cli", [app, cli]);
            var original := Walk(g, {}, app);
            var extra := Walk(g, Keynames(g, Entered(original)), cli);
            && Closed(g')
            && Left(Walk(g', {}, w)) == Left(original) + Left(extra) + [w]
            && Entered(Walk(g', {}, w)) == [w] + Entered(original) + Entered(extra)
            && (g[cli].keyname in Keynames(g, Entered(original)) ==> extra == [])
  {
    WrapTransparentIffKeynameFresh(g, w, g[app].keyname + ".with-cli", [app, cli]);
    WalkAllPair(g, app, cli);
    var original := Walk(g, {}, app);
    WrappedOrders(w, original, Walk(g, Keynames(g, Entered(original)), cli));
  }

  lemma WalkAllMarks(g: Graph, rs: seq<Ref>)
    requires Closed(g) && forall m :: m in rs ==> m in g
    ensures var visited := Entered(WalkAll(g, {}, rs));
            && (forall m :: m in visited ==> m in g)
            && ImportsMarked(g, Keynames(g, visited), visited) && Keynames(g, rs) <= Keynames(g, visited)
  {
    var visited := Entered(WalkAll(g, {}, rs));
    WalkAllReaches(g, {}, rs);
    WalkAllVisits(g, {}, rs);
    assert {} + Keynames(g, visited) == Keynames(g, visited);
  }

  lemma WalkAllVisitsReached(g: Graph, rs: seq<Ref>, i: Ref, m: Ref)
    requires Closed(g) && Unique(g) && (forall m :: m in rs ==> m in g) && i in rs && Reaches(g, i, m)
    ensures m in Entered(WalkAll(g, {}, rs))
  {
    var visited := Entered(WalkAll(g, {}, rs));
    WalkAllMarks(g, rs);
    var p :| IsPathFrom(g, i, p, m);
    NamedIsThere(g, visited, i, Keynames(g, rs));
    MarkedAlongPath(g, visited, p);
  }

  lemma NamedIsThere(g: Graph, visited: seq<Ref>, i: Ref, names: set<string>)
    requires Unique(g) && i in g && g[i].keyname in names && names <= Keynames(g, visited)
    ensures i in visited
  {
  }

  /** Wrapping adds exactly the wrapper and what the extra modules reach. */
  lemma WalkAllVisitsExactlyReachable(g: Graph, rs: seq<Ref>)
    requires Closed(g) && Unique(g) && forall m :: m in rs ==> m in g
    ensures forall m :: m in Entered(WalkAll(g, {}, rs)) <==> exists i :: i in rs && Reaches(g, i, m)
  {
    WalkAllReaches(g, {}, rs);
    forall m, i | i in rs && Reaches(g, i, m) ensures m in Entered(WalkAll(g, {}, rs)) {
      WalkAllVisitsReached(g, rs, i, m);
    }
  }

  // ------------------------------------------------------------ PluginLoader.wrap

  /** The list without the later occurrences of a module object. */
  ghost function FirstOccurrences(rs: seq<Ref>): seq<Ref> {
    if rs == [] then []
    else
      var before := FirstOccurrences(rs[..|rs| - 1]);
      if rs[|rs| - 1] in before then before else before + [rs[|rs| - 1]]
  }

  lemma FirstOccurrencesSnoc(rs: seq<Ref>, x: Ref)
    ensures FirstOccurrences(rs + [x])
         == if x in FirstOccurrences(rs) then FirstOccurrences(rs) else FirstOccurrences(rs) + [x]
  {
  }

  lemma {:induction false} FirstOccurrencesMembers(rs: seq<Ref>)
    ensures forall m :: m in FirstOccurrences(rs) <==> m in rs
  {
    if rs != [] {
      var before := rs[..|rs| - 1];
      FirstOccurrencesMembers(before);
      assert rs == before + [rs[|rs| - 1]];
    }
  }

  /** The positions of the references that have not come before. */
  ghost function NewAt(rs: seq<Ref>): set<nat> {
    set i: nat | i < |rs| && forall j :: 0 <= j < i ==> rs[j] != rs[i]
  }

  lemma {:induction false} FirstOccurrencesUpTo(rs: seq<Ref>, n: nat)
    requires n <= |rs|
    ensures var picks, first := Picked(NewAt(rs), n), FirstOccurrences(rs[..n]);
            |first| == |picks| && forall k :: 0 <= k < |picks| ==> picks[k] < |rs| && first[k] == rs[picks[k]]
  {
    if n > 0 {
      FirstOccurrencesUpTo(rs, n - 1);
      FirstOccurrencesMembers(rs[..n - 1]);
      assert rs[..n] == rs[..n - 1] + [rs[n - 1]];
      FirstOccurrencesSnoc(rs[..n - 1], rs[n - 1]);
      assert rs[n - 1] in rs[..n - 1] <==> n - 1 !in NewAt(rs) by {
        if n - 1 !in NewAt(rs) {
          var j :| 0 <= j < n - 1 && rs[j] == rs[n - 1];
          assert rs[..n - 1][j] == rs[n - 1];
        }
      }
    }
  }

  /** Each reference at its first occurrence, in the order of the list, and none twice. */
  lemma FirstOccurrencesAre(rs: seq<Ref>)
    ensures var picks, first := Picked(NewAt(rs), |rs|), FirstOccurrences(rs);
            && |first| == |picks| && (forall k :: 0 <= k < |picks| ==> picks[k] < |rs| && first[k] == rs[picks[k]])
            && Distinct(first)
  {
    FirstOccurrencesUpTo(rs, |rs|);
    assert rs[..|rs|] == rs;
    PickedInOrder(NewAt(rs), |rs|);
    var picks, first := Picked(NewAt(rs), |rs|), FirstOccurrences(rs);
    forall j, k | 0 <= j < k < |first| ensures first[j] != first[k] {
      assert picks[k] in picks && picks[j] < picks[k];
    }
  }

  /** Dropping repeated references never changes what the kernel instantiates, nor the order. */
  lemma {:induction false} DroppingRepeatsKeepsWalk(g: Graph, seen: set<string>, rs: seq<Ref>)
    requires Closed(g) && forall m :: m in rs ==> m in g
    ensures forall m :: m in FirstOccurrences(rs) ==> m in g
    ensures WalkAll(g, seen, FirstOccurrences(rs)) == WalkAll(g, seen, rs)
  {
    FirstOccurrencesMembers(rs);
    if rs != [] {
      var before, x := rs[..|rs| - 1], rs[|rs| - 1];
      assert rs == before + [x];
      FirstOccurrencesMembers(before);
      DroppingRepeatsKeepsWalk(g, seen, before);
      WalkAllSnoc(g, seen, before, x);
      WalkAllSnoc(g, seen, FirstOccurrences(before), x);
      if x in FirstOccurrences(before) {
        WalkAllVisits(g, seen, before);
        assert g[x].keyname in Keynames(g, before);
      }
    }
  }

  datatype LoadedPlugin = LoadedPlugin(name: string, modules: seq<Ref>)

  ghost function AllModules(plugins: seq<LoadedPlugin>): seq<Ref> {
    if plugins == [] then [] else AllModules(plugins[..|plugins| - 1]) + plugins[|plugins| - 1].modules
  }

  /** The modules of every plugin, plugin by plugin. */
  lemma {:induction false} AllModulesConcat(a: seq<LoadedPlugin>, p: LoadedPlugin, b: seq<LoadedPlugin>)
    ensures AllModules(a + [p] + b) == AllModules(a) + p.modules + AllModules(b)
    decreases |b|
  {
    if b == [] {
      assert a + [p] + b == a + [p] && (a + [p])[..|a|] == a;
    } else {
      AllModulesConcat(a, p, b[..|b| - 1]);
      assert (a + [p] + b)[..|a + [p] + b| - 1] == a + [p] + b[..|b| - 1];
      Associative(AllModules(a) + p.modules, AllModules(b[..|b| - 1]), b[|b| - 1].modules);
    }
  }

  /** The closure of `wrap`: its two captured variables and its inner function. */
  class ImportList {
    var seen: set<Ref>
    var importModules: seq<Ref>

    /** These are the first occurrences of what has been listed so far. */
    ghost predicate Lists(listed: seq<Ref>)
      reads this
    {
      importModules == FirstOccurrences(listed) && forall m :: m in seen <==> m in importModules
    }

    constructor ()
      ensures Lists([])
    {
      seen, importModules := {}, [];
    }

    method Add(m: Ref, ghost listed: seq<Ref>)
      requires Lists(listed)
      modifies this
      ensures Lists(listed + [m])
    {
      FirstOccurrencesSnoc(listed, m);
      if m in seen { return; }
      seen := seen + {m};
      importModules := importModules + [m];
    }

    method AddAll(modules: seq<Ref>, ghost listed: seq<Ref>)
      requires Lists(listed)
      modifies this
      ensures Lists(listed + modules)
    {
      var j := 0;
      assert listed + modules[..0] == listed;
      while j < |modules|
        invariant 0 <= j <= |modules| && Lists(listed + modules[..j])
      {
        assert modules[..j + 1] == modules[..j] + [modules[j]];
        Associative(listed, modules[..j], [modules[j]]);
        Add(modules[j], listed + modules[..j]);
        j := j + 1;
      }
      assert modules[..j] == modules;
    }
  }

  method Wrap(g: Graph, appModule: Ref, plugins: seq<LoadedPlugin>, outer: Ref) returns (g': Graph, root: Ref)
    requires appModule in g
    ensures plugins == [] ==> g' == g && root == appModule
    ensures plugins != [] ==>
      && root == outer
      && g' == Wrapped(g, outer, g[appModule].keyname + ".with-plugins",
                       FirstOccurrences([appModule] + AllModules(plugins)))
      && g'[outer] == Module(g[appModule].keyname + ".with-plugins",
                             FirstOccurrences([appModule] + AllModules(plugins)), [], [], Empty(), None, None, None)
  {
    if |plugins| == 0 { return g, appModule; }
    var imports := new ImportList();
    imports.Add(appModule, []);
    assert [] + [appModule] == [appModule] == [appModule] + AllModules(plugins[..0]);
    var i := 0;
    while i < |plugins|
      invariant 0 <= i <= |plugins| && imports.Lists([appModule] + AllModules(plugins[..i]))
    {
      assert plugins[..i + 1][..i] == plugins[..i];
      Associative([appModule], AllModules(plugins[..i]), plugins[i].modules);
      imports.AddAll(plugins[i].modules, [appModule] + AllModules(plugins[..i]));
      i := i + 1;
    }
    assert plugins[..i] == plugins;
    g' := g[outer := Wrapper(g[appModule].keyname + ".with-plugins", imports.importModules)];
    root := outer;
  }

  /** The kernel instantiates a plugin-wrapped application as if the plugin modules had been listed
      with their repetitions, and the wrapper last. */
  lemma WrapWithPlugins(g: Graph, w: Ref, app: Ref, extras: seq<Ref>)
    requires Closed(g) && w !in g && app in g && forall m :: m in extras ==> m in g
    requires g[app].keyname + ".with-plugins" !in Keynames(g, Entered(WalkAll(g, {}, [app] + extras)))
    ensures var g' := Wrapped(g, w, g[app].keyname + ".with-plugins", FirstOccurrences([app] + extras));
            && Closed(g')
            && Walk(g', {}, w) == [Enter(w)] + WalkAll(g, {}, [app] + extras) + [Leave(w)]
  {
    DroppingRepeatsKeepsWalk(g, {}, [app] + extras);
    WrapTransparentIffKeynameFresh(g, w, g[app].keyname + ".with-plugins", FirstOccurrences([app] + extras));
  }
}
