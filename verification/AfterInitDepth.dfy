/** How deep `afterInitModule` has to go: a run that is over at all never nests deeper than there are modules. */
module AfterInitDepth {
  import opened Common
  import opened ModuleGraph
  import opened ModuleOrder
  import opened KernelPlan
  import opened AfterInit

  ghost function Done(app: App, s: KernelState): set<string> {
    Keynames(app.graph, s.afterInstantiated)
  }

  // ------------------------------------------------------------------- runs that do nothing

  /** The module and all that it reaches, at most `n` deep, are done: a run from it does nothing. */
  ghost predicate Quiet(g: Graph, done: set<string>, x: Ref, n: nat)
    requires Closed(g) && x in g
    decreases n
  {
    n > 0 && g[x].keyname in done && forall m :: m in g[x].imports ==> Quiet(g, done, m, n - 1)
  }

  ghost predicate Settled(g: Graph, done: set<string>, x: Ref)
    requires Closed(g) && x in g
  {
    exists n: nat :: Quiet(g, done, x, n)
  }

  lemma {:induction false} QuietMore(g: Graph, done: set<string>, done': set<string>, x: Ref, n: nat, n': nat)
    requires Closed(g) && x in g && Quiet(g, done, x, n) && done <= done' && n <= n'
    ensures Quiet(g, done', x, n')
    decreases n
  {
    forall m | m in g[x].imports ensures Quiet(g, done', m, n' - 1) {
      QuietMore(g, done, done', m, n - 1, n' - 1);
    }
  }

  lemma {:induction false} QuietRuns(app: App, s: KernelState, x: Ref, n: nat)
    requires Closed(app.graph) && x in app.graph && Quiet(app.graph, Done(app, s), x, n)
    ensures AfterWithin(app, s, x, n) == Some(Ran(s, false))
    decreases n, 0
  {
    AllQuietRun(app, s, app.graph[x].imports, n - 1);
  }

  lemma {:induction false} AllQuietRun(app: App, s: KernelState, rs: seq<Ref>, n: nat)
    requires Closed(app.graph) && forall m :: m in rs ==> m in app.graph && Quiet(app.graph, Done(app, s), m, n)
    ensures AfterAllWithin(app, s, rs, n) == Some(Ran(s, false))
    decreases n, 1 + |rs|
  {
    if rs != [] {
      QuietRuns(app, s, rs[0], n);
      AllQuietRun(app, s, rs[1..], n);
    }
  }

  lemma SettledRuns(app: App, s: KernelState, x: Ref, n: nat)
    requires Closed(app.graph) && x in app.graph && Settled(app.graph, Done(app, s), x)
    ensures AfterWithin(app, s, x, n).None? || AfterWithin(app, s, x, n) == Some(Ran(s, false))
  {
    var k: nat :| Quiet(app.graph, Done(app, s), x, k);
    if n >= k {
      QuietMore(app.graph, Done(app, s), Done(app, s), x, k, n);
      QuietRuns(app, s, x, n);
    } else if AfterWithin(app, s, x, n).Some? {
      MoreIsSame(app, s, x, n, k);
      QuietRuns(app, s, x, k);
    }
  }

  lemma DoneItself(app: App, s: KernelState, r: Ref)
    requires r in app.graph
    requires !Run(app, s, AfterInitActions(r, app.graph[r].afterInit)).threw
    ensures Done(app, Run(app, s, AfterInitActions(r, app.graph[r].afterInit)).state)
         == Done(app, s) + {app.graph[r].keyname}
  {
    FollowsItself(app, s, r);
    KeynamesConcat(app.graph, s.afterInstantiated, [r]);
  }

  /** A run that returns leaves the module and all that it reaches done. */
  lemma {:induction false} ReturnsQuiet(app: App, s: KernelState, r: Ref, n: nat)
    requires Closed(app.graph) && r in app.graph && Returns(AfterWithin(app, s, r, n))
    ensures var done := Done(app, AfterWithin(app, s, r, n).value.state);
            Done(app, s) <= done && Quiet(app.graph, done, r, n)
    decreases n, 0
  {
    var below := AfterAllWithin(app, s, app.graph[r].imports, n - 1).value;
    AllReturnQuiet(app, s, app.graph[r].imports, n - 1);
    if app.graph[r].keyname !in Done(app, below.state) {
      DoneItself(app, below.state, r);
      forall m | m in app.graph[r].imports
        ensures Quiet(app.graph, Done(app, below.state) + {app.graph[r].keyname}, m, n - 1)
      {
        QuietMore(app.graph, Done(app, below.state), Done(app, below.state) + {app.graph[r].keyname}, m, n - 1, n - 1);
      }
    }
  }

  lemma {:induction false} AllReturnQuiet(app: App, s: KernelState, rs: seq<Ref>, n: nat)
    requires Closed(app.graph) && forall m :: m in rs ==> m in app.graph
    requires Returns(AfterAllWithin(app, s, rs, n))
    ensures var done := Done(app, AfterAllWithin(app, s, rs, n).value.state);
            Done(app, s) <= done && forall m :: m in rs ==> Quiet(app.graph, done, m, n)
    decreases n, 1 + |rs|
  {
    if rs != [] {
      var first := AfterWithin(app, s, rs[0], n).value.state;
      ReturnsQuiet(app, s, rs[0], n);
      AllReturnQuiet(app, first, rs[1..], n);
      var last := AfterAllWithin(app, first, rs[1..], n).value.state;
      QuietMore(app.graph, Done(app, first), Done(app, last), rs[0], n, n);
    }
  }

  // ------------------------------------------------------------------- runs that are never over

  /** The first `k` of these are settled. */
  ghost predicate SettledUpTo(g: Graph, done: set<string>, rs: seq<Ref>, k: nat)
    requires Closed(g) && (forall m :: m in rs ==> m in g) && k <= |rs|
  {
    forall i :: 0 <= i < k ==> Settled(g, done, rs[i])
  }

  /** A run from `a` with these done comes to `b`, its import at `j`, in the same state. */
  ghost predicate ComesTo(g: Graph, done: set<string>, a: Ref, b: Ref, j: nat)
    requires Closed(g) && a in g
  {
    j < |g[a].imports| && g[a].imports[j] == b && SettledUpTo(g, done, g[a].imports, j)
  }

  ghost predicate Nests(g: Graph, done: set<string>, a: Ref, b: Ref)
    requires Closed(g) && a in g
  {
    exists j: nat :: ComesTo(g, done, a, b, j)
  }

  ghost predicate Leads(g: Graph, done: set<string>, p: seq<Ref>)
    requires Closed(g)
  {
    (forall m :: m in p ==> m in g) && forall i :: 0 <= i < |p| - 1 ==> Nests(g, done, p[i], p[i + 1])
  }

  lemma SettledLater(g: Graph, done: set<string>, done': set<string>, rs: seq<Ref>, k: nat)
    requires Closed(g) && (forall m :: m in rs ==> m in g) && k <= |rs|
    requires SettledUpTo(g, done, rs, k) && done <= done'
    ensures SettledUpTo(g, done', rs, k)
  {
    forall i | 0 <= i < k ensures Settled(g, done', rs[i]) {
      var n: nat :| Quiet(g, done, rs[i], n);
      QuietMore(g, done, done', rs[i], n, n);
    }
  }

  lemma NestsLater(g: Graph, done: set<string>, done': set<string>, a: Ref, b: Ref)
    requires Closed(g) && a in g && Nests(g, done, a, b) && done <= done'
    ensures Nests(g, done', a, b)
  {
    var j: nat :| ComesTo(g, done, a, b, j);
    SettledLater(g, done, done', g[a].imports, j);
    assert ComesTo(g, done', a, b, j);
  }

  lemma LeadsLater(g: Graph, done: set<string>, done': set<string>, p: seq<Ref>)
    requires Closed(g) && Leads(g, done, p) && done <= done'
    ensures Leads(g, done', p)
  {
    forall i | 0 <= i < |p| - 1 ensures Nests(g, done', p[i], p[i + 1]) {
      NestsLater(g, done, done', p[i], p[i + 1]);
    }
  }

  lemma LeadsOn(g: Graph, done: set<string>, p: seq<Ref>, m: Ref)
    requires Closed(g) && p != [] && Leads(g, done, p) && m in g && Nests(g, done, p[|p| - 1], m)
    ensures Leads(g, done, p + [m])
  {
    var q := p + [m];
    forall i | 0 <= i < |q| - 1 ensures Nests(g, done, q[i], q[i + 1]) {
      if i < |p| - 1 {
        assert Nests(g, done, p[i], p[i + 1]);
      }
    }
  }

  lemma LeadsFrom(g: Graph, done: set<string>, p: seq<Ref>, i: nat)
    requires Closed(g) && Leads(g, done, p) && i <= |p|
    ensures Leads(g, done, p[i..])
  {
    forall k | 0 <= k < |p[i..]| - 1 ensures Nests(g, done, p[i..][k], p[i..][k + 1]) {
      assert Nests(g, done, p[i + k], p[i + k + 1]);
    }
  }

  lemma SettledRest(g: Graph, done: set<string>, rs: seq<Ref>, j: nat)
    requires Closed(g) && (forall m :: m in rs ==> m in g) && 0 < j <= |rs| && SettledUpTo(g, done, rs, j)
    ensures SettledUpTo(g, done, rs[1..], j - 1)
  {
    forall i | 0 <= i < j - 1 ensures Settled(g, done, rs[1..][i]) {
      assert Settled(g, done, rs[i + 1]);
    }
  }

  lemma {:induction false} BlockedAt(app: App, s: KernelState, rs: seq<Ref>, j: nat, n: nat)
    requires Closed(app.graph) && (forall m :: m in rs ==> m in app.graph) && j < |rs|
    requires SettledUpTo(app.graph, Done(app, s), rs, j)
    requires AfterWithin(app, s, rs[j], n).None?
    ensures AfterAllWithin(app, s, rs, n).None?
    decreases j
  {
    if j > 0 {
      assert Settled(app.graph, Done(app, s), rs[0]);
      SettledRuns(app, s, rs[0], n);
      if AfterWithin(app, s, rs[0], n).Some? {
        SettledRest(app.graph, Done(app, s), rs, j);
        BlockedAt(app, s, rs[1..], j - 1, n);
      }
    }
  }

  /** A run that comes back to a module in the same state goes around for ever. */
  lemma {:induction false} GoesAround(app: App, s: KernelState, p: seq<Ref>, i: nat, n: nat)
    requires Closed(app.graph) && Leads(app.graph, Done(app, s), p) && i < |p| - 1 && p[0] == p[|p| - 1]
    ensures AfterWithin(app, s, p[i], n).None?
    decreases n
  {
    if n > 0 {
      var j: nat :| ComesTo(app.graph, Done(app, s), p[i], p[i + 1], j);
      GoesAround(app, s, p, if i + 1 == |p| - 1 then 0 else i + 1, n - 1);
      BlockedAt(app, s, app.graph[p[i]].imports, j, n - 1);
    }
  }

  // ------------------------------------------------------------------- the depth of a run that is over

  lemma DistinctFits(g: Graph, p: seq<Ref>)
    requires Distinct(p) && forall m :: m in p ==> m in g
    ensures |p| <= |g|
  {
    DistinctCount(p);
    CardinalityWithin(Elements(p), g.Keys);
  }

  lemma {:induction false} DistinctCount(p: seq<Ref>)
    requires Distinct(p)
    ensures |Elements(p)| == |p|
  {
    if p != [] {
      var before, last := p[..|p| - 1], p[|p| - 1];
      DistinctCount(before);
      assert Elements(p) == Elements(before) + {last};
    }
  }

  lemma {:induction false} CardinalityWithin(a: set<Ref>, b: set<Ref>)
    requires a <= b
    ensures |a| <= |b|
  {
    if x :| x in a {
      CardinalityWithin(a - {x}, b - {x});
    }
  }

  /** The imports that the run is going through. */
  ghost function Last(g: Graph, p: seq<Ref>): seq<Ref>
    requires p != [] && p[|p| - 1] in g
  {
    g[p[|p| - 1]].imports
  }

  lemma NotAgain(app: App, s: KernelState, p: seq<Ref>, m: Ref, n: nat)
    requires Closed(app.graph) && p != [] && Leads(app.graph, Done(app, s), p) && m in app.graph
    requires Nests(app.graph, Done(app, s), p[|p| - 1], m) && AfterWithin(app, s, m, n).Some?
    ensures m !in p
  {
    if i :| 0 <= i < |p| && p[i] == m {
      LeadsOn(app.graph, Done(app, s), p, m);
      LeadsFrom(app.graph, Done(app, s), p + [m], i);
      GoesAround(app, s, (p + [m])[i..], 0, n);
    }
  }

  /** `p` is the way from the root of the run to the module it is in. */
  lemma {:induction false} OverWithinSize(app: App, s: KernelState, p: seq<Ref>, n: nat)
    requires Closed(app.graph) && p != [] && Distinct(p) && Leads(app.graph, Done(app, s), p)
    requires AfterWithin(app, s, p[|p| - 1], n).Some?
    ensures |p| <= |app.graph| && AfterWithin(app, s, p[|p| - 1], |app.graph| - |p| + 1).Some?
    decreases n, 0
  {
    DistinctFits(app.graph, p);
    assert Last(app.graph, p)[0..] == Last(app.graph, p);
    AllOverWithinSize(app, s, p, 0, n - 1);
  }

  lemma {:induction false} AllOverWithinSize(app: App, s: KernelState, p: seq<Ref>, k: nat, n: nat)
    requires Closed(app.graph) && p != [] && Distinct(p) && Leads(app.graph, Done(app, s), p)
    requires k <= |Last(app.graph, p)| && SettledUpTo(app.graph, Done(app, s), Last(app.graph, p), k)
    requires AfterAllWithin(app, s, Last(app.graph, p)[k..], n).Some?
    ensures |p| <= |app.graph| && AfterAllWithin(app, s, Last(app.graph, p)[k..], |app.graph| - |p|).Some?
    decreases n, 1 + |Last(app.graph, p)| - k
  {
    var imports := Last(app.graph, p);
    DistinctFits(app.graph, p);
    if k < |imports| {
      var m := imports[k];
      assert imports[k..][1..] == imports[k + 1..];
      assert ComesTo(app.graph, Done(app, s), p[|p| - 1], m, k);
      NotAgain(app, s, p, m, n);
      LeadsOn(app.graph, Done(app, s), p, m);
      OverWithinSize(app, s, p + [m], n);
      SameAtBoth(app, s, m, n, |app.graph| - |p|);
      var first := AfterWithin(app, s, m, n).value;
      if !first.threw {
        SettledNext(app, s, p, k, n);
        AllOverWithinSize(app, first.state, p, k + 1, n);
      }
    }
  }

  lemma SameAtBoth(app: App, s: KernelState, r: Ref, n: nat, n': nat)
    requires Closed(app.graph) && r in app.graph && AfterWithin(app, s, r, n).Some? && AfterWithin(app, s, r, n').Some?
    ensures AfterWithin(app, s, r, n) == AfterWithin(app, s, r, n')
  {
    if n <= n' {
      MoreIsSame(app, s, r, n, n');
    } else {
      MoreIsSame(app, s, r, n', n);
    }
  }

  lemma SettledNext(app: App, s: KernelState, p: seq<Ref>, k: nat, n: nat)
    requires Closed(app.graph) && p != [] && Leads(app.graph, Done(app, s), p) && k < |Last(app.graph, p)|
    requires SettledUpTo(app.graph, Done(app, s), Last(app.graph, p), k)
    requires Returns(AfterWithin(app, s, Last(app.graph, p)[k], n))
    ensures var done := Done(app, AfterWithin(app, s, Last(app.graph, p)[k], n).value.state);
            Leads(app.graph, done, p) && SettledUpTo(app.graph, done, Last(app.graph, p), k + 1)
  {
    var imports := Last(app.graph, p);
    var done := Done(app, AfterWithin(app, s, imports[k], n).value.state);
    ReturnsQuiet(app, s, imports[k], n);
    LeadsLater(app.graph, Done(app, s), done, p);
    SettledLater(app.graph, Done(app, s), done, imports, k);
  }

  /** A run is over, whether it returns or a hook throws, exactly when it is over without nesting deeper than there
      are modules: what it has not finished by then, it never finishes. */
  lemma OverIffOverBySize(app: App, s: KernelState, r: Ref)
    requires Closed(app.graph) && r in app.graph
    ensures (exists n: nat :: AfterWithin(app, s, r, n).Some?) <==> AfterWithin(app, s, r, |app.graph|).Some?
  {
    if n: nat :| AfterWithin(app, s, r, n).Some? {
      OverWithinSize(app, s, [r], n);
    }
  }
}
