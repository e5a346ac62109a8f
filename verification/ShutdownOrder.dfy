/** The order in which `Kernel.stop` reaches the modules: the discovery order of the init walk. */
module ShutdownOrder {
  import opened Common
  import opened ModuleGraph
  import opened ModuleOrder

  /** Every listed module is one of `roots` or comes after a module that imports it. */
  ghost predicate Preceded(g: Graph, roots: seq<Ref>, order: seq<Ref>) {
    forall i :: 0 <= i < |order| ==> order[i] in roots || ImportedBefore(g, order, i)
  }

  ghost predicate ImportedBefore(g: Graph, order: seq<Ref>, i: nat)
    requires i < |order|
  {
    exists j :: 0 <= j < i && order[j] in g && order[i] in g[order[j]].imports
  }

  lemma PrecededConcat(g: Graph, roots: seq<Ref>, a: seq<Ref>, b: seq<Ref>)
    requires Preceded(g, roots, a) && Preceded(g, roots, b)
    ensures Preceded(g, roots, a + b)
  {
    forall i | 0 <= i < |a + b| && (a + b)[i] !in roots ensures ImportedBefore(g, a + b, i) {
      if i < |a| {
        var j :| 0 <= j < i && a[j] in g && a[i] in g[a[j]].imports;
        assert (a + b)[j] == a[j];
      } else {
        var j :| 0 <= j < i - |a| && b[j] in g && b[i - |a|] in g[b[j]].imports;
        assert (a + b)[|a| + j] == b[j];
      }
    }
  }

  lemma {:induction false} WalkPreceded(g: Graph, seen: set<string>, r: Ref)
    requires Closed(g) && r in g
    ensures Preceded(g, [r], Entered(Walk(g, seen, r)))
    decreases AllKeynames(g) - seen, 0
  {
    if g[r].keyname !in seen {
      assert g[r].keyname in AllKeynames(g);
      WalkAllPreceded(g, seen + {g[r].keyname}, g[r].imports);
      WalkUnfold(g, seen, r);
      var inner := Entered(WalkAll(g, seen + {g[r].keyname}, g[r].imports));
      var order := [r] + inner;
      forall i | 0 <= i < |order| && order[i] !in [r] ensures ImportedBefore(g, order, i) {
        if inner[i - 1] in g[r].imports {
          assert order[0] == r;
        } else {
          var j :| 0 <= j < i - 1 && inner[j] in g && inner[i - 1] in g[inner[j]].imports;
          assert order[j + 1] == inner[j];
        }
      }
    }
  }

  lemma {:induction false} WalkAllPreceded(g: Graph, seen: set<string>, rs: seq<Ref>)
    requires Closed(g) && forall m :: m in rs ==> m in g
    ensures Preceded(g, rs, Entered(WalkAll(g, seen, rs)))
    decreases AllKeynames(g) - seen, |rs|
  {
    if rs != [] {
      var first := Walk(g, seen, rs[0]);
      var seen' := seen + Keynames(g, Entered(first));
      WalkPreceded(g, seen, rs[0]);
      WalkAllPreceded(g, seen', rs[1..]);
      WalkAllUnfold(g, seen, rs);
      PrecededConcat(g, rs, Entered(first), Entered(WalkAll(g, seen', rs[1..])));
    }
  }

  lemma OnlyImporterIsBefore(g: Graph, order: seq<Ref>, i: nat, u: Ref)
    requires i < |order| && ImportedBefore(g, order, i)
    requires forall a, b :: a in g && b in g && order[i] in g[a].imports && order[i] in g[b].imports ==> a == b
    requires u in g && order[i] in g[u].imports
    ensures u in order[..i]
  {
    var j :| 0 <= j < i && order[j] in g && order[i] in g[order[j]].imports;
    assert order[..i][j] == u;
  }

  /** Every module but the root is shut down after at least one of its importers, and after all of
      them when it has a single importer. */
  lemma ShutdownFollowsAnImporter(g: Graph, root: Ref, i: nat)
    requires Closed(g) && root in g && 0 < i < |Entered(Walk(g, {}, root))|
    ensures ImportedBefore(g, Entered(Walk(g, {}, root)), i)
    ensures var order := Entered(Walk(g, {}, root));
            (forall a, b :: a in g && b in g && order[i] in g[a].imports && order[i] in g[b].imports ==> a == b) ==>
              forall u :: u in g && order[i] in g[u].imports ==> u in order[..i]
  {
    var order := Entered(Walk(g, {}, root));
    WalkPreceded(g, {}, root);
    NotTheRootAgain(g, root, i);
    assert order[i] in [root] || ImportedBefore(g, order, i);
    if forall a, b :: a in g && b in g && order[i] in g[a].imports && order[i] in g[b].imports ==> a == b {
      forall u | u in g && order[i] in g[u].imports ensures u in order[..i] {
        OnlyImporterIsBefore(g, order, i, u);
      }
    }
  }

  lemma NotTheRootAgain(g: Graph, root: Ref, i: nat)
    requires Closed(g) && root in g && 0 < i < |Entered(Walk(g, {}, root))|
    ensures Entered(Walk(g, {}, root))[i] != root
  {
    var order := Entered(Walk(g, {}, root));
    WalkVisits(g, {}, root);
    WalkUnfold(g, {}, root);
    assert order[0] == root && g[order[0]].keyname != g[order[i]].keyname;
  }

  // ------------------------------------------------- against the documented order

  /** The root imports `a` and `b`, and both import `shared`. */
  function Diamond(): Graph {
    var m := (k: string, imports: seq<Ref>) => Module(k, imports, [], [], Empty(), None, None, None);
    map[0 := m("app", [1, 2]), 1 := m("a", [3]), 2 := m("b", [3]), 3 := m("shared", [])]
  }

  lemma DiamondLeft(g: Graph)
    requires g == Diamond()
    ensures Closed(g)
    ensures Entered(Walk(g, {"app"}, 1)) == [1, 3]
  {
    var seen := {"app", "a"};
    assert {"app"} + {"a"} == seen;
    WalkUnfold(g, {"app"}, 1);
    WalkAllSingle(g, seen, 3);
    WalkUnfold(g, seen, 3);
  }

  lemma DiamondRight(g: Graph)
    requires g == Diamond()
    ensures Closed(g)
    ensures Entered(Walk(g, {"app", "a", "shared"}, 2)) == [2]
  {
    var seen := {"app", "a", "shared", "b"};
    assert {"app", "a", "shared"} + {"b"} == seen;
    WalkUnfold(g, {"app", "a", "shared"}, 2);
    WalkAllSingle(g, seen, 3);
  }

  /** In a diamond the shared import is shut down before its second importer, although hooks are
      documented to run outer to inner. */
  lemma DiamondShutsDownSharedEarly(g: Graph)
    requires g == Diamond()
    ensures Closed(g) && Unique(g)
    ensures 3 in g[2].imports && Entered(Walk(g, {}, 0)) == [0, 1, 3, 2]
  {
    DiamondBranches(g);
    WalkUnfold(g, {}, 0);
    assert {} + {"app"} == {"app"};
  }

  lemma DiamondBranches(g: Graph)
    requires g == Diamond()
    ensures Closed(g)
    ensures Entered(WalkAll(g, {"app"}, [1, 2])) == [1, 3, 2]
  {
    DiamondLeft(g);
    DiamondRight(g);
    WalkAllUnfold(g, {"app"}, [1, 2]);
    assert {"app"} + Keynames(g, [1, 3]) == {"app", "a", "shared"};
    assert [1, 2][1..] == [2];
    WalkAllSingle(g, {"app", "a", "shared"}, 2);
  }

  ghost function Reverse(s: seq<Ref>): seq<Ref> {
    if s == [] then [] else Reverse(s[1..]) + [s[0]]
  }

  lemma {:induction false} ReverseConcat(a: seq<Ref>, b: seq<Ref>)
    ensures Reverse(a + b) == Reverse(b) + Reverse(a)
  {
    if a == [] {
      assert a + b == b;
    } else {
      ReverseConcat(a[1..], b);
      assert (a + b)[1..] == a[1..] + b;
    }
  }

  lemma {:induction false} ReverseMembers(s: seq<Ref>)
    ensures |Reverse(s)| == |s| && forall x :: x in Reverse(s) <==> x in s
  {
    if s != [] {
      ReverseMembers(s[1..]);
    }
  }

  /** Each listed module is imported by the one before it. */
  ghost predicate Chain(g: Graph, order: seq<Ref>) {
    && (forall m :: m in order ==> m in g)
    && forall i :: 0 <= i < |order| - 1 ==> order[i + 1] in g[order[i]].imports
  }

  ghost predicate ReversesItsCompletion(es: seq<Event>) {
    Entered(es) == Reverse(Left(es))
  }

  lemma {:induction false} WalkReverseIffChain(g: Graph, seen: set<string>, r: Ref)
    requires Closed(g) && r in g
    ensures ReversesItsCompletion(Walk(g, seen, r)) <==> Chain(g, Entered(Walk(g, seen, r)))
    decreases AllKeynames(g) - seen, 0
  {
    var name := g[r].keyname;
    if name !in seen {
      assert name in AllKeynames(g);
      var inner := WalkAll(g, seen + {name}, g[r].imports);
      WalkAllReverseIffChain(g, seen + {name}, g[r].imports);
      WalkUnfold(g, seen, r);
      ReverseConcat(Left(inner), [r]);
      assert Reverse(Left(inner) + [r]) == [r] + Reverse(Left(inner));
      assert ([r] + Entered(inner))[1..] == Entered(inner) && ([r] + Reverse(Left(inner)))[1..] == Reverse(Left(inner));
      ChainCons(g, r, Entered(inner));
    }
  }

  lemma ChainCons(g: Graph, r: Ref, rest: seq<Ref>)
    requires r in g && (rest != [] ==> rest[0] in g[r].imports)
    ensures Chain(g, [r] + rest) <==> Chain(g, rest)
  {
    var c := [r] + rest;
    if Chain(g, c) {
      forall i | 0 <= i < |rest| - 1 ensures rest[i + 1] in g[rest[i]].imports {
        assert c[i + 1 + 1] in g[c[i + 1]].imports;
      }
      assert forall m :: m in rest ==> m in c;
    }
    if Chain(g, rest) {
      forall i | 0 <= i < |c| - 1 ensures c[i + 1] in g[c[i]].imports {
        if i > 0 {
          assert rest[i - 1 + 1] in g[rest[i - 1]].imports;
        }
      }
    }
  }

  lemma {:induction false} WalkAllReverseIffChain(g: Graph, seen: set<string>, rs: seq<Ref>)
    requires Closed(g) && forall m :: m in rs ==> m in g
    ensures ReversesItsCompletion(WalkAll(g, seen, rs)) <==> Chain(g, Entered(WalkAll(g, seen, rs)))
    ensures Entered(WalkAll(g, seen, rs)) != [] ==> Entered(WalkAll(g, seen, rs))[0] in rs
    decreases AllKeynames(g) - seen, |rs|
  {
    if rs != [] {
      var first := Walk(g, seen, rs[0]);
      var seen' := seen + Keynames(g, Entered(first));
      var rest := WalkAll(g, seen', rs[1..]);
      WalkReverseIffChain(g, seen, rs[0]);
      WalkAllReverseIffChain(g, seen', rs[1..]);
      WalkAllUnfold(g, seen, rs);
      WalkVisits(g, seen, rs[0]);
      WalkAllVisits(g, seen', rs[1..]);
      if Entered(first) == [] {
        NothingEntered(g, seen, first);
        NothingJoins(first, rest);
      } else if Entered(rest) == [] {
        NothingEntered(g, seen', rest);
        StartsWithItself(g, seen, rs[0]);
        NothingJoins(rest, first);
      } else {
        StartsWithItself(g, seen, rs[0]);
        TwoBranchesBreakBoth(g, seen, first, rest, rs[0]);
      }
    }
  }

  lemma NothingJoins(none: seq<Event>, es: seq<Event>)
    requires Entered(none) == [] && Left(none) == []
    ensures Entered(none) + Entered(es) == Entered(es) == Entered(es) + Entered(none)
    ensures Left(none) + Left(es) == Left(es) == Left(es) + Left(none)
  {
  }

  lemma StartsWithItself(g: Graph, seen: set<string>, r: Ref)
    requires Closed(g) && r in g && Entered(Walk(g, seen, r)) != []
    ensures Entered(Walk(g, seen, r))[0] == r
  {
  }

  lemma NothingEntered(g: Graph, seen: set<string>, es: seq<Event>)
    requires Visits(g, seen, es) && Entered(es) == []
    ensures Left(es) == []
  {
  }

  lemma TwoBranchesBreakBoth(g: Graph, seen: set<string>, first: seq<Event>, rest: seq<Event>, r: Ref)
    requires Closed(g) && r in g && first == Walk(g, seen, r) && Entered(first) != [] && Entered(rest) != []
    requires Visits(g, seen, first) && Visits(g, seen + Keynames(g, Entered(first)), rest)
    ensures !Chain(g, Entered(first) + Entered(rest))
    ensures Entered(first) + Entered(rest) != Reverse(Left(first) + Left(rest))
  {
    var a, b := Entered(first), Entered(rest);
    WalkReaches(g, seen, r);
    assert a[|a| - 1] in a && b[0] in b && g[b[0]].keyname in Keynames(g, b);
    assert (a + b)[|a| - 1] == a[|a| - 1] && (a + b)[|a| - 1 + 1] == b[0];
    assert a[0] in a && g[a[0]].keyname in Keynames(g, a);
    assert multiset(b) == multiset(Left(rest));
    ReverseConcat(Left(first), Left(rest));
    ReverseMembers(Left(rest));
    assert a[0] !in Left(rest) by {
      assert a[0] !in multiset(b);
    }
    assert |Left(rest)| == |multiset(b)| == |b|;
    assert (Reverse(Left(rest)) + Reverse(Left(first)))[0] in Reverse(Left(rest));
  }

  /** Hooks run in the documented "reverse instantiation order" exactly when the modules form a chain:
      each discovered module is imported by the one discovered just before it. */
  lemma ShutdownReversesInitIffChain(g: Graph, root: Ref)
    requires Closed(g) && root in g
    ensures Entered(Walk(g, {}, root)) == Reverse(Left(Walk(g, {}, root)))
       <==> Chain(g, Entered(Walk(g, {}, root)))
  {
    WalkReverseIffChain(g, {}, root);
  }
}
