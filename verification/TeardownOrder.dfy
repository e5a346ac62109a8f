/** When shutting down in discovery order tears every module down before everything it imports. */
module TeardownOrder {
  import opened ModuleGraph
  import opened ModuleOrder
  import opened ModuleWrapping

  /** Every import of a listed module comes later in the list. */
  ghost predicate OuterFirst(g: Graph, order: seq<Ref>) {
    forall i, m :: 0 <= i < |order| && order[i] in g && m in g[order[i]].imports ==> m in order[i + 1..]
  }

  ghost predicate ReachedBy(g: Graph, rs: seq<Ref>, x: Ref) {
    exists r :: r in rs && Reaches(g, r, x)
  }

  /** Each import is either reached by the imports listed before it, or reaches nothing that they reach. */
  ghost predicate Separate(g: Graph, ms: seq<Ref>) {
    forall j :: 0 <= j < |ms| ==> ReachedBy(g, ms[..j], ms[j]) || Apart(g, ms[..j], ms[j])
  }

  ghost predicate Apart(g: Graph, rs: seq<Ref>, r: Ref) {
    forall x :: Reaches(g, r, x) ==> !ReachedBy(g, rs, x)
  }

  /** The module does not transitively import itself, and its imports are separate. */
  ghost predicate Untangled(g: Graph, u: Ref)
    requires u in g
  {
    !ReachedBy(g, g[u].imports, u) && Separate(g, g[u].imports)
  }

  ghost predicate AllUntangled(g: Graph, rs: seq<Ref>) {
    forall u :: ReachedBy(g, rs, u) && u in g ==> Untangled(g, u)
  }

  /** Nothing that the list reaches is marked. */
  ghost predicate White(g: Graph, seen: set<string>, rs: seq<Ref>) {
    forall x :: ReachedBy(g, rs, x) && x in g ==> g[x].keyname !in seen
  }

  // ------------------------------------------------------------------- reachability

  /** A set that contains a module and the imports of its members contains what the module reaches. */
  lemma {:induction false} ClosedUnderPath(g: Graph, s: set<Ref>, p: seq<Ref>)
    requires IsPath(g, p) && p[0] in s
    requires forall x, m :: x in s && x in g && m in g[x].imports ==> m in s
    ensures p[|p| - 1] in s
    decreases |p|
  {
    if |p| > 1 {
      assert p[0 + 1] in g[p[0]].imports;
      var q := p[1..];
      forall i | 0 <= i < |q| - 1 ensures q[i + 1] in g[q[i]].imports {
        assert p[i + 1 + 1] in g[p[i + 1]].imports;
      }
      ClosedUnderPath(g, s, q);
    }
  }

  lemma ClosedUnderReach(g: Graph, s: set<Ref>, a: Ref, x: Ref)
    requires a in s && Reaches(g, a, x)
    requires forall y, m :: y in s && y in g && m in g[y].imports ==> m in s
    ensures x in s
  {
    var p :| IsPathFrom(g, a, p, x);
    ClosedUnderPath(g, s, p);
  }

  lemma {:induction false} ReachesTransitive(g: Graph, a: Ref, m: Ref, x: Ref)
    requires Closed(g) && Reaches(g, a, m) && Reaches(g, m, x)
    ensures Reaches(g, a, x)
  {
    var s := set y | y in g && Reaches(g, a, y);
    forall y, n | y in s && y in g && n in g[y].imports ensures n in s {
      ReachesNext(g, a, y, n);
    }
    ClosedUnderReach(g, s, m, x);
  }

  /** What a module reaches is itself and what its imports reach. */
  lemma ReachesUnfold(g: Graph, u: Ref, x: Ref)
    requires Closed(g) && u in g
    ensures Reaches(g, u, x) <==> x == u || ReachedBy(g, g[u].imports, x)
  {
    if Reaches(g, u, x) {
      var p :| IsPathFrom(g, u, p, x);
      if |p| > 1 {
        assert p[0 + 1] in g[p[0]].imports;
        forall i | 0 <= i < |p[1..]| - 1 ensures p[1..][i + 1] in g[p[1..][i]].imports {
          assert p[i + 1 + 1] in g[p[i + 1]].imports;
        }
        assert IsPathFrom(g, p[1], p[1..], x);
      }
    }
    ReachesSelf(g, u);
    if ReachedBy(g, g[u].imports, x) {
      var r :| r in g[u].imports && Reaches(g, r, x);
      ReachesThrough(g, u, r, x);
    }
  }

  // ------------------------------------------------------------------- concatenation

  lemma OuterFirstCons(g: Graph, u: Ref, rest: seq<Ref>)
    requires u in g
    ensures OuterFirst(g, [u] + rest) <==> (forall m :: m in g[u].imports ==> m in rest) && OuterFirst(g, rest)
  {
    var all := [u] + rest;
    assert all[1..] == rest;
    forall i | 0 <= i < |rest| ensures all[i + 1] == rest[i] && all[i + 1 + 1..] == rest[i + 1..] {}
    if OuterFirst(g, all) {
      forall m | m in g[u].imports ensures m in rest {
        assert all[0] == u;
      }
      forall i, m | 0 <= i < |rest| && rest[i] in g && m in g[rest[i]].imports ensures m in rest[i + 1..] {
        assert all[i + 1] == rest[i];
      }
    }
    if (forall m :: m in g[u].imports ==> m in rest) && OuterFirst(g, rest) {
      forall i, m | 0 <= i < |all| && all[i] in g && m in g[all[i]].imports ensures m in all[i + 1..] {
        if i > 0 {
          assert all[i] == rest[i - 1];
        }
      }
    }
  }

  lemma OuterFirstConcat(g: Graph, a: seq<Ref>, b: seq<Ref>)
    requires forall x, m :: x in a && x in g && m in g[x].imports ==> m !in b
    ensures OuterFirst(g, a + b) <==> OuterFirst(g, a) && OuterFirst(g, b)
  {
    var all := a + b;
    forall i | 0 <= i < |a| ensures all[i] == a[i] && all[i + 1..] == a[i + 1..] + b {}
    forall i | 0 <= i < |b| ensures all[|a| + i] == b[i] && all[|a| + i + 1..] == b[i + 1..] {}
    if OuterFirst(g, all) {
      forall i, m | 0 <= i < |a| && a[i] in g && m in g[a[i]].imports ensures m in a[i + 1..] {
        assert all[i] == a[i] && a[i] in a;
      }
      forall i, m | 0 <= i < |b| && b[i] in g && m in g[b[i]].imports ensures m in b[i + 1..] {
        assert all[|a| + i] == b[i];
      }
    }
    if OuterFirst(g, a) && OuterFirst(g, b) {
      forall i, m | 0 <= i < |all| && all[i] in g && m in g[all[i]].imports ensures m in all[i + 1..] {
        if i < |a| {
          assert a[i] == all[i];
        } else {
          assert b[i - |a|] == all[|a| + (i - |a|)];
        }
      }
    }
  }

  // ------------------------------------------------------------------- lists of imports

  lemma SeparateSnoc(g: Graph, rs: seq<Ref>, r: Ref)
    ensures Separate(g, rs + [r]) <==> Separate(g, rs) && (ReachedBy(g, rs, r) || Apart(g, rs, r))
  {
    var all := rs + [r];
    assert all[..|rs|] == rs && all[|rs|] == r;
    forall j | 0 <= j < |rs| ensures all[..j] == rs[..j] && all[j] == rs[j] {}
  }

  lemma NameListed(g: Graph, rs: seq<Ref>, x: Ref)
    ensures x in rs && x in g ==> g[x].keyname in Keynames(g, rs)
  {
  }

  /** What such a walk enters contains the imports of what it enters. */
  lemma WhiteListClosed(g: Graph, seen: set<string>, rs: seq<Ref>, y: Ref, m: Ref)
    requires Closed(g) && Unique(g) && (forall m :: m in rs ==> m in g) && White(g, seen, rs)
    requires y in Entered(WalkAll(g, seen, rs)) && y in g && m in g[y].imports
    ensures m in Entered(WalkAll(g, seen, rs))
  {
    WalkAllReaches(g, seen, rs);
    var r :| r in rs && Reaches(g, r, y);
    ReachesNext(g, r, y, m);
    assert ReachedBy(g, rs, m);
    assert g[m].keyname in Keynames(g, Entered(WalkAll(g, seen, rs)));
  }

  lemma WhiteListHas(g: Graph, seen: set<string>, rs: seq<Ref>, r: Ref)
    requires Closed(g) && Unique(g) && (forall m :: m in rs ==> m in g) && White(g, seen, rs) && r in rs
    ensures r in Entered(WalkAll(g, seen, rs))
  {
    WalkAllVisits(g, seen, rs);
    ReachesSelf(g, r);
    assert ReachedBy(g, rs, r);
    NameListed(g, rs, r);
    assert g[r].keyname in Keynames(g, Entered(WalkAll(g, seen, rs)));
  }

  /** Walking a list of which nothing reachable is marked enters exactly what the list reaches. */
  lemma WhiteListEnters(g: Graph, seen: set<string>, rs: seq<Ref>)
    requires Closed(g) && Unique(g) && (forall m :: m in rs ==> m in g) && White(g, seen, rs)
    ensures forall x :: x in Entered(WalkAll(g, seen, rs)) <==> ReachedBy(g, rs, x)
  {
    var entered := Entered(WalkAll(g, seen, rs));
    var s := set x | x in entered;
    forall y, m | y in s && y in g && m in g[y].imports ensures m in s {
      WhiteListClosed(g, seen, rs, y, m);
    }
    forall x | ReachedBy(g, rs, x) ensures x in entered {
      var r :| r in rs && Reaches(g, r, x);
      WhiteListHas(g, seen, rs, r);
      ClosedUnderReach(g, s, r, x);
    }
    WalkAllReaches(g, seen, rs);
  }

  /** A list that is outer-first contains all that its members reach. */
  lemma OuterFirstIsClosed(g: Graph, order: seq<Ref>, a: Ref, x: Ref)
    requires OuterFirst(g, order) && a in order && Reaches(g, a, x)
    ensures x in order
  {
    var s := set y | y in order;
    forall y, m | y in s && y in g && m in g[y].imports ensures m in s {
      var i :| 0 <= i < |order| && order[i] == y;
      assert m in order[i + 1..];
    }
    ClosedUnderReach(g, s, a, x);
  }

  // ------------------------------------------------------------------- the condition

  ghost predicate WalkIff(g: Graph, seen: set<string>, u: Ref)
    requires Closed(g) && u in g
  {
    OuterFirst(g, Entered(Walk(g, seen, u))) <==> AllUntangled(g, [u])
  }

  ghost predicate ListIff(g: Graph, seen: set<string>, rs: seq<Ref>)
    requires Closed(g) && forall m :: m in rs ==> m in g
  {
    OuterFirst(g, Entered(WalkAll(g, seen, rs))) <==> AllUntangled(g, rs) && Separate(g, rs)
  }

  lemma {:induction false} WalkOuterFirstIff(g: Graph, seen: set<string>, u: Ref)
    requires Closed(g) && Unique(g) && u in g && White(g, seen, [u])
    ensures WalkIff(g, seen, u)
    decreases AllKeynames(g) - seen, 0
  {
    var ms, seen' := g[u].imports, seen + {g[u].keyname};
    var inner := Entered(WalkAll(g, seen', ms));
    UnmarkedItself(g, seen, u);
    WalkUnfold(g, seen, u);
    OuterFirstCons(g, u, inner);
    UntangledUnfold(g, u);
    if ReachedBy(g, ms, u) {
      SelfImportBreaks(g, seen', u);
    } else {
      WhiteImports(g, seen, u);
      forall m | m in ms ensures m in inner {
        WhiteListHas(g, seen', ms, m);
      }
      assert g[u].keyname in AllKeynames(g);
      ImportsOuterFirstIff(g, seen', ms, |ms|);
      assert ms[..|ms|] == ms;
    }
  }

  lemma UnmarkedItself(g: Graph, seen: set<string>, u: Ref)
    requires u in g && White(g, seen, [u])
    ensures g[u].keyname !in seen
  {
    ReachesSelf(g, u);
    assert u in [u];
  }

  lemma UntangledUnfold(g: Graph, u: Ref)
    requires Closed(g) && u in g
    ensures AllUntangled(g, [u]) <==> Untangled(g, u) && AllUntangled(g, g[u].imports)
  {
    forall x ensures ReachedBy(g, [u], x) <==> x == u || ReachedBy(g, g[u].imports, x) {
      ReachesUnfold(g, u, x);
      assert u in [u];
    }
  }

  lemma WhiteImports(g: Graph, seen: set<string>, u: Ref)
    requires Closed(g) && Unique(g) && u in g && White(g, seen, [u]) && !ReachedBy(g, g[u].imports, u)
    ensures White(g, seen + {g[u].keyname}, g[u].imports)
  {
    forall x | ReachedBy(g, g[u].imports, x) && x in g ensures g[x].keyname !in seen + {g[u].keyname} {
      ReachesUnfold(g, u, x);
      assert u in [u] && ReachedBy(g, [u], x);
    }
  }

  lemma SelfImportBreaks(g: Graph, seen: set<string>, u: Ref)
    requires Closed(g) && u in g && g[u].keyname in seen && ReachedBy(g, g[u].imports, u)
    ensures var inner := Entered(WalkAll(g, seen, g[u].imports));
            !(OuterFirst(g, inner) && forall m :: m in g[u].imports ==> m in inner)
  {
    var inner := Entered(WalkAll(g, seen, g[u].imports));
    WalkAllVisits(g, seen, g[u].imports);
    var r :| r in g[u].imports && Reaches(g, r, u);
    if OuterFirst(g, inner) && r in inner {
      OuterFirstIsClosed(g, inner, r, u);
      NameListed(g, inner, u);
    }
  }

  lemma {:induction false} ImportsOuterFirstIff(g: Graph, seen: set<string>, ms: seq<Ref>, j: nat)
    requires Closed(g) && Unique(g) && j <= |ms| && (forall m :: m in ms ==> m in g) && White(g, seen, ms)
    ensures ListIff(g, seen, ms[..j])
    decreases AllKeynames(g) - seen, 1 + j
  {
    if j == 0 {
      NoImportsIff(g, seen);
      assert ms[..0] == [];
    } else {
      var before, r := ms[..j - 1], ms[j - 1];
      ImportsOuterFirstIff(g, seen, ms, j - 1);
      if Apart(g, before, r) {
        WhiteNext(g, seen, ms, j - 1);
        WalkOuterFirstIff(g, seen + Keynames(g, Entered(WalkAll(g, seen, before))), r);
      }
      UnmarkedMember(g, seen, ms, r);
      OneMoreImport(g, seen, before, r);
      TakeOneMore(ms, j);
    }
  }

  lemma TakeOneMore(ms: seq<Ref>, j: nat)
    requires 0 < j <= |ms|
    ensures ms[..j] == ms[..j - 1] + [ms[j - 1]]
  {
  }

  lemma NoImportsIff(g: Graph, seen: set<string>)
    requires Closed(g)
    ensures ListIff(g, seen, [])
  {
  }

  lemma UnmarkedMember(g: Graph, seen: set<string>, ms: seq<Ref>, r: Ref)
    requires r in ms && r in g && White(g, seen, ms)
    ensures g[r].keyname !in seen
  {
    ReachesSelf(g, r);
    assert ReachedBy(g, ms, r);
  }

  lemma OneMoreImport(g: Graph, seen: set<string>, rs: seq<Ref>, r: Ref)
    requires Closed(g) && Unique(g) && r in g && (forall m :: m in rs ==> m in g)
    requires White(g, seen, rs) && g[r].keyname !in seen
    requires ListIff(g, seen, rs)
    requires Apart(g, rs, r) ==> WalkIff(g, seen + Keynames(g, Entered(WalkAll(g, seen, rs))), r)
    ensures ListIff(g, seen, rs + [r])
  {
    var first := Entered(WalkAll(g, seen, rs));
    var next := Entered(Walk(g, seen + Keynames(g, first), r));
    WalkAllSnoc(g, seen, rs, r);
    SeparateSnoc(g, rs, r);
    if ReachedBy(g, rs, r) {
      NothingNew(g, seen, rs, r);
      assert first + [] == first;
    } else {
      NewIsDisjoint(g, seen, rs, r);
      OuterFirstConcat(g, first, next);
      if !Apart(g, rs, r) {
        OverlapBreaks(g, seen, rs, r);
      }
    }
  }

  lemma WhiteNext(g: Graph, seen: set<string>, ms: seq<Ref>, j: nat)
    requires Closed(g) && Unique(g) && j < |ms| && (forall m :: m in ms ==> m in g) && White(g, seen, ms)
    requires Apart(g, ms[..j], ms[j])
    ensures White(g, seen + Keynames(g, Entered(WalkAll(g, seen, ms[..j]))), [ms[j]])
  {
    WhiteListEnters(g, seen, ms[..j]);
    forall x | ReachedBy(g, [ms[j]], x) && x in g
      ensures g[x].keyname !in seen + Keynames(g, Entered(WalkAll(g, seen, ms[..j])))
    {
      assert Reaches(g, ms[j], x);
      assert ReachedBy(g, ms, x);
    }
  }

  /** An import that earlier imports reach has been entered with them, and one they do not reach has not. */
  lemma NothingNew(g: Graph, seen: set<string>, rs: seq<Ref>, r: Ref)
    requires Closed(g) && Unique(g) && r in g && (forall m :: m in rs ==> m in g) && White(g, seen, rs)
    requires ReachedBy(g, rs, r)
    ensures Entered(Walk(g, seen + Keynames(g, Entered(WalkAll(g, seen, rs))), r)) == []
    ensures AllUntangled(g, rs) ==> AllUntangled(g, [r])
  {
    WhiteListEnters(g, seen, rs);
    var a :| a in rs && Reaches(g, a, r);
    forall x | ReachedBy(g, [r], x) ensures ReachedBy(g, rs, x) {
      ReachesTransitive(g, a, r, x);
    }
  }

  lemma NewIsDisjoint(g: Graph, seen: set<string>, rs: seq<Ref>, r: Ref)
    requires Closed(g) && Unique(g) && r in g && (forall m :: m in rs ==> m in g) && White(g, seen, rs)
    ensures var first := Entered(WalkAll(g, seen, rs));
            var next := Entered(Walk(g, seen + Keynames(g, first), r));
            && (forall x :: x in first ==> x !in next)
            && forall x, m :: x in first && x in g && m in g[x].imports ==> m !in next
  {
    var first := Entered(WalkAll(g, seen, rs));
    var next := Entered(Walk(g, seen + Keynames(g, first), r));
    WhiteListEnters(g, seen, rs);
    WalkVisits(g, seen + Keynames(g, first), r);
    forall x | x in first ensures x !in next {
      var a :| a in rs && Reaches(g, a, x);
      NameListed(g, first, x);
      NameListed(g, next, x);
    }
    forall x, m | x in first && x in g && m in g[x].imports ensures m !in next {
      var a :| a in rs && Reaches(g, a, x);
      ReachesNext(g, a, x, m);
      assert m in first;
    }
  }

  lemma OverlapBreaks(g: Graph, seen: set<string>, rs: seq<Ref>, r: Ref)
    requires Closed(g) && Unique(g) && r in g && (forall m :: m in rs ==> m in g)
    requires White(g, seen, rs) && g[r].keyname !in seen
    requires !ReachedBy(g, rs, r) && !Apart(g, rs, r)
    ensures !OuterFirst(g, Entered(Walk(g, seen + Keynames(g, Entered(WalkAll(g, seen, rs))), r)))
  {
    var first := Entered(WalkAll(g, seen, rs));
    var seen' := seen + Keynames(g, first);
    var next := Entered(Walk(g, seen', r));
    WhiteListEnters(g, seen, rs);
    assert g[r].keyname !in seen';
    WalkUnfold(g, seen', r);
    var x :| Reaches(g, r, x) && ReachedBy(g, rs, x);
    if OuterFirst(g, next) {
      OuterFirstIsClosed(g, next, r, x);
      NewIsDisjoint(g, seen, rs, r);
    }
  }

  /** Every module is shut down before everything it imports, as documented, exactly when, for each module
      reachable from the root: it does not transitively import itself, and each of its imports is either reached
      by its earlier imports or reaches nothing that they reach. */
  lemma OuterFirstIffUntangled(g: Graph, root: Ref)
    requires Closed(g) && Unique(g) && root in g
    ensures OuterFirst(g, Entered(Walk(g, {}, root)))
       <==> forall u :: u in g && Reaches(g, root, u) ==> Untangled(g, u)
  {
    WalkOuterFirstIff(g, {}, root);
    forall u ensures ReachedBy(g, [root], u) <==> Reaches(g, root, u) {
      assert root in [root];
    }
  }

  /** The same condition one import at a time: nothing that an import newly reaches imports what the earlier ones
      already reach. */
  ghost predicate NoCrossing(g: Graph, ms: seq<Ref>) {
    forall j, x, m ::
      0 <= j < |ms| && Reaches(g, ms[j], x) && !ReachedBy(g, ms[..j], x) && x in g && m in g[x].imports ==>
        !ReachedBy(g, ms[..j], m)
  }

  lemma SeparateIffNoCrossing(g: Graph, ms: seq<Ref>)
    requires Closed(g) && forall m :: m in ms ==> m in g
    ensures Separate(g, ms) <==> NoCrossing(g, ms)
  {
    forall j | 0 <= j < |ms| && NoCrossing(g, ms) && !ReachedBy(g, ms[..j], ms[j]) ensures Apart(g, ms[..j], ms[j]) {
      CrossingOrApart(g, ms, j);
    }
    if Separate(g, ms) {
      forall j, x, m | 0 <= j < |ms| && Reaches(g, ms[j], x) && !ReachedBy(g, ms[..j], x) && x in g && m in g[x].imports
        ensures !ReachedBy(g, ms[..j], m)
      {
        if a :| a in ms[..j] && Reaches(g, a, ms[j]) {
          ReachesTransitive(g, a, ms[j], x);
        }
        ReachesNext(g, ms[j], x, m);
      }
    }
  }

  lemma CrossingOrApart(g: Graph, ms: seq<Ref>, j: nat)
    requires Closed(g) && j < |ms| && ms[j] in g && NoCrossing(g, ms) && !ReachedBy(g, ms[..j], ms[j])
    ensures Apart(g, ms[..j], ms[j])
  {
    var s := set x | x in g && Reaches(g, ms[j], x) && !ReachedBy(g, ms[..j], x);
    ReachesSelf(g, ms[j]);
    forall x, m | x in s && x in g && m in g[x].imports ensures m in s {
      ReachesNext(g, ms[j], x, m);
    }
    forall x | Reaches(g, ms[j], x) ensures !ReachedBy(g, ms[..j], x) {
      ClosedUnderReach(g, s, ms[j], x);
    }
  }
}
