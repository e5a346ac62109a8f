/** What the kernel's two walks visit, and in which order. */
module ModuleOrder {
  import opened ModuleGraph

  ghost predicate DistinctKeynames(g: Graph, rs: seq<Ref>) {
    && (forall m :: m in rs ==> m in g)
    && forall i, j :: 0 <= i < j < |rs| ==> g[rs[i]].keyname != g[rs[j]].keyname
  }

  lemma DistinctKeynamesConcat(g: Graph, a: seq<Ref>, b: seq<Ref>)
    requires DistinctKeynames(g, a) && DistinctKeynames(g, b)
    requires Keynames(g, a) !! Keynames(g, b)
    ensures DistinctKeynames(g, a + b)
  {
    forall i, j | 0 <= i < j < |a + b|
      ensures g[(a + b)[i]].keyname != g[(a + b)[j]].keyname
    {
      if i < |a| <= j {
        assert a[i] in a && b[j - |a|] in b;
        assert g[a[i]].keyname in Keynames(g, a) && g[b[j - |a|]].keyname in Keynames(g, b);
      }
    }
  }

  // ------------------------------------------------------- what a walk visits

  /** Fresh keynames, each entered once, and each entered module left once. */
  ghost predicate Visits(g: Graph, seen: set<string>, es: seq<Event>) {
    && DistinctKeynames(g, Entered(es))
    && Keynames(g, Entered(es)) !! seen
    && multiset(Entered(es)) == multiset(Left(es))
  }

  lemma VisitsConcat(g: Graph, seen: set<string>, a: seq<Event>, b: seq<Event>)
    requires Visits(g, seen, a) && Visits(g, seen + Keynames(g, Entered(a)), b)
    ensures Visits(g, seen, a + b)
  {
    EnteredConcat(a, b);
    LeftConcat(a, b);
    KeynamesConcat(g, Entered(a), Entered(b));
    DistinctKeynamesConcat(g, Entered(a), Entered(b));
  }

  lemma VisitsWrap(g: Graph, seen: set<string>, r: Ref, inner: seq<Event>)
    requires r in g && g[r].keyname !in seen
    requires Visits(g, seen + {g[r].keyname}, inner)
    ensures Visits(g, seen, [Enter(r)] + inner + [Leave(r)])
  {
    WrappedEvents(r, inner);
    assert Keynames(g, [r]) == {g[r].keyname};
    KeynamesConcat(g, [r], Entered(inner));
    DistinctKeynamesConcat(g, [r], Entered(inner));
  }

  lemma {:induction false} WalkVisits(g: Graph, seen: set<string>, r: Ref)
    requires Closed(g) && r in g
    ensures Visits(g, seen, Walk(g, seen, r))
    ensures g[r].keyname in seen + Keynames(g, Entered(Walk(g, seen, r)))
    decreases AllKeynames(g) - seen, 0
  {
    var name := g[r].keyname;
    if name !in seen {
      assert name in AllKeynames(g);
      WalkAllVisits(g, seen + {name}, g[r].imports);
      VisitsWrap(g, seen, r, WalkAll(g, seen + {name}, g[r].imports));
      WalkUnfold(g, seen, r);
    }
  }

  lemma {:induction false} WalkAllVisits(g: Graph, seen: set<string>, rs: seq<Ref>)
    requires Closed(g) && forall m :: m in rs ==> m in g
    ensures Visits(g, seen, WalkAll(g, seen, rs))
    ensures Keynames(g, rs) <= seen + Keynames(g, Entered(WalkAll(g, seen, rs)))
    decreases AllKeynames(g) - seen, |rs|
  {
    if rs != [] {
      var first := Walk(g, seen, rs[0]);
      var seen' := seen + Keynames(g, Entered(first));
      var rest := WalkAll(g, seen', rs[1..]);
      WalkVisits(g, seen, rs[0]);
      WalkAllVisits(g, seen', rs[1..]);
      WalkAllUnfold(g, seen, rs);
      VisitsConcat(g, seen, first, rest);
      KeynamesAccumulate(g, seen, Entered(first), Entered(rest));
      KeynamesSplit(g, rs);
    }
  }

  // -------------------------------------------------------------- reachability

  ghost predicate IsPath(g: Graph, p: seq<Ref>) {
    && p != []
    && (forall m :: m in p ==> m in g)
    && forall i :: 0 <= i < |p| - 1 ==> p[i + 1] in g[p[i]].imports
  }

  ghost predicate IsPathFrom(g: Graph, a: Ref, p: seq<Ref>, b: Ref) {
    IsPath(g, p) && p[0] == a && p[|p| - 1] == b
  }

  ghost predicate Reaches(g: Graph, a: Ref, b: Ref) {
    exists p :: IsPathFrom(g, a, p, b)
  }

  lemma ReachesSelf(g: Graph, a: Ref)
    requires a in g
    ensures Reaches(g, a, a)
  {
    assert IsPathFrom(g, a, [a], a);
  }

  lemma ReachesThrough(g: Graph, a: Ref, m: Ref, b: Ref)
    requires a in g && m in g[a].imports && Reaches(g, m, b)
    ensures Reaches(g, a, b)
  {
    var p :| IsPathFrom(g, m, p, b);
    var q := [a] + p;
    forall i | 0 <= i < |q| - 1 ensures q[i + 1] in g[q[i]].imports {
      if i > 0 {
        assert q[i] == p[i - 1] && q[i + 1] == p[i - 1 + 1];
      }
    }
    assert IsPathFrom(g, a, q, b);
  }

  lemma ReachesNext(g: Graph, a: Ref, x: Ref, m: Ref)
    requires Closed(g) && Reaches(g, a, x) && x in g && m in g[x].imports
    ensures Reaches(g, a, m)
  {
    var p :| IsPathFrom(g, a, p, x);
    var q := p + [m];
    forall i | 0 <= i < |q| - 1 ensures q[i + 1] in g[q[i]].imports {
      if i < |p| - 1 {
        assert p[i + 1] in g[p[i]].imports;
      }
    }
    assert IsPathFrom(g, a, q, m);
  }

  /** Every import of a listed module is marked. */
  ghost predicate ImportsMarked(g: Graph, marked: set<string>, rs: seq<Ref>) {
    forall m, n :: m in rs && m in g && n in g[m].imports && n in g ==> g[n].keyname in marked
  }

  lemma ReachedThroughImports(g: Graph, r: Ref, ms: seq<Ref>)
    requires Closed(g) && r in g
    requires forall m :: m in ms ==> exists i :: i in g[r].imports && Reaches(g, i, m)
    ensures forall m :: m in [r] + ms ==> Reaches(g, r, m)
  {
    ReachesSelf(g, r);
    forall m | m in ms ensures Reaches(g, r, m) {
      var i :| i in g[r].imports && Reaches(g, i, m);
      ReachesThrough(g, r, i, m);
    }
  }

  lemma {:induction false} WalkReaches(g: Graph, seen: set<string>, r: Ref)
    requires Closed(g) && r in g
    ensures forall m :: m in Entered(Walk(g, seen, r)) ==> Reaches(g, r, m)
    ensures ImportsMarked(g, seen + Keynames(g, Entered(Walk(g, seen, r))), Entered(Walk(g, seen, r)))
    decreases AllKeynames(g) - seen, 0
  {
    var name := g[r].keyname;
    if name !in seen {
      assert name in AllKeynames(g);
      var inner := WalkAll(g, seen + {name}, g[r].imports);
      WalkAllReaches(g, seen + {name}, g[r].imports);
      WalkAllVisits(g, seen + {name}, g[r].imports);
      WalkUnfold(g, seen, r);
      KeynamesConcat(g, [r], Entered(inner));
      ReachedThroughImports(g, r, Entered(inner));
    }
  }

  lemma {:induction false} WalkAllReaches(g: Graph, seen: set<string>, rs: seq<Ref>)
    requires Closed(g) && forall m :: m in rs ==> m in g
    ensures forall m :: m in Entered(WalkAll(g, seen, rs)) ==> exists i :: i in rs && Reaches(g, i, m)
    ensures ImportsMarked(g, seen + Keynames(g, Entered(WalkAll(g, seen, rs))), Entered(WalkAll(g, seen, rs)))
    decreases AllKeynames(g) - seen, |rs|
  {
    if rs != [] {
      var first := Walk(g, seen, rs[0]);
      var seen' := seen + Keynames(g, Entered(first));
      WalkReaches(g, seen, rs[0]);
      WalkAllReaches(g, seen', rs[1..]);
      WalkAllUnfold(g, seen, rs);
      KeynamesConcat(g, Entered(first), Entered(WalkAll(g, seen', rs[1..])));
    }
  }

  lemma {:induction false} MarkedAlongPath(g: Graph, rs: seq<Ref>, p: seq<Ref>)
    requires Unique(g) && IsPath(g, p) && p[0] in rs
    requires forall m :: m in rs ==> m in g
    requires ImportsMarked(g, Keynames(g, rs), rs)
    ensures p[|p| - 1] in rs
    decreases |p|
  {
    if |p| > 1 {
      assert p[0 + 1] in g[p[0]].imports && p[1] in g;
      assert g[p[1]].keyname in Keynames(g, rs);
      var q := p[1..];
      forall i | 0 <= i < |q| - 1 ensures q[i + 1] in g[q[i]].imports {
        assert p[i + 1 + 1] in g[p[i + 1]].imports;
      }
      MarkedAlongPath(g, rs, q);
    }
  }

  /** On every finite graph, cyclic ones included, the walk from a root enters exactly the modules
      reachable from it, and no keyname twice. */
  lemma WalkVisitsExactlyReachable(g: Graph, root: Ref)
    requires Closed(g) && Unique(g) && root in g
    ensures forall m :: m in Entered(Walk(g, {}, root)) <==> Reaches(g, root, m)
    ensures DistinctKeynames(g, Entered(Walk(g, {}, root)))
  {
    var rs := Entered(Walk(g, {}, root));
    WalkVisits(g, {}, root);
    WalkReaches(g, {}, root);
    WalkUnfold(g, {}, root);
    assert Keynames(g, rs) == {} + Keynames(g, rs);
    forall m | Reaches(g, root, m) ensures m in rs {
      var p :| IsPathFrom(g, root, p, m);
      MarkedAlongPath(g, rs, p);
    }
  }

  // -------------------------------------------- recurse, then check: afterInit

  /** A rank of some modules, and of all that they import, that falls along imports. */
  ghost predicate Ranked(g: Graph, rank: map<Ref, nat>) {
    && (forall r :: r in rank ==> r in g)
    && forall r, m :: r in rank && m in g[r].imports ==> m in rank && rank[m] < rank[r]
  }

  /** The modules whose `afterInit` completes, in order, when those named in `done` are complete. */
  ghost function AfterOrder(g: Graph, rank: map<Ref, nat>, done: set<string>, r: Ref): seq<Ref>
    requires Closed(g) && Ranked(g, rank) && r in rank
    decreases rank[r], 0
  {
    var below := AfterOrderAll(g, rank, done, g[r].imports, rank[r]);
    if g[r].keyname in done + Keynames(g, below) then below else below + [r]
  }

  ghost function AfterOrderAll(g: Graph, rank: map<Ref, nat>, done: set<string>, rs: seq<Ref>, bound: nat): seq<Ref>
    requires Closed(g) && Ranked(g, rank)
    requires forall m :: m in rs ==> m in rank && rank[m] < bound
    decreases bound, 0, |rs|
  {
    if rs == [] then []
    else
      var first := AfterOrder(g, rank, done, rs[0]);
      first + AfterOrderAll(g, rank, done + Keynames(g, first), rs[1..], bound)
  }

  /** The imports of a completed module are complete. */
  ghost predicate DoneClosed(g: Graph, done: set<string>) {
    forall m, n :: m in g && g[m].keyname in done && n in g[m].imports && n in g ==> g[n].keyname in done
  }

  /** The marked but incomplete modules are importers still under way. */
  ghost predicate PendingAbove(g: Graph, rank: map<Ref, nat>, seen: set<string>, done: set<string>, bound: nat)
    requires Ranked(g, rank)
  {
    && done <= seen
    && forall m :: m in rank && g[m].keyname in seen - done ==> rank[m] >= bound
  }

  lemma {:induction false} NothingLeftToComplete(g: Graph, rank: map<Ref, nat>, done: set<string>, r: Ref)
    requires Closed(g) && Ranked(g, rank) && r in rank
    requires DoneClosed(g, done) && g[r].keyname in done
    ensures AfterOrder(g, rank, done, r) == []
    decreases rank[r], 0
  {
    NothingLeftToCompleteAll(g, rank, done, g[r].imports, rank[r]);
  }

  lemma {:induction false} NothingLeftToCompleteAll(
      g: Graph, rank: map<Ref, nat>, done: set<string>, rs: seq<Ref>, bound: nat)
    requires Closed(g) && Ranked(g, rank)
    requires forall m :: m in rs ==> m in rank && rank[m] < bound
    requires DoneClosed(g, done) && Keynames(g, rs) <= done
    ensures AfterOrderAll(g, rank, done, rs, bound) == []
    decreases bound, 0, |rs|
  {
    if rs != [] {
      assert g[rs[0]].keyname in Keynames(g, rs);
      NothingLeftToComplete(g, rank, done, rs[0]);
      assert done + Keynames(g, []) == done;
      NothingLeftToCompleteAll(g, rank, done, rs[1..], bound);
    }
  }

  /** What one visit establishes about completion. */
  ghost predicate Completes(g: Graph, done: set<string>, es: seq<Event>, order: seq<Ref>) {
    && order == Left(es)
    && Keynames(g, order) == Keynames(g, Entered(es))
    && DoneClosed(g, done + Keynames(g, order))
  }

  lemma CompletesConcat(g: Graph, done: set<string>, a: seq<Event>, oa: seq<Ref>, b: seq<Event>, ob: seq<Ref>)
    requires Completes(g, done, a, oa) && Completes(g, done + Keynames(g, oa), b, ob)
    ensures Completes(g, done, a + b, oa + ob)
  {
    EnteredConcat(a, b);
    LeftConcat(a, b);
    KeynamesConcat(g, oa, ob);
    KeynamesConcat(g, Entered(a), Entered(b));
    assert done + Keynames(g, oa) + Keynames(g, ob) == done + Keynames(g, oa + ob);
  }

  lemma CompletesWrap(g: Graph, done: set<string>, r: Ref, inner: seq<Event>, below: seq<Ref>)
    requires Unique(g) && r in g && Completes(g, done, inner, below)
    requires Keynames(g, g[r].imports) <= done + Keynames(g, below)
    ensures Completes(g, done, [Enter(r)] + inner + [Leave(r)], below + [r])
  {
    WrappedEvents(r, inner);
    KeynamesConcat(g, below, [r]);
    KeynamesConcat(g, [r], Entered(inner));
    var done' := done + Keynames(g, below);
    assert done + Keynames(g, below + [r]) == done' + {g[r].keyname};
    forall m, n | m in g && g[m].keyname in done' + {g[r].keyname} && n in g[m].imports && n in g
      ensures g[n].keyname in done' + {g[r].keyname}
    {
      if m == r {
        assert g[n].keyname in Keynames(g, g[r].imports);
      }
    }
  }

  lemma {:induction false} AfterOrderIsLeaveOrder(
      g: Graph, rank: map<Ref, nat>, seen: set<string>, done: set<string>, r: Ref)
    requires Closed(g) && Unique(g) && Ranked(g, rank) && r in rank
    requires DoneClosed(g, done) && PendingAbove(g, rank, seen, done, rank[r] + 1)
    ensures Completes(g, done, Walk(g, seen, r), AfterOrder(g, rank, done, r))
    ensures g[r].keyname in done + Keynames(g, AfterOrder(g, rank, done, r))
    decreases rank[r], 0
  {
    var name := g[r].keyname;
    if name in seen {
      assert name in done;
      NothingLeftToComplete(g, rank, done, r);
      assert done + Keynames(g, []) == done;
    } else {
      var inner := WalkAll(g, seen + {name}, g[r].imports);
      AfterOrderIsLeaveOrderAll(g, rank, seen + {name}, done, g[r].imports, rank[r]);
      WalkAllVisits(g, seen + {name}, g[r].imports);
      var below := AfterOrderAll(g, rank, done, g[r].imports, rank[r]);
      assert name !in done + Keynames(g, below);
      CompletesWrap(g, done, r, inner, below);
    }
  }

  lemma {:induction false} AfterOrderIsLeaveOrderAll(
      g: Graph, rank: map<Ref, nat>, seen: set<string>, done: set<string>, rs: seq<Ref>, bound: nat)
    requires Closed(g) && Unique(g) && Ranked(g, rank)
    requires forall m :: m in rs ==> m in rank && rank[m] < bound
    requires DoneClosed(g, done) && PendingAbove(g, rank, seen, done, bound)
    ensures Completes(g, done, WalkAll(g, seen, rs), AfterOrderAll(g, rank, done, rs, bound))
    ensures Keynames(g, rs) <= done + Keynames(g, AfterOrderAll(g, rank, done, rs, bound))
    decreases bound, 0, |rs|
  {
    if rs == [] {
      assert done + Keynames(g, []) == done;
    } else {
      AfterOrderIsLeaveOrder(g, rank, seen, done, rs[0]);
      var first := Walk(g, seen, rs[0]);
      var order := AfterOrder(g, rank, done, rs[0]);
      var done' := done + Keynames(g, order);
      var seen' := seen + Keynames(g, Entered(first));
      AfterOrderIsLeaveOrderAll(g, rank, seen', done', rs[1..], bound);
      var order' := AfterOrderAll(g, rank, done', rs[1..], bound);
      CompletesConcat(g, done, first, order, WalkAll(g, seen', rs[1..]), order');
      KeynamesAccumulate(g, done, order, order');
      KeynamesSplit(g, rs);
    }
  }

  /** Above no cycle, recurse-then-check completes `afterInit` in the very order in which
      check-mark-recurse completed `onInit`, hence once for each reachable module. */
  lemma AfterInitOrderEqualsOnInitOrder(g: Graph, rank: map<Ref, nat>, root: Ref)
    requires Closed(g) && Unique(g) && Ranked(g, rank) && root in rank
    ensures AfterOrder(g, rank, {}, root) == Left(Walk(g, {}, root))
    ensures multiset(AfterOrder(g, rank, {}, root)) == multiset(Entered(Walk(g, {}, root)))
    ensures DistinctKeynames(g, Entered(Walk(g, {}, root)))
    ensures forall m :: m in AfterOrder(g, rank, {}, root) <==> Reaches(g, root, m)
  {
    AfterOrderIsLeaveOrder(g, rank, {}, {}, root);
    WalkVisits(g, {}, root);
    WalkVisitsExactlyReachable(g, root);
    var es := Walk(g, {}, root);
    forall m ensures m in Left(es) <==> m in Entered(es) {
      assert m in multiset(Left(es)) <==> m in multiset(Entered(es));
    }
  }

  // ----------------------------------------------------- imports before importers

  /** Position by position, the imports of a module have come earlier. */
  ghost predicate ImportsFirst(g: Graph, done: set<string>, order: seq<Ref>) {
    forall j, m :: 0 <= j < |order| && order[j] in g && m in g[order[j]].imports && m in g ==>
      g[m].keyname in done + Keynames(g, order[..j])
  }

  lemma ImportsFirstConcat(g: Graph, done: set<string>, a: seq<Ref>, b: seq<Ref>)
    requires ImportsFirst(g, done, a) && ImportsFirst(g, done + Keynames(g, a), b)
    ensures ImportsFirst(g, done, a + b)
  {
    var c := a + b;
    forall j, m | 0 <= j < |c| && c[j] in g && m in g[c[j]].imports && m in g
      ensures g[m].keyname in done + Keynames(g, c[..j])
    {
      if j < |a| {
        assert c[..j] == a[..j];
      } else {
        assert c[..j] == a + b[..j - |a|];
        KeynamesConcat(g, a, b[..j - |a|]);
        assert b[j - |a|] == c[j];
      }
    }
  }

  lemma {:induction false} AfterOrderImportsFirst(g: Graph, rank: map<Ref, nat>, done: set<string>, r: Ref)
    requires Closed(g) && Ranked(g, rank) && r in rank
    ensures ImportsFirst(g, done, AfterOrder(g, rank, done, r))
    ensures g[r].keyname in done + Keynames(g, AfterOrder(g, rank, done, r))
    decreases rank[r], 0
  {
    var below := AfterOrderAll(g, rank, done, g[r].imports, rank[r]);
    AfterOrderImportsFirstAll(g, rank, done, g[r].imports, rank[r]);
    if g[r].keyname !in done + Keynames(g, below) {
      forall m | m in g[r].imports && m in g ensures g[m].keyname in done + Keynames(g, below) {
        assert g[m].keyname in Keynames(g, g[r].imports);
      }
      ImportsFirstConcat(g, done, below, [r]);
      KeynamesConcat(g, below, [r]);
    }
  }

  lemma {:induction false} AfterOrderImportsFirstAll(
      g: Graph, rank: map<Ref, nat>, done: set<string>, rs: seq<Ref>, bound: nat)
    requires Closed(g) && Ranked(g, rank)
    requires forall m :: m in rs ==> m in rank && rank[m] < bound
    ensures ImportsFirst(g, done, AfterOrderAll(g, rank, done, rs, bound))
    ensures Keynames(g, rs) <= done + Keynames(g, AfterOrderAll(g, rank, done, rs, bound))
    decreases bound, 0, |rs|
  {
    if rs != [] {
      var order := AfterOrder(g, rank, done, rs[0]);
      var done' := done + Keynames(g, order);
      AfterOrderImportsFirst(g, rank, done, rs[0]);
      AfterOrderImportsFirstAll(g, rank, done', rs[1..], bound);
      var order' := AfterOrderAll(g, rank, done', rs[1..], bound);
      ImportsFirstConcat(g, done, order, order');
      KeynamesAccumulate(g, done, order, order');
      KeynamesSplit(g, rs);
    }
  }

  lemma {:induction false} TransitiveImportsFirst(g: Graph, order: seq<Ref>, j: nat, p: seq<Ref>)
    requires Unique(g) && (forall m :: m in order ==> m in g) && ImportsFirst(g, {}, order)
    requires j < |order| && IsPath(g, p) && p[0] == order[j] && |p| > 1
    ensures p[|p| - 1] in order[..j]
    decreases |p|
  {
    assert p[0 + 1] in g[p[0]].imports && p[1] in g;
    assert g[p[1]].keyname in {} + Keynames(g, order[..j]);
    var m :| m in order[..j] && m in g && g[m].keyname == g[p[1]].keyname;
    var i :| 0 <= i < j && order[i] == m;
    if |p| > 2 {
      var q := p[1..];
      forall k | 0 <= k < |q| - 1 ensures q[k + 1] in g[q[k]].imports {
        assert p[k + 1 + 1] in g[p[k + 1]].imports;
      }
      TransitiveImportsFirst(g, order, i, q);
    }
  }
}
