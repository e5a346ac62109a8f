/** When `afterInit`'s unchecked recursion ends, and when imports are initialised first: exactly on
    graphs without an import cycle. */
module ModuleCycles {
  import opened Common
  import opened ModuleGraph
  import opened ModuleOrder

  /** No module that `root` reaches transitively imports itself. */
  ghost predicate AcyclicFrom(g: Graph, root: Ref) {
    forall p :: IsPath(g, p) && |p| > 1 && Reaches(g, root, p[0]) ==> p[0] != p[|p| - 1]
  }

  /** Recursing into every import, without checking what is done, needs at most `n` nested calls. */
  ghost predicate RecursionEndsWithin(g: Graph, r: Ref, n: nat)
    requires Closed(g) && r in g
    decreases n
  {
    n > 0 && forall m :: m in g[r].imports ==> RecursionEndsWithin(g, m, n - 1)
  }

  ghost predicate RecursionEnds(g: Graph, r: Ref)
    requires Closed(g) && r in g
  {
    exists n: nat :: RecursionEndsWithin(g, r, n)
  }

  lemma {:induction false} EndlessRecursionLeavesPath(g: Graph, r: Ref, n: nat) returns (p: seq<Ref>)
    requires Closed(g) && r in g && !RecursionEndsWithin(g, r, n)
    ensures IsPath(g, p) && p[0] == r && |p| == n + 1
    decreases n
  {
    if n == 0 {
      p := [r];
    } else {
      var m :| m in g[r].imports && !RecursionEndsWithin(g, m, n - 1);
      var tail := EndlessRecursionLeavesPath(g, m, n - 1);
      p := [r] + tail;
    }
  }

  lemma {:induction false} DistinctFits(s: seq<Ref>, all: set<Ref>)
    requires Distinct(s) && forall x :: x in s ==> x in all
    ensures |s| <= |all|
  {
    if s != [] {
      var rest := s[1..];
      forall x | x in rest ensures x in all - {s[0]} {
        var i :| 0 <= i < |rest| && rest[i] == x;
        assert s[i + 1] == x;
      }
      DistinctFits(rest, all - {s[0]});
    }
  }

  lemma LongPathHasCycle(g: Graph, p: seq<Ref>)
    requires IsPath(g, p) && |p| > |g|
    ensures !AcyclicFrom(g, p[0])
  {
    if Distinct(p) {
      DistinctFits(p, g.Keys);
    }
    var i, j :| 0 <= i < j < |p| && p[i] == p[j];
    SubPath(g, p, i, j);
    SubPath(g, p, 0, i);
    assert IsPathFrom(g, p[0], p[0..i + 1], p[i]);
    assert p[i..j + 1][0] == p[i];
  }

  lemma SubPath(g: Graph, p: seq<Ref>, i: nat, j: nat)
    requires IsPath(g, p) && i <= j < |p|
    ensures IsPath(g, p[i..j + 1])
  {
  }

  lemma {:induction false} RecursionFollowsPath(g: Graph, p: seq<Ref>, n: nat)
    requires Closed(g) && IsPath(g, p) && RecursionEndsWithin(g, p[0], n)
    ensures |p| <= n && RecursionEndsWithin(g, p[|p| - 1], n - (|p| - 1))
    decreases |p|
  {
    if |p| > 1 {
      RecursionFollowsPath(g, p[1..], n - 1);
    }
  }

  lemma {:induction false} CycleNeverEnds(g: Graph, p: seq<Ref>, n: nat)
    requires Closed(g) && IsPath(g, p) && |p| > 1 && p[0] == p[|p| - 1]
    ensures !RecursionEndsWithin(g, p[0], n)
  {
    if RecursionEndsWithin(g, p[0], n) {
      RecursionFollowsPath(g, p, n);
      CycleNeverEnds(g, p, n - (|p| - 1));
    }
  }

  /** The recursion of `afterInitModule` is finite from a module exactly when that module reaches no import
      cycle. */
  lemma RecursionEndsIffAcyclic(g: Graph, r: Ref)
    requires Closed(g) && r in g
    ensures RecursionEnds(g, r) <==> AcyclicFrom(g, r)
  {
    if AcyclicFrom(g, r) {
      if !RecursionEndsWithin(g, r, |g|) {
        var p := EndlessRecursionLeavesPath(g, r, |g|);
        LongPathHasCycle(g, p);
      }
    }
    if RecursionEnds(g, r) {
      var n: nat :| RecursionEndsWithin(g, r, n);
      forall p | IsPath(g, p) && |p| > 1 && Reaches(g, r, p[0]) ensures p[0] != p[|p| - 1] {
        var q :| IsPathFrom(g, r, q, p[0]);
        RecursionFollowsPath(g, q, n);
        if p[0] == p[|p| - 1] {
          CycleNeverEnds(g, p, n - (|q| - 1));
        }
      }
    }
  }

  // -------------------------------------------------------------------- ranks

  lemma {:induction false} MoreDepthIsEnough(g: Graph, r: Ref, n: nat, n': nat)
    requires Closed(g) && r in g && n <= n' && RecursionEndsWithin(g, r, n)
    ensures RecursionEndsWithin(g, r, n')
    decreases n
  {
    forall m | m in g[r].imports ensures RecursionEndsWithin(g, m, n' - 1) {
      MoreDepthIsEnough(g, m, n - 1, n' - 1);
    }
  }

  /** The least nesting that suffices, searched downwards from one that does. */
  ghost function Height(g: Graph, r: Ref, n: nat): (h: nat)
    requires Closed(g) && r in g && RecursionEndsWithin(g, r, n)
    ensures h > 0 && RecursionEndsWithin(g, r, h) && !RecursionEndsWithin(g, r, h - 1)
  {
    if RecursionEndsWithin(g, r, n - 1) then Height(g, r, n - 1) else n
  }

  lemma EndsFromReached(g: Graph, root: Ref, n: nat, x: Ref)
    requires Closed(g) && root in g && RecursionEndsWithin(g, root, n) && Reaches(g, root, x)
    ensures x in g && RecursionEndsWithin(g, x, n)
  {
    var p :| IsPathFrom(g, root, p, x);
    RecursionFollowsPath(g, p, n);
    MoreDepthIsEnough(g, x, n - (|p| - 1), n);
  }

  lemma HeightFalls(g: Graph, r: Ref, m: Ref, n: nat)
    requires Closed(g) && r in g && m in g[r].imports
    requires RecursionEndsWithin(g, r, n) && RecursionEndsWithin(g, m, n)
    ensures Height(g, m, n) < Height(g, r, n)
  {
    if Height(g, r, n) <= Height(g, m, n) {
      MoreDepthIsEnough(g, m, Height(g, r, n) - 1, Height(g, m, n) - 1);
    }
  }

  /** A recursion that ends ranks everything it comes to. */
  lemma EndsIsRanked(g: Graph, root: Ref, n: nat) returns (rank: map<Ref, nat>)
    requires Closed(g) && root in g && RecursionEndsWithin(g, root, n)
    ensures Ranked(g, rank) && root in rank
  {
    forall x | x in g && Reaches(g, root, x) ensures RecursionEndsWithin(g, x, n) {
      EndsFromReached(g, root, n, x);
    }
    rank := map x | x in g && Reaches(g, root, x) :: Height(g, x, n);
    forall r, m | r in rank && m in g[r].imports ensures m in rank && rank[m] < rank[r] {
      ReachesNext(g, root, r, m);
      HeightFalls(g, r, m, n);
    }
    ReachesSelf(g, root);
  }

  lemma {:induction false} RankedEnds(g: Graph, rank: map<Ref, nat>, r: Ref, n: nat)
    requires Closed(g) && Ranked(g, rank) && r in rank && n > rank[r]
    ensures RecursionEndsWithin(g, r, n)
    decreases n
  {
    forall m | m in g[r].imports ensures RecursionEndsWithin(g, m, n - 1) {
      RankedEnds(g, rank, m, n - 1);
    }
  }

  /** Modules can be ranked along imports, from a root down, exactly when the root reaches no cycle. */
  lemma RankedIffAcyclic(g: Graph, root: Ref)
    requires Closed(g) && root in g
    ensures AcyclicFrom(g, root) <==> exists rank :: Ranked(g, rank) && root in rank
  {
    RecursionEndsIffAcyclic(g, root);
    if AcyclicFrom(g, root) {
      var n: nat :| RecursionEndsWithin(g, root, n);
      var rank := EndsIsRanked(g, root, n);
    }
    if rank :| Ranked(g, rank) && root in rank {
      RankedEnds(g, rank, root, rank[root] + 1);
    }
  }

  /** `onInit` of every module reached comes after that of all its imports, transitive ones included, exactly
      when the root reaches no import cycle. */
  lemma ImportsInitialisedFirstIffAcyclic(g: Graph, root: Ref)
    requires Closed(g) && Unique(g) && root in g
    ensures AcyclicFrom(g, root) <==> ImportsFirst(g, {}, Left(Walk(g, {}, root)))
  {
    var order := Left(Walk(g, {}, root));
    if AcyclicFrom(g, root) {
      RankedIffAcyclic(g, root);
      var rank :| Ranked(g, rank) && root in rank;
      AfterInitOrderEqualsOnInitOrder(g, rank, root);
      AfterOrderImportsFirst(g, rank, {}, root);
    }
    if ImportsFirst(g, {}, order) {
      LeftOnce(g, root);
      WalkVisitsExactlyReachable(g, root);
      forall p | IsPath(g, p) && |p| > 1 && Reaches(g, root, p[0]) ensures p[0] != p[|p| - 1] {
        LeftIsEntered(g, root, p[0]);
        var j :| 0 <= j < |order| && order[j] == p[0];
        TransitiveImportsFirst(g, order, j, p);
      }
    }
  }

  lemma LeftIsEntered(g: Graph, r: Ref, m: Ref)
    requires Closed(g) && r in g
    ensures m in Left(Walk(g, {}, r)) <==> m in Entered(Walk(g, {}, r))
  {
    WalkVisits(g, {}, r);
    assert m in multiset(Left(Walk(g, {}, r))) <==> m in multiset(Entered(Walk(g, {}, r)));
  }

  lemma LeftOnce(g: Graph, r: Ref)
    requires Closed(g) && r in g
    ensures Distinct(Left(Walk(g, {}, r))) && r in Left(Walk(g, {}, r))
    ensures forall m :: m in Left(Walk(g, {}, r)) ==> m in g
  {
    var es := Walk(g, {}, r);
    WalkVisits(g, {}, r);
    WalkUnfold(g, {}, r);
    forall m ensures multiset(Left(es))[m] <= 1 && (m in Left(es) <==> m in Entered(es)) {
      MultiplicityOfDistinct(g, Entered(es), m);
      assert m in multiset(Left(es)) <==> m in multiset(Entered(es));
    }
    DistinctByMultiplicity(Left(es));
  }

  lemma {:induction false} MultiplicityOfDistinct(g: Graph, rs: seq<Ref>, m: Ref)
    requires DistinctKeynames(g, rs)
    ensures multiset(rs)[m] <= 1
  {
    if rs != [] {
      MultiplicityOfDistinct(g, rs[1..], m);
      assert rs == [rs[0]] + rs[1..];
      forall i | 0 <= i < |rs[1..]| ensures rs[1..][i] != rs[0] {
        assert g[rs[0]].keyname != g[rs[i + 1]].keyname;
      }
    }
  }

  lemma DistinctByMultiplicity(rs: seq<Ref>)
    requires forall m :: multiset(rs)[m] <= 1
    ensures Distinct(rs)
  {
    forall i, j | 0 <= i < j < |rs| ensures rs[i] != rs[j] {
      assert rs == rs[..i] + [rs[i]] + rs[i + 1..j] + [rs[j]] + rs[j + 1..];
      assert multiset{rs[i], rs[j]} <= multiset(rs);
    }
  }
}
