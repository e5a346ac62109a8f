/** `ObjectUtil.deepMerge` as a function on values, and its algebra.

    A value is `undefined`, a leaf (a primitive, or a class instance, which is never entered), or a
    container: a plain object or an array, with its own keys. */
module DeepMergeLaws {

  datatype Kind = PlainObject | Array

  datatype Key = Name(name: string) | Index(index: nat)

  datatype Tree<A> = Undef | Leaf(value: A) | Node(kind: Kind, props: map<Key, Tree<A>>)

  /** The value under a key; `undefined` when there is none. */
  function Get<A>(t: Tree<A>, k: Key): Tree<A> {
    if t.Node? && k in t.props then t.props[k] else Undef
  }

  /** What a container of this kind merges into: an existing container of the same kind, or nothing. */
  function Base<A>(t: Tree<A>, kind: Kind): Tree<A> {
    if t.Node? && t.kind == kind then t else Undef
  }

  ghost function BaseKeys<A>(t: Tree<A>): set<Key> {
    if t.Node? then t.props.Keys else {}
  }

  /** `mergeValue`: containers merge key by key, skipping `undefined`; anything else replaces. */
  ghost function Merge<A>(t: Tree<A>, s: Tree<A>): Tree<A>
    decreases s
  {
    match s
    case Undef => t
    case Leaf(_) => s
    case Node(kind, props) =>
      var base := Base(t, kind);
      Node(kind, map k | k in BaseKeys(base) + props.Keys && (k in BaseKeys(base) || !props[k].Undef?) ::
        if k in props then Merge(Get(base, k), props[k]) else Get(base, k))
  }

  /** A source given to `deepMerge`: its own keys when it is an object of any sort, else nothing. */
  ghost function AsProperties<A>(source: Tree<A>): Tree<A> {
    if source.Node? then Node(PlainObject, source.props) else Undef
  }

  ghost function DeepMerge<A>(sources: seq<Tree<A>>): Tree<A> {
    if sources == [] then Node(PlainObject, map[])
    else Merge(DeepMerge(sources[..|sources| - 1]), AsProperties(sources[|sources| - 1]))
  }

  /** No `undefined` is stored. */
  ghost predicate Normal<A>(t: Tree<A>) {
    t.Node? ==> forall k :: k in t.props ==> !t.props[k].Undef? && Normal(t.props[k])
  }

  /** Without the keys that hold `undefined`. */
  ghost function Norm<A>(t: Tree<A>): Tree<A> {
    match t
    case Undef => Undef
    case Leaf(_) => t
    case Node(kind, props) => Node(kind, map k | k in props && !props[k].Undef? :: Norm(props[k]))
  }

  lemma MergeGet<A>(t: Tree<A>, s: Tree<A>, k: Key)
    requires s.Node?
    ensures Get(Merge(t, s), k) == Merge(Get(Base(t, s.kind), k), Get(s, k))
  {
  }

  lemma SameGets<A>(a: Tree<A>, b: Tree<A>)
    requires Normal(a) && Normal(b) && a.Node? && b.Node? && a.kind == b.kind
    requires forall k :: Get(a, k) == Get(b, k)
    ensures a == b
  {
    forall k ensures k in a.props <==> k in b.props {
      assert Get(a, k) == Get(b, k);
    }
    forall k | k in a.props ensures a.props[k] == b.props[k] {
      assert Get(a, k) == Get(b, k);
    }
    assert a.props == b.props;
  }

  lemma NormalGet<A>(t: Tree<A>, k: Key)
    requires Normal(t)
    ensures Normal(Get(t, k))
  {
  }

  lemma {:induction false} MergeNormal<A>(t: Tree<A>, s: Tree<A>)
    requires Normal(t)
    ensures Normal(Merge(t, s))
    ensures Merge(t, s).Undef? <==> t.Undef? && s.Undef?
    decreases s
  {
    if s.Node? {
      var m := Merge(t, s);
      forall k | k in m.props ensures !m.props[k].Undef? && Normal(m.props[k]) {
        NormalGet(Base(t, s.kind), k);
        if k in s.props {
          MergeNormal(Get(Base(t, s.kind), k), s.props[k]);
        }
      }
    }
  }

  /** An `undefined` anywhere in a source has no effect. */
  lemma {:induction false} UndefinedIsSkipped<A>(t: Tree<A>, s: Tree<A>)
    requires Normal(t)
    ensures Normal(Norm(s)) && Merge(t, Norm(s)) == Merge(t, s)
    decreases s
  {
    if s.Node? {
      var n := Norm(s);
      forall k | k in s.props ensures Normal(Norm(s.props[k])) {
        UndefinedIsSkipped(Undef, s.props[k]);
      }
      forall k ensures Get(Merge(t, n), k) == Get(Merge(t, s), k) {
        MergeGet(t, s, k);
        MergeGet(t, n, k);
        NormalGet(Base(t, s.kind), k);
        if k in s.props {
          UndefinedIsSkipped(Get(Base(t, s.kind), k), s.props[k]);
        }
      }
      MergeNormal(t, s);
      MergeNormal(t, n);
      SameGets(Merge(t, n), Merge(t, s));
    }
  }

  /** Merging into nothing of the same kind clones. */
  lemma {:induction false} MergeClones<A>(t: Tree<A>, s: Tree<A>)
    requires Normal(s) && !s.Undef? && (s.Node? ==> Base(t, s.kind).Undef?)
    ensures Merge(t, s) == s
    decreases s
  {
    if s.Node? {
      forall k | k in s.props ensures Merge(Undef, s.props[k]) == s.props[k] {
        MergeClones(Undef, s.props[k]);
      }
    }
  }

  /** What a merge is: `undefined` leaves what is there; a leaf replaces it; a container replaces anything but a
      container of its own kind, with which it is merged key by key. */
  lemma MergesByKind<A>(t: Tree<A>, s: Tree<A>)
    ensures s.Undef? ==> Merge(t, s) == t
    ensures s.Leaf? ==> Merge(t, s) == s
    ensures s.Node? && !(t.Node? && t.kind == s.kind) ==> Merge(t, s) == Norm(s)
    ensures s.Node? && t.Node? && t.kind == s.kind ==> MergesByKey(t, s, Merge(t, s))
  {
    if s.Node? && !(t.Node? && t.kind == s.kind) {
      UndefinedIsSkipped(Undef, s);
      MergeClones(Undef, Norm(s));
      assert Merge(t, s).props == Merge(Undef, s).props;
    }
  }

  ghost predicate MergesByKey<A>(t: Tree<A>, s: Tree<A>, m: Tree<A>)
    requires t.Node? && s.Node?
  {
    && m.Node? && m.kind == t.kind
    && (forall k :: k in m.props <==> k in t.props || (k in s.props && !s.props[k].Undef?))
    && (forall k :: k in t.props && k !in s.props ==> k in m.props && m.props[k] == t.props[k])
    && (forall k :: k in s.props && k !in t.props && !s.props[k].Undef? ==>
          k in m.props && m.props[k] == Merge(Undef, s.props[k]))
    && forall k :: k in s.props && k in t.props ==> k in m.props && m.props[k] == Merge(t.props[k], s.props[k])
  }

  lemma {:induction false} MergeIdempotent<A>(s: Tree<A>)
    requires Normal(s)
    ensures Merge(s, s) == s
  {
    if s.Node? {
      forall k ensures Get(Merge(s, s), k) == Get(s, k) {
        MergeGet(s, s, k);
        if k in s.props {
          MergeIdempotent(s.props[k]);
        }
      }
      MergeNormal(s, s);
      SameGets(Merge(s, s), s);
    }
  }

  // -------------------------------------------------------------------- deepMerge

  lemma {:induction false} DeepMergeNormal<A>(sources: seq<Tree<A>>)
    ensures Normal(DeepMerge(sources)) && DeepMerge(sources).Node? && DeepMerge(sources).kind == PlainObject
  {
    if sources != [] {
      DeepMergeNormal(sources[..|sources| - 1]);
      MergeNormal(DeepMerge(sources[..|sources| - 1]), AsProperties(sources[|sources| - 1]));
    }
  }

  lemma DeepMergeNext<A>(sources: seq<Tree<A>>, s: Tree<A>)
    ensures DeepMerge(sources + [s]) == Merge(DeepMerge(sources), AsProperties(s))
  {
  }

  lemma DeepMergeOne<A>(s: Tree<A>)
    requires Normal(s) && s.Node? && s.kind == PlainObject
    ensures DeepMerge([s]) == s
  {
    var empty: Tree<A> := Node(PlainObject, map[]);
    DeepMergeNext([], s);
    assert [] + [s] == [s];
    forall k ensures Get(Merge(empty, s), k) == Get(s, k) {
      MergeGet(empty, s, k);
      if k in s.props {
        MergeClones(Undef, s.props[k]);
      }
    }
    MergeNormal(empty, s);
    SameGets(Merge(empty, s), s);
  }

  /** Merging `xs` and then `ys` is merging `deepMerge(xs)` followed by `ys`. */
  lemma {:induction false} DeepMergeInStages<A>(xs: seq<Tree<A>>, ys: seq<Tree<A>>)
    ensures DeepMerge(xs + ys) == DeepMerge([DeepMerge(xs)] + ys)
    decreases |ys|
  {
    DeepMergeNormal(xs);
    if ys == [] {
      assert xs + ys == xs && [DeepMerge(xs)] + ys == [DeepMerge(xs)];
      DeepMergeOne(DeepMerge(xs));
    } else {
      var before, last := ys[..|ys| - 1], ys[|ys| - 1];
      DeepMergeInStages(xs, before);
      assert xs + ys == (xs + before) + [last];
      assert [DeepMerge(xs)] + ys == ([DeepMerge(xs)] + before) + [last];
      DeepMergeNext(xs + before, last);
      DeepMergeNext([DeepMerge(xs)] + before, last);
    }
  }

  /** Merging a value with itself changes nothing, whatever it holds. */
  lemma DeepMergeIdempotent<A>(s: Tree<A>)
    ensures DeepMerge([s, s]) == DeepMerge([s])
  {
    var once := DeepMerge([s]);
    DeepMergeNormal([s]);
    DeepMergeNext([s], s);
    assert [s] + [s] == [s, s];
    if s.Node? {
      var p, empty: Tree<A> := AsProperties(s), Node(PlainObject, map[]);
      DeepMergeNext([], s);
      assert [] + [s] == [s];
      UndefinedIsSkipped(empty, p);
      UndefinedIsSkipped(once, p);
      DeepMergeNext([], Norm(p));
      assert [] + [Norm(p)] == [Norm(p)];
      DeepMergeOne(Norm(p));
      MergeIdempotent(Norm(p));
    }
  }

  // ------------------------------------------------------------ the last leaf wins

  ghost function At<A>(t: Tree<A>, path: seq<Key>): Tree<A>
    decreases |path|
  {
    if path == [] then t else At(Get(t, path[0]), path[1..])
  }

  /** Merging `s` onto `t` leaves what `t` has at the path: `s` is absent from some point on, and until then
      both are containers of one kind. */
  ghost predicate Spares<A>(t: Tree<A>, s: Tree<A>, path: seq<Key>)
    decreases |path|
  {
    || s.Undef?
    || (&& path != [] && s.Node? && t.Node? && t.kind == s.kind
        && Spares(Get(t, path[0]), Get(s, path[0]), path[1..]))
  }

  lemma {:induction false} UndefAt<A>(path: seq<Key>)
    ensures At<A>(Undef, path) == Undef
  {
    if path != [] {
      UndefAt<A>(path[1..]);
    }
  }

  /** Exactly when a leaf is found at a path of a merge, and which one. */
  lemma {:induction false} LeafAfterMerge<A>(t: Tree<A>, s: Tree<A>, path: seq<Key>, v: A)
    ensures At(Merge(t, s), path) == Leaf(v) <==>
              At(s, path) == Leaf(v) || (At(t, path) == Leaf(v) && Spares(t, s, path))
    decreases |path|
  {
    if path != [] {
      UndefAt<A>(path[1..]);
      if s.Node? {
        MergeGet(t, s, path[0]);
        LeafAfterMerge(Get(Base(t, s.kind), path[0]), Get(s, path[0]), path[1..], v);
      }
    }
  }

  /** Containers of the same kinds lead along the path. */
  ghost predicate SameWay<A>(t: Tree<A>, u: Tree<A>, path: seq<Key>)
    decreases |path|
  {
    path != [] ==> t.Node? && u.Node? && t.kind == u.kind && SameWay(Get(t, path[0]), Get(u, path[0]), path[1..])
  }

  lemma {:induction false} SparesAlike<A>(t: Tree<A>, u: Tree<A>, s: Tree<A>, path: seq<Key>)
    requires SameWay(t, u, path)
    ensures Spares(t, s, path) <==> Spares(u, s, path)
    decreases |path|
  {
    if path != [] {
      SparesAlike(Get(t, path[0]), Get(u, path[0]), Get(s, path[0]), path[1..]);
    }
  }

  /** The way to a leaf of a merge is the way to it in the value it comes from. */
  lemma {:induction false} WayAfterMerge<A>(t: Tree<A>, s: Tree<A>, path: seq<Key>, v: A)
    ensures At(s, path) == Leaf(v) ==> SameWay(Merge(t, s), s, path)
    ensures At(t, path) == Leaf(v) && Spares(t, s, path) ==> SameWay(Merge(t, s), t, path)
    decreases |path|
  {
    if path != [] {
      UndefAt<A>(path[1..]);
      if s.Node? {
        MergeGet(t, s, path[0]);
        WayAfterMerge(Get(Base(t, s.kind), path[0]), Get(s, path[0]), path[1..], v);
      } else {
        WayToItself(t, path, v);
      }
    }
  }

  lemma {:induction false} WayToItself<A>(t: Tree<A>, path: seq<Key>, v: A)
    ensures At(t, path) == Leaf(v) ==> SameWay(t, t, path)
    decreases |path|
  {
    if path != [] {
      UndefAt<A>(path[1..]);
      WayToItself(Get(t, path[0]), path[1..], v);
    }
  }

  lemma {:induction false} WayOnward<A>(t: Tree<A>, u: Tree<A>, w: Tree<A>, path: seq<Key>)
    requires SameWay(t, u, path) && SameWay(u, w, path)
    ensures SameWay(t, w, path)
    decreases |path|
  {
    if path != [] {
      WayOnward(Get(t, path[0]), Get(u, path[0]), Get(w, path[0]), path[1..]);
    }
  }

  /** Source `j` has the leaf at the path, and every later source spares it there. */
  ghost predicate LastSetter<A>(sources: seq<Tree<A>>, path: seq<Key>, v: A, j: int) {
    && 0 <= j < |sources|
    && At(AsProperties(sources[j]), path) == Leaf(v)
    && forall i :: j < i < |sources| ==> Spares(AsProperties(sources[j]), AsProperties(sources[i]), path)
  }

  lemma SetterBefore<A>(before: seq<Tree<A>>, last: Tree<A>, path: seq<Key>, v: A, j: int)
    requires 0 <= j < |before|
    ensures LastSetter(before + [last], path, v, j) <==>
              LastSetter(before, path, v, j) && Spares(AsProperties(before[j]), AsProperties(last), path)
  {
    var sources := before + [last];
    assert forall i :: 0 <= i < |before| ==> sources[i] == before[i];
    if LastSetter(sources, path, v, j) {
      assert Spares(AsProperties(sources[j]), AsProperties(sources[|before|]), path);
      forall i | j < i < |before| ensures Spares(AsProperties(before[j]), AsProperties(before[i]), path) {
        assert Spares(AsProperties(sources[j]), AsProperties(sources[i]), path);
      }
    }
  }

  /** The merge has the leaf of the source that decides it, and leads to it in the same way. */
  lemma {:induction false} SetterDecides<A>(sources: seq<Tree<A>>, path: seq<Key>, v: A, j: int)
    requires LastSetter(sources, path, v, j)
    ensures At(DeepMerge(sources), path) == Leaf(v)
    ensures SameWay(DeepMerge(sources), AsProperties(sources[j]), path)
    decreases |sources|
  {
    var before, last := sources[..|sources| - 1], sources[|sources| - 1];
    assert sources == before + [last];
    LeafAfterMerge(DeepMerge(before), AsProperties(last), path, v);
    WayAfterMerge(DeepMerge(before), AsProperties(last), path, v);
    if j < |before| {
      SetterBefore(before, last, path, v, j);
      SetterDecides(before, path, v, j);
      SparesAlike(DeepMerge(before), AsProperties(before[j]), AsProperties(last), path);
      WayOnward(DeepMerge(sources), DeepMerge(before), AsProperties(before[j]), path);
    }
  }

  lemma NothingIn<A>(path: seq<Key>, v: A)
    ensures At(Node(PlainObject, map[]), path) != Leaf(v)
  {
    if path != [] {
      UndefAt<A>(path[1..]);
    }
  }

  /** The last source to set a leaf at a path decides that leaf of the result, and every leaf of the result
      comes from such a source. */
  lemma {:induction false} LastLeafWins<A>(sources: seq<Tree<A>>, path: seq<Key>, v: A)
    ensures At(DeepMerge(sources), path) == Leaf(v) <==> exists j :: LastSetter(sources, path, v, j)
  {
    if j :| LastSetter(sources, path, v, j) {
      SetterDecides(sources, path, v, j);
    } else if sources == [] {
      NothingIn<A>(path, v);
    } else {
      var before, last := sources[..|sources| - 1], sources[|sources| - 1];
      assert sources == before + [last];
      LastLeafWins(before, path, v);
      LeafAfterMerge(DeepMerge(before), AsProperties(last), path, v);
      assert !LastSetter(sources, path, v, |before|);
      if j :| LastSetter(before, path, v, j) {
        SetterDecides(before, path, v, j);
        SetterBefore(before, last, path, v, j);
        SparesAlike(DeepMerge(before), AsProperties(before[j]), AsProperties(last), path);
      }
    }
  }

  // ------------------------------------------------------------------ associativity

  /** Everything that `a` holds would be replaced by what `c` holds. */
  ghost predicate Covers<A>(c: Tree<A>, a: Tree<A>)
    requires c.Node? && a.Node? && a.kind == c.kind
    decreases c
  {
    && (forall k :: k in a.props ==> k in c.props)
    && (forall k :: k in a.props && k in c.props ==>
          c.props[k].Node? && !Base(a.props[k], c.props[k].kind).Undef? ==> Covers(c.props[k], a.props[k]))
  }

  lemma {:induction false} CoversIffReplaced<A>(c: Tree<A>, a: Tree<A>)
    requires Normal(a) && Normal(c) && c.Node? && a.Node? && a.kind == c.kind
    ensures Covers(c, a) <==> Merge(a, c) == c
    decreases c
  {
    MergeNormal(a, c);
    forall k | k in a.props && k in c.props
      ensures Merge(a.props[k], c.props[k]) == c.props[k] <==>
                (c.props[k].Node? && !Base(a.props[k], c.props[k].kind).Undef? ==> Covers(c.props[k], a.props[k])) {
      if c.props[k].Node? && !Base(a.props[k], c.props[k].kind).Undef? {
        CoversIffReplaced(c.props[k], a.props[k]);
      } else {
        MergeClones(a.props[k], c.props[k]);
      }
    }
    if Covers(c, a) {
      forall k ensures Get(Merge(a, c), k) == Get(c, k) {
        MergeGet(a, c, k);
        if k in c.props && k !in a.props {
          MergeClones(Undef, c.props[k]);
        }
      }
      SameGets(Merge(a, c), c);
    } else {
      var k :| k in a.props && !(k in c.props &&
        (c.props[k].Node? && !Base(a.props[k], c.props[k].kind).Undef? ==> Covers(c.props[k], a.props[k])));
      MergeGet(a, c, k);
    }
  }

  /** The condition for grouping: wherever `a` and `c` are containers of one kind and `b` sits between them
      as something else, `c` must cover `a`. */
  ghost predicate Groups<A>(a: Tree<A>, b: Tree<A>, c: Tree<A>)
    decreases c
  {
    c.Node? && !Base(a, c.kind).Undef? && !b.Undef? ==>
      if Base(b, c.kind).Undef? then Covers(c, a)
      else forall k :: k in c.props ==> Groups(Get(a, k), Get(b, k), c.props[k])
  }

  /** Merging three values in either grouping agrees exactly under that condition. */
  lemma {:induction false} MergeAssociativeIffGroups<A>(a: Tree<A>, b: Tree<A>, c: Tree<A>)
    requires Normal(a) && Normal(b) && Normal(c)
    ensures Merge(Merge(a, b), c) == Merge(a, Merge(b, c)) <==> Groups(a, b, c)
    decreases c
  {
    if c.Node? && !b.Undef? {
      if Base(b, c.kind).Undef? {
        MergeClones(b, c);
        NotThatKind(a, b, c.kind);
        MergeClones(Merge(a, b), c);
        if Base(a, c.kind).Undef? {
          MergeClones(a, c);
        } else {
          CoversIffReplaced(c, a);
        }
      } else {
        if Base(a, c.kind).Undef? {
          MergeClones(a, b);
          MergeNormal(b, c);
          MergeClones(a, Merge(b, c));
        } else {
          KeyByKey(a, b, c);
          forall k | k in c.props
            ensures GroupsAt(a, b, c, k) <==> Groups(Get(a, k), Get(b, k), c.props[k]) {
            NormalGet(a, k);
            NormalGet(b, k);
            MergeAssociativeIffGroups(Get(a, k), Get(b, k), c.props[k]);
          }
        }
      }
    } else if b.Undef? && !c.Undef? {
      MergeClones(b, c);
    }
  }

  lemma NotThatKind<A>(a: Tree<A>, b: Tree<A>, kind: Kind)
    requires !b.Undef? && Base(b, kind).Undef?
    ensures Base(Merge(a, b), kind).Undef?
  {
  }

  lemma GroupingGets<A>(a: Tree<A>, b: Tree<A>, c: Tree<A>, k: Key)
    requires c.Node? && !Base(b, c.kind).Undef? && !Base(a, c.kind).Undef?
    ensures Get(Merge(Merge(a, b), c), k) == Merge(Merge(Get(a, k), Get(b, k)), Get(c, k))
    ensures Get(Merge(a, Merge(b, c)), k) == Merge(Get(a, k), Merge(Get(b, k), Get(c, k)))
  {
    MergeGet(Merge(a, b), c, k);
    MergeGet(a, b, k);
    MergeGet(b, c, k);
    MergeGet(a, Merge(b, c), k);
  }

  ghost predicate GroupsAt<A>(a: Tree<A>, b: Tree<A>, c: Tree<A>, k: Key) {
    Merge(Merge(Get(a, k), Get(b, k)), Get(c, k)) == Merge(Get(a, k), Merge(Get(b, k), Get(c, k)))
  }

  /** With containers of one kind throughout, the two groupings agree exactly when they agree under each key
      of the last one. */
  lemma KeyByKey<A>(a: Tree<A>, b: Tree<A>, c: Tree<A>)
    requires Normal(a) && Normal(b) && Normal(c) && c.Node? && !Base(b, c.kind).Undef? && !Base(a, c.kind).Undef?
    ensures Merge(Merge(a, b), c) == Merge(a, Merge(b, c)) <==> forall k :: k in c.props ==> GroupsAt(a, b, c, k)
  {
    var l, r := Merge(Merge(a, b), c), Merge(a, Merge(b, c));
    if l == r {
      forall k | k in c.props ensures GroupsAt(a, b, c, k) {
        GroupingGets(a, b, c, k);
      }
    }
    if forall k :: k in c.props ==> GroupsAt(a, b, c, k) {
      forall k ensures Get(l, k) == Get(r, k) {
        GroupingGets(a, b, c, k);
      }
      MergeNormal(a, b);
      MergeNormal(Merge(a, b), c);
      MergeNormal(b, c);
      MergeNormal(a, Merge(b, c));
      SameGets(l, r);
    }
  }

  /** A scalar between two containers: `{x: {p: 1}}`, `{x: 0}`, `{x: {q: 2}}` merge differently when the
      last two are merged first. */
  lemma ScalarBetweenContainers(a: Tree<int>, b: Tree<int>, c: Tree<int>)
    requires a == Node(PlainObject, map[Name("x") := Node(PlainObject, map[Name("p") := Leaf(1)])])
    requires b == Node(PlainObject, map[Name("x") := Leaf(0)])
    requires c == Node(PlainObject, map[Name("x") := Node(PlainObject, map[Name("q") := Leaf(2)])])
    ensures Merge(Merge(a, b), c) != Merge(a, Merge(b, c))
  {
    var ax, cx := Get(a, Name("x")), Get(c, Name("x"));
    assert !Covers(cx, ax) by {
      assert Name("p") in ax.props && Name("p") !in cx.props;
    }
    assert !Groups(ax, Get(b, Name("x")), c.props[Name("x")]);
    MergeAssociativeIffGroups(a, b, c);
  }

  /** Two values hold containers of the same kind, or leaves, at each path they share. */
  ghost predicate SameKinds<A>(a: Tree<A>, b: Tree<A>)
    decreases b
  {
    || a.Undef? || b.Undef? || (a.Leaf? && b.Leaf?)
    || (a.Node? && b.Node? && a.kind == b.kind && forall k :: k in b.props ==> SameKinds(Get(a, k), b.props[k]))
  }

  lemma {:induction false} SameKindsGroup<A>(a: Tree<A>, b: Tree<A>, c: Tree<A>)
    requires SameKinds(a, c) && SameKinds(b, c)
    ensures Groups(a, b, c)
    decreases c
  {
    if c.Node? && !Base(a, c.kind).Undef? && !b.Undef? {
      forall k | k in c.props ensures Groups(Get(a, k), Get(b, k), c.props[k]) {
        SameKindsGroup(Get(a, k), Get(b, k), c.props[k]);
      }
    }
  }

  /** `deepMerge` of three objects equals merging the last two first exactly under the grouping condition,
      and always when the objects have the same kinds at the paths they share. */
  lemma DeepMergeGroupsIff<A>(a: Tree<A>, b: Tree<A>, c: Tree<A>)
    requires Normal(a) && Normal(b) && Normal(c)
    requires a.Node? && b.Node? && c.Node? && a.kind == b.kind == c.kind == PlainObject
    ensures DeepMerge([a, b, c]) == DeepMerge([a, DeepMerge([b, c])]) <==> Groups(a, b, c)
    ensures SameKinds(a, c) && SameKinds(b, c) ==> DeepMerge([a, b, c]) == DeepMerge([a, DeepMerge([b, c])])
  {
    DeepMergePair(a, b);
    DeepMergePair(b, c);
    MergeNormal(b, c);
    DeepMergePair(a, Merge(b, c));
    DeepMergeNext([a, b], c);
    assert [a, b] + [c] == [a, b, c];
    MergeAssociativeIffGroups(a, b, c);
    if SameKinds(a, c) && SameKinds(b, c) {
      SameKindsGroup(a, b, c);
    }
  }

  lemma DeepMergePair<A>(a: Tree<A>, b: Tree<A>)
    requires Normal(a) && a.Node? && b.Node? && a.kind == b.kind == PlainObject
    ensures DeepMerge([a, b]) == Merge(a, b)
  {
    DeepMergeOne(a);
    DeepMergeNext([a], b);
    assert [a] + [b] == [a, b];
  }

  // ------------------------------------------------------------- one key at a time

  ghost function Part<A>(kind: Kind, props: map<Key, Tree<A>>, done: set<Key>): Tree<A> {
    Node(kind, map k | k in props && k in done :: props[k])
  }

  /** Merging the keys one by one, in any order, is merging the whole. */
  lemma MergeOneMore<A>(t: Tree<A>, kind: Kind, props: map<Key, Tree<A>>, done: set<Key>, k: Key)
    requires t.Node? && t.kind == kind && k in props && k !in done
    ensures var m := Merge(t, Part(kind, props, done));
            var m' := Merge(t, Part(kind, props, done + {k}));
            && m.Node? && m.kind == kind
            && m' == if props[k].Undef? then m else Node(kind, m.props[k := Merge(Get(m, k), props[k])])
  {
    var m, m' := Merge(t, Part(kind, props, done)), Merge(t, Part(kind, props, done + {k}));
    forall x ensures Get(m', x) == if x == k then Merge(Get(m, k), props[k]) else Get(m, x) {
      MergeGet(t, Part(kind, props, done), x);
      MergeGet(t, Part(kind, props, done + {k}), x);
    }
    var all := if props[k].Undef? then m.props else m.props[k := Merge(Get(m, k), props[k])];
    forall x ensures x in m'.props <==> x in all {}
    forall x | x in m'.props ensures m'.props[x] == all[x] {
      assert Get(m', x) == m'.props[x];
    }
    assert m'.props == all;
  }

  lemma MergeNoKeys<A>(t: Tree<A>, kind: Kind, props: map<Key, Tree<A>>)
    requires t.Node? && t.kind == kind
    ensures Merge(t, Part(kind, props, {})) == t
  {
  }

  lemma MergeAllKeys<A>(kind: Kind, props: map<Key, Tree<A>>)
    ensures Part(kind, props, props.Keys) == Node(kind, props)
  {
  }

  /** A container of another sort counts as an empty one. */
  lemma MergeIntoEmpty<A>(t: Tree<A>, s: Tree<A>)
    requires s.Node? && Base(t, s.kind).Undef?
    ensures Merge(t, s) == Merge(Node(s.kind, map[]), s)
  {
    assert Merge(t, s).props == Merge(Node(s.kind, map[]), s).props;
  }
}
