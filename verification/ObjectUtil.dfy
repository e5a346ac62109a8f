/** `ObjectUtil.deepMerge` on the heap: it writes into containers it has created, never into a source, and
    its result is a tree of fresh containers. */
module ObjectUtil {
  import opened DeepMergeLaws

  /** Plain objects and arrays are merged; a class instance or a function is taken as it is. */
  datatype Sort = Container(kind: Kind) | Instance | Function

  datatype Value = Undefined | Primitive(id: int) | Object(o: JsObject)

  predicate IsContainer(v: Value) {
    v.Object? && v.o.sort.Container?
  }

  class JsObject {
    const sort: Sort
    var props: map<Key, Value>
    /** The containers of the tree rooted here, those below each key, and the value the tree holds. */
    ghost var Repr: set<JsObject>
    ghost var feet: map<Key, set<JsObject>>
    ghost var view: Tree<Value>

    constructor (kind: Kind)
      ensures Valid() && fresh(this) && sort == Container(kind) && Repr == {this} && view == Node(kind, map[])
    {
      sort, props := Container(kind), map[];
      Repr, feet, view := {this}, map[], Node(kind, map[]);
    }

    /** This container is the root of a tree of containers that share nothing, except possibly under the
        keys in `hole`. */
    ghost predicate Valid(hole: set<Key> := {})
      reads this, Repr
      ensures Valid(hole) ==> this in Repr && sort.Container? && view.Node? && view.kind == sort.kind
      decreases Repr
    {
      && this in Repr && sort.Container?
      && view.Node? && view.kind == sort.kind && view.props.Keys == props.Keys && feet.Keys == props.Keys
      && (forall k :: k in props ==> feet[k] <= Repr - {this})
      && Disjoint(feet, hole)
      && (forall k :: k in props && k !in hole ==>
            if IsContainer(props[k])
            then props[k].o in feet[k] && props[k].o.Repr == feet[k]
                 && props[k].o.view == view.props[k] && props[k].o.Valid()
            else !props[k].Undefined? && view.props[k] == Leaf(props[k]) && feet[k] == {})
    }
  }

  ghost predicate Disjoint(feet: map<Key, set<JsObject>>, hole: set<Key>) {
    forall j, k :: j in feet && k in feet && j != k && j !in hole && k !in hole ==> feet[j] !! feet[k]
  }

  lemma FillHole(feet: map<Key, set<JsObject>>, k: Key, foot: set<JsObject>)
    requires Disjoint(feet, {k}) && forall j :: j in feet && j != k ==> feet[j] !! foot
    ensures Disjoint(feet[k := foot], {})
  {
  }

  ghost function Footprint(v: Value): set<JsObject>
    reads if IsContainer(v) then {v.o} else {}
  {
    if IsContainer(v) then v.o.Repr else {}
  }

  /** `v`, which belongs to a result under construction, holds `t`. */
  ghost predicate Built(v: Value, t: Tree<Value>)
    reads if IsContainer(v) then {v.o} + v.o.Repr else {}
  {
    match v
    case Undefined => t == Undef
    case Primitive(_) => t == Leaf(v)
    case Object(o) => if IsContainer(v) then o.Valid() && o.view == t else t == Leaf(v)
  }

  /** `v`, which belongs to a source, holds `t`; its containers are among `sources`. They may be shared. */
  ghost predicate Holds(v: Value, t: Tree<Value>, sources: set<JsObject>)
    reads sources
    decreases t, 1
  {
    match t
    case Undef => v.Undefined?
    case Leaf(value) => v == value && !v.Undefined? && !IsContainer(v)
    case Node(kind, props) => IsContainer(v) && v.o.sort.kind == kind && HoldsProperties(v.o, t, sources)
  }

  ghost predicate HoldsProperties(o: JsObject, t: Tree<Value>, sources: set<JsObject>)
    requires t.Node?
    reads sources
    decreases t, 0
  {
    o in sources && o.props.Keys == t.props.Keys && forall k :: k in t.props ==> Holds(o.props[k], t.props[k], sources)
  }

  /** Following the path from `o`, through containers only, ends at `c`. */
  ghost predicate LeadsTo(o: JsObject, path: seq<Key>, c: JsObject)
    requires o.Valid()
    reads o, o.Repr
    decreases |path|
  {
    if path == [] then o == c
    else path[0] in o.props && IsContainer(o.props[path[0]]) && LeadsTo(o.props[path[0]].o, path[1..], c)
  }

  lemma {:induction false} ReachedIsOwned(o: JsObject, path: seq<Key>, c: JsObject)
    requires o.Valid() && LeadsTo(o, path, c)
    ensures c in o.Repr
    ensures path != [] ==> c in o.feet[path[0]] && c != o
    decreases |path|
  {
    if path != [] {
      ReachedIsOwned(o.props[path[0]].o, path[1..], c);
    }
  }

  /** In a result, every container reachable through containers is its own, and reachable by one path only. */
  lemma {:induction false} ReachedByOnePath(o: JsObject, p: seq<Key>, q: seq<Key>, c: JsObject)
    requires o.Valid() && LeadsTo(o, p, c) && LeadsTo(o, q, c)
    ensures p == q && c in o.Repr
    decreases |p|
  {
    ReachedIsOwned(o, p, c);
    ReachedIsOwned(o, q, c);
    if p != [] && q != [] {
      assert p[0] == q[0];
      ReachedByOnePath(o.props[p[0]].o, p[1..], q[1..], c);
      assert p == [p[0]] + p[1..] && q == [q[0]] + q[1..];
    }
  }

  /** Stores a value under a key whose previous contents no longer count. */
  method Store(target: JsObject, k: Key, v: Value, ghost t: Tree<Value>)
    requires target.Valid({k})
    requires Built(v, t) && !v.Undefined?
    requires target !in Footprint(v)
    requires forall j :: j in target.feet && j != k ==> target.feet[j] !! Footprint(v)
    modifies target
    ensures target.Valid()
    ensures target.view == Node(old(target.view.kind), old(target.view.props)[k := t])
    ensures target.Repr == old(target.Repr) + Footprint(v)
  {
    ghost var foot := Footprint(v);
    FillHole(target.feet, k, foot);
    target.props := target.props[k := v];
    target.view := Node(target.view.kind, target.view.props[k := t]);
    target.feet := target.feet[k := foot];
    target.Repr := target.Repr + foot;
    forall j | j in target.props && IsContainer(target.props[j])
      ensures Subtree(target.props[j].o, target.feet[j], target.view.props[j])
    {
      StillValid(target.props[j].o);
    }
  }

  /** `o` is the root of a tree with these containers and this value. */
  ghost predicate Subtree(o: JsObject, foot: set<JsObject>, t: Tree<Value>)
    reads o, o.Repr
  {
    o.Valid() && o.Repr == foot && o.view == t
  }

  twostate lemma StillValid(o: JsObject)
    requires old(o.Valid()) && unchanged(o) && unchanged(o.Repr)
    ensures o.Valid() && o.Repr == old(o.Repr) && o.view == old(o.view)
  {
  }

  /** Merges the own properties of `source` into `target`, in any order of the keys. */
  method MergeInto(target: JsObject, source: JsObject, ghost s: Tree<Value>, ghost sources: set<JsObject>)
    requires target.Valid() && s.Node? && HoldsProperties(source, s, sources) && target.Repr !! sources
    modifies target.Repr
    ensures target.Valid() && fresh(target.Repr - old(target.Repr))
    ensures target.view == Merge(old(target.view), Node(target.sort.kind, s.props))
    decreases s, 1
  {
    ghost var t0, kind, done, own := target.view, target.sort.kind, {}, target.Repr;
    MergeNoKeys(t0, kind, s.props);
    var keys := source.props.Keys;
    while keys != {}
      invariant keys !! done && forall k :: k in s.props <==> k in keys || k in done
      invariant target.Valid() && target.Repr !! sources
      invariant fresh(target.Repr - own)
      invariant target.view == Merge(t0, Part(kind, s.props, done))
      decreases keys
    {
      var key :| key in keys;
      MergeOneMore(t0, kind, s.props, done, key);
      keys, done := keys - {key}, done + {key};
      if !source.props[key].Undefined? {
        MergeKey(target, key, source.props[key], s.props[key], sources);
      }
    }
    MergeAllKeys(kind, s.props);
    assert done == s.props.Keys;
  }

  /** `target[key] = mergeValue(target[key], sourceValue)`. */
  method MergeKey(target: JsObject, key: Key, sourceValue: Value, ghost s: Tree<Value>, ghost sources: set<JsObject>)
    requires target.Valid() && target.Repr !! sources
    requires Holds(sourceValue, s, sources) && !s.Undef?
    modifies target.Repr
    ensures target.Valid() && fresh(target.Repr - old(target.Repr))
    ensures target.view
         == Node(old(target.view.kind), old(target.view.props)[key := Merge(Get(old(target.view), key), s)])
    decreases s, 3
  {
    var targetValue := if key in target.props then target.props[key] else Undefined;
    ghost var t := Get(target.view, key);
    var merged := MergeValue(targetValue, sourceValue, t, s, sources);
    forall j | j in target.props && j != key && IsContainer(target.props[j])
      ensures Subtree(target.props[j].o, target.feet[j], target.view.props[j])
    {
      assert key in target.feet ==> target.feet[j] !! target.feet[key];
      StillValid(target.props[j].o);
    }
    Store(target, key, merged, Merge(t, s));
  }

  /** The merged value for a single key: containers are entered, anything else is taken from the source. */
  method MergeValue(targetValue: Value, sourceValue: Value, ghost t: Tree<Value>, ghost s: Tree<Value>,
      ghost sources: set<JsObject>)
    returns (merged: Value)
    requires Built(targetValue, t) && Footprint(targetValue) !! sources
    requires Holds(sourceValue, s, sources) && !s.Undef?
    modifies Footprint(targetValue)
    ensures Built(merged, Merge(t, s)) && !merged.Undefined?
    ensures fresh(Footprint(merged) - old(Footprint(targetValue)))
    decreases s, 2
  {
    if IsContainer(sourceValue) {
      var kind := sourceValue.o.sort.kind;
      if IsContainer(targetValue) && targetValue.o.sort.kind == kind {
        merged := targetValue;
      } else {
        var empty := new JsObject(kind);
        merged := Object(empty);
        MergeIntoEmpty(t, s);
      }
      MergeInto(merged.o, sourceValue.o, s, sources);
    } else {
      merged := sourceValue;
    }
  }

  /** A source of `deepMerge` whose own keys are read: any object, a class instance included, but no function. */
  predicate IsRead(v: Value) { v.Object? && !v.o.sort.Function? }

  /** A source of `deepMerge`: what is not read holds nothing. */
  ghost predicate IsSource(v: Value, s: Tree<Value>, sources: set<JsObject>)
    reads sources
  {
    if IsRead(v) then s.Node? && HoldsProperties(v.o, s, sources) else !s.Node?
  }

  /** Merges the sources left to right into a new object. No source is modified, and every plain object and
      array reachable in the result through containers is fresh and reachable in one way only. */
  method DeepMerge(values: seq<Value>, ghost trees: seq<Tree<Value>>, ghost sources: set<JsObject>)
    returns (target: JsObject)
    requires |trees| == |values| && forall i :: 0 <= i < |values| ==> IsSource(values[i], trees[i], sources)
    ensures target.Valid() && fresh(target.Repr)
    ensures target.view == DeepMergeLaws.DeepMerge(trees)
  {
    target := new JsObject(PlainObject);
    var i := 0;
    while i < |values|
      invariant 0 <= i <= |values|
      invariant target.Valid() && fresh(target.Repr) && target.sort == Container(PlainObject)
      invariant forall j :: 0 <= j < |values| ==> IsSource(values[j], trees[j], sources)
      invariant target.view == DeepMergeLaws.DeepMerge(trees[..i])
    {
      assert trees[..i + 1][..i] == trees[..i];
      if IsRead(values[i]) {
        MergeInto(target, values[i].o, trees[i], sources);
      }
      i := i + 1;
    }
    assert trees[..i] == trees;
  }

  // -------------------------------------------------------------- what the result shares

  /** Following the path from `o`, through containers in `scope` only, finds `v`. */
  ghost predicate Finds(o: JsObject, path: seq<Key>, v: Value, scope: set<JsObject>)
    reads scope
    decreases |path|
  {
    && o in scope && path != [] && path[0] in o.props
    && if |path| == 1 then o.props[path[0]] == v
       else IsContainer(o.props[path[0]]) && Finds(o.props[path[0]].o, path[1..], v, scope)
  }

  /** A primitive, or an object that is never entered. */
  predicate IsLeaf(v: Value) { !v.Undefined? && !IsContainer(v) }

  lemma {:induction false} ResultFindsLeaf(o: JsObject, path: seq<Key>, v: Value, scope: set<JsObject>)
    requires o.Valid() && o.Repr <= scope && IsLeaf(v)
    ensures Finds(o, path, v, scope) <==> At(o.view, path) == Leaf(v)
    decreases |path|
  {
    if path != [] && path[0] in o.props {
      var next := o.props[path[0]];
      if IsContainer(next) {
        ResultFindsLeaf(next.o, path[1..], v, scope);
      } else {
        LeafEndsPath(next, path[1..], v);
      }
    } else if path != [] {
      UndefAt<Value>(path[1..]);
    }
  }

  lemma LeafEndsPath(u: Value, path: seq<Key>, v: Value)
    ensures At(Leaf(u), path) == Leaf(v) <==> path == [] && u == v
  {
    if path != [] {
      UndefAt<Value>(path[1..]);
    }
  }

  lemma {:induction false} SourceFindsLeaf(o: JsObject, t: Tree<Value>, path: seq<Key>, v: Value, scope: set<JsObject>)
    requires t.Node? && HoldsProperties(o, t, scope) && IsLeaf(v)
    ensures Finds(o, path, v, scope) <==> At(t, path) == Leaf(v)
    decreases |path|
  {
    if path != [] && path[0] in o.props {
      var next := t.props[path[0]];
      match next {
        case Undef => UndefAt<Value>(path[1..]);
        case Leaf(u) => LeafEndsPath(u, path[1..], v);
        case Node(_, _) => SourceFindsLeaf(o.props[path[0]].o, next, path[1..], v, scope);
      }
    } else if path != [] {
      UndefAt<Value>(path[1..]);
    }
  }

  /** Source `j` has the leaf at the path, and every later source spares it there. */
  ghost predicate Gives(values: seq<Value>, trees: seq<Tree<Value>>, sources: set<JsObject>, path: seq<Key>,
      v: Value, j: int)
    requires |trees| == |values|
    reads sources
  {
    && 0 <= j < |values| && IsRead(values[j])
    && Finds(values[j].o, path, v, sources)
    && forall i :: j < i < |values| ==> Spares(AsProperties(trees[j]), AsProperties(trees[i]), path)
  }

  lemma GivesIsLastSetter(
      values: seq<Value>, trees: seq<Tree<Value>>, sources: set<JsObject>, path: seq<Key>, v: Value, j: int)
    requires |trees| == |values| && 0 <= j < |values| && IsSource(values[j], trees[j], sources) && IsLeaf(v)
    ensures Gives(values, trees, sources, path, v, j) <==> LastSetter(trees, path, v, j)
  {
    if IsRead(values[j]) {
      SourceFindsLeaf(values[j].o, trees[j], path, v, sources);
      AtProperties(trees[j], path, v);
    } else {
      UndefAt<Value>(path);
    }
  }

  lemma AtProperties(t: Tree<Value>, path: seq<Key>, v: Value)
    requires t.Node?
    ensures At(AsProperties(t), path) == Leaf(v) <==> At(t, path) == Leaf(v)
  {
  }

  /** The result holds a primitive, an instance or a function at a path, the very same one, exactly when the last
      source to set a leaf there holds it. */
  lemma ResultHoldsIffGiven(target: JsObject, values: seq<Value>, trees: seq<Tree<Value>>, sources: set<JsObject>,
      path: seq<Key>, v: Value)
    requires |trees| == |values| && forall i :: 0 <= i < |values| ==> IsSource(values[i], trees[i], sources)
    requires target.Valid() && target.view == DeepMergeLaws.DeepMerge(trees) && IsLeaf(v)
    ensures Finds(target, path, v, target.Repr) <==> exists j :: Gives(values, trees, sources, path, v, j)
  {
    ResultFindsLeaf(target, path, v, target.Repr);
    LastLeafWins(trees, path, v);
    forall j | 0 <= j < |values|
      ensures Gives(values, trees, sources, path, v, j) <==> LastSetter(trees, path, v, j)
    {
      GivesIsLastSetter(values, trees, sources, path, v, j);
    }
  }

  /** So an object that was there before is shared by the result exactly when it is one, never entered, that a source
      gives it at some path; the containers of the result are new. */
  lemma SharesIffGiven(target: JsObject, values: seq<Value>, trees: seq<Tree<Value>>, sources: set<JsObject>,
      o: JsObject)
    requires |trees| == |values| && forall i :: 0 <= i < |values| ==> IsSource(values[i], trees[i], sources)
    requires target.Valid() && target.view == DeepMergeLaws.DeepMerge(trees) && !o.sort.Container?
    ensures (exists path :: Finds(target, path, Object(o), target.Repr)) <==>
              exists path, j :: Gives(values, trees, sources, path, Object(o), j)
  {
    if path :| Finds(target, path, Object(o), target.Repr) {
      ResultHoldsIffGiven(target, values, trees, sources, path, Object(o));
    }
    if path, j :| Gives(values, trees, sources, path, Object(o), j) {
      ResultHoldsIffGiven(target, values, trees, sources, path, Object(o));
    }
  }

  /** A date in one source is the same date in the result. */
  lemma DateIsShared(target: JsObject, source: JsObject, date: JsObject)
    requires source.sort == Container(PlainObject) && source.props == map[Name("since") := Object(date)]
    requires date.sort.Instance?
    requires target.Valid() && target.view == DeepMergeLaws.DeepMerge([Dated(date)])
    ensures IsSource(Object(source), Dated(date), {source})
    ensures Name("since") in target.props && target.props[Name("since")] == Object(date)
  {
    var path, v := [Name("since")], Object(date);
    assert Holds(source.props[path[0]], Leaf(v), {source});
    assert IsSource([Object(source)][0], [Dated(date)][0], {source});
    assert Finds(source, path, v, {source});
    assert Gives([Object(source)], [Dated(date)], {source}, path, v, 0);
    ResultHoldsIffGiven(target, [Object(source)], [Dated(date)], {source}, path, v);
  }

  ghost function Dated(date: JsObject): Tree<Value> {
    Node(PlainObject, map[Name("since") := Leaf(Object(date))])
  }
}
