/** The module graph of an application and the walk that the kernel performs over it.

    A `Ref` is the identity of a module object; two objects may carry the same keyname, and
    every walk recognises a visited module by its keyname only. */
module ModuleGraph {
  import opened Common
  import opened Container

  type Ref = nat

  datatype Module = Module(
    keyname: string,
    imports: seq<Ref>,
    providers: seq<Registration>,
    definitions: seq<Definition>,
    configDefaults: Record<Setting>,
    onInit: Option<Hook>,
    afterInit: Option<Hook>,
    onShutdown: Option<Hook>)

  type Graph = map<Ref, Module>

  /** Every import names a module object of the graph. */
  ghost predicate Closed(g: Graph) {
    forall r, m :: r in g && m in g[r].imports ==> m in g
  }

  /** No two module objects of the graph carry the same keyname. */
  ghost predicate Unique(g: Graph) {
    forall a, b :: a in g && b in g && g[a].keyname == g[b].keyname ==> a == b
  }

  ghost function AllKeynames(g: Graph): set<string> {
    set r | r in g :: g[r].keyname
  }

  function Keynames(g: Graph, rs: seq<Ref>): set<string> {
    set r | r in rs && r in g :: g[r].keyname
  }

  lemma KeynamesConcat(g: Graph, a: seq<Ref>, b: seq<Ref>)
    ensures Keynames(g, a + b) == Keynames(g, a) + Keynames(g, b)
  {
  }

  lemma KeynamesSplit(g: Graph, rs: seq<Ref>)
    requires rs != []
    ensures Keynames(g, rs) == Keynames(g, [rs[0]]) + Keynames(g, rs[1..])
  {
  }

  lemma KeynamesAccumulate(g: Graph, done: set<string>, a: seq<Ref>, b: seq<Ref>)
    ensures done + Keynames(g, a + b) == done + Keynames(g, a) + Keynames(g, b)
  {
  }

  // ---------------------------------------------------------------- the walk

  /** A module is entered when it is marked, and left when its imports have been handled. */
  datatype Event = Enter(r: Ref) | Leave(r: Ref)

  ghost function Entered(es: seq<Event>): seq<Ref> {
    if es == [] then []
    else if es[0].Enter? then [es[0].r] + Entered(es[1..])
    else Entered(es[1..])
  }

  ghost function Left(es: seq<Event>): seq<Ref> {
    if es == [] then []
    else if es[0].Leave? then [es[0].r] + Left(es[1..])
    else Left(es[1..])
  }

  /** Check, mark, recurse: the events of visiting `r` when the keynames in `seen` are marked. */
  ghost function Walk(g: Graph, seen: set<string>, r: Ref): seq<Event>
    requires Closed(g) && r in g
    decreases AllKeynames(g) - seen, 0
  {
    if g[r].keyname in seen then []
    else
      assert g[r].keyname in AllKeynames(g);
      [Enter(r)] + WalkAll(g, seen + {g[r].keyname}, g[r].imports) + [Leave(r)]
  }

  ghost function WalkAll(g: Graph, seen: set<string>, rs: seq<Ref>): seq<Event>
    requires Closed(g) && forall m :: m in rs ==> m in g
    decreases AllKeynames(g) - seen, |rs|
  {
    if rs == [] then []
    else
      var first := Walk(g, seen, rs[0]);
      first + WalkAll(g, seen + Keynames(g, Entered(first)), rs[1..])
  }

  lemma {:induction false} EnteredConcat(a: seq<Event>, b: seq<Event>)
    ensures Entered(a + b) == Entered(a) + Entered(b)
  {
    if a == [] {
      assert a + b == b;
    } else {
      EnteredConcat(a[1..], b);
      assert (a + b)[1..] == a[1..] + b;
    }
  }

  lemma {:induction false} LeftConcat(a: seq<Event>, b: seq<Event>)
    ensures Left(a + b) == Left(a) + Left(b)
  {
    if a == [] {
      assert a + b == b;
    } else {
      LeftConcat(a[1..], b);
      assert (a + b)[1..] == a[1..] + b;
    }
  }

  lemma WrappedEvents(r: Ref, inner: seq<Event>)
    ensures Entered([Enter(r)] + inner + [Leave(r)]) == [r] + Entered(inner)
    ensures Left([Enter(r)] + inner + [Leave(r)]) == Left(inner) + [r]
  {
    EnteredConcat([Enter(r)] + inner, [Leave(r)]);
    EnteredConcat([Enter(r)], inner);
    LeftConcat([Enter(r)] + inner, [Leave(r)]);
    LeftConcat([Enter(r)], inner);
  }

  lemma WalkUnfold(g: Graph, seen: set<string>, r: Ref)
    requires Closed(g) && r in g && g[r].keyname !in seen
    ensures var inner := WalkAll(g, seen + {g[r].keyname}, g[r].imports);
            && Entered(Walk(g, seen, r)) == [r] + Entered(inner)
            && Left(Walk(g, seen, r)) == Left(inner) + [r]
  {
    var inner := WalkAll(g, seen + {g[r].keyname}, g[r].imports);
    WrappedEvents(r, inner);
    assert Walk(g, seen, r) == [Enter(r)] + inner + [Leave(r)];
  }

  lemma WalkAllUnfold(g: Graph, seen: set<string>, rs: seq<Ref>)
    requires Closed(g) && rs != [] && forall m :: m in rs ==> m in g
    ensures var first := Walk(g, seen, rs[0]);
            var rest := WalkAll(g, seen + Keynames(g, Entered(first)), rs[1..]);
            && WalkAll(g, seen, rs) == first + rest
            && Entered(WalkAll(g, seen, rs)) == Entered(first) + Entered(rest)
            && Left(WalkAll(g, seen, rs)) == Left(first) + Left(rest)
  {
    var first := Walk(g, seen, rs[0]);
    EnteredConcat(first, WalkAll(g, seen + Keynames(g, Entered(first)), rs[1..]));
    LeftConcat(first, WalkAll(g, seen + Keynames(g, Entered(first)), rs[1..]));
  }

  lemma WalkAllSingle(g: Graph, seen: set<string>, x: Ref)
    requires Closed(g) && x in g
    ensures WalkAll(g, seen, [x]) == Walk(g, seen, x)
  {
  }
}
