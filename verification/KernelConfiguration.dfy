/** How the kernel gathers configuration from the instantiated modules: the definitions it registers and
    the `configDefaults` it merges. */
module KernelConfiguration {
  import opened Common
  import opened Container
  import opened ModuleGraph

  // ----------------------------------------------------------------- definitions

  ghost function Declared(g: Graph, refs: seq<Ref>): seq<Definition> {
    if refs == [] then []
    else if refs[|refs| - 1] in g then Declared(g, refs[..|refs| - 1]) + g[refs[|refs| - 1]].definitions
    else Declared(g, refs[..|refs| - 1])
  }

  /** Registering in order; nothing once a parameter name comes twice. */
  ghost function DeclareAll(base: Record<Definition>, ds: seq<Definition>): Option<Record<Definition>> {
    if ds == [] then Some(base)
    else
      var d := ds[|ds| - 1];
      match DeclareAll(base, ds[..|ds| - 1])
      case None => None
      case Some(r) => if r.Has(d.parameterName) then None else Some(r.Set(d.parameterName, d))
  }

  lemma DeclareNext(base: Record<Definition>, ds: seq<Definition>, d: Definition)
    ensures DeclareAll(base, ds + [d])
         == match DeclareAll(base, ds)
            case None => None
            case Some(r) => if r.Has(d.parameterName) then None else Some(r.Set(d.parameterName, d))
  {
  }

  lemma {:induction false} DeclareStopped(base: Record<Definition>, a: seq<Definition>, whole: seq<Definition>)
    requires a <= whole && DeclareAll(base, a).None?
    ensures DeclareAll(base, whole).None?
    decreases |whole|
  {
    if |a| < |whole| {
      assert a <= whole[..|whole| - 1];
      DeclareStopped(base, a, whole[..|whole| - 1]);
    } else {
      assert a == whole;
    }
  }

  ghost predicate DistinctNames(ds: seq<Definition>) {
    forall i, j :: 0 <= i < j < |ds| ==> ds[i].parameterName != ds[j].parameterName
  }

  ghost function ParameterNames(ds: seq<Definition>): set<string> {
    set d | d in ds :: d.parameterName
  }

  lemma DistinctNamesNext(ds: seq<Definition>, d: Definition)
    ensures DistinctNames(ds + [d]) <==> DistinctNames(ds) && d.parameterName !in ParameterNames(ds)
    ensures ParameterNames(ds + [d]) == ParameterNames(ds) + {d.parameterName}
  {
    var all := ds + [d];
    if DistinctNames(all) {
      forall i, j | 0 <= i < j < |ds| ensures ds[i].parameterName != ds[j].parameterName {
        assert all[i] == ds[i] && all[j] == ds[j];
      }
      forall i | 0 <= i < |ds| ensures ds[i].parameterName != d.parameterName {
        assert all[i] == ds[i] && all[|ds|] == d;
      }
    }
  }

  /** Registration succeeds exactly when no two definitions share a parameter name, and then holds each of
      them, and nothing else, under its name. */
  lemma {:induction false} DeclaresIffDistinct(ds: seq<Definition>)
    ensures DeclareAll(Empty(), ds).Some? <==> DistinctNames(ds)
    ensures DeclareAll(Empty(), ds).Some? ==>
              var r := DeclareAll(Empty(), ds).value;
              && r.Valid() && r.values.Keys == ParameterNames(ds)
              && forall i :: 0 <= i < |ds| ==> r.Has(ds[i].parameterName) && r.values[ds[i].parameterName] == ds[i]
  {
    if ds != [] {
      var before, d := ds[..|ds| - 1], ds[|ds| - 1];
      DeclaresIffDistinct(before);
      assert ds == before + [d];
      DistinctNamesNext(before, d);
      if DeclareAll(Empty(), before).Some? {
        SetValid(DeclareAll(Empty(), before).value, d.parameterName, d);
      }
    }
  }

  lemma {:induction false} DeclaredGrows(g: Graph, refs: seq<Ref>, i: nat)
    requires i <= |refs| && forall m :: m in refs ==> m in g
    ensures Declared(g, refs[..i]) <= Declared(g, refs)
    decreases |refs|
  {
    if i == |refs| {
      assert refs[..i] == refs;
    } else {
      DeclaredGrows(g, refs[..|refs| - 1], i);
      assert refs[..|refs| - 1][..i] == refs[..i];
    }
  }

  lemma DeclaredNext(g: Graph, refs: seq<Ref>, i: nat)
    requires i < |refs| && forall m :: m in refs ==> m in g
    ensures Declared(g, refs[..i + 1]) == Declared(g, refs[..i]) + g[refs[i]].definitions
  {
    assert refs[..i + 1][..i] == refs[..i];
  }

  // -------------------------------------------------------------- configDefaults

  /** One assignment of a `configDefaults` block, with the keyname of its module. */
  datatype Entry = Entry(keyname: string, key: string, setting: Setting)

  /** The merged block and, for each key, the keyname of the last module that set it. */
  datatype Collected = Conflict | Collected(merged: Record<Setting>, sourceByKey: Record<string>)

  ghost function CollectNext(c: Collected, e: Entry): Collected {
    match c
    case Conflict => Conflict
    case Collected(merged, source) =>
      if source.Has(e.key) && merged.Has(e.key) && !Same(merged.values[e.key], e.setting) then Conflict
      else Collected(merged.Set(e.key, e.setting), source.Set(e.key, e.keyname))
  }

  ghost function Collect(es: seq<Entry>): Collected {
    if es == [] then Collected(Empty(), Empty()) else CollectNext(Collect(es[..|es| - 1]), es[|es| - 1])
  }

  ghost function DefaultsBlock(m: Module, keys: seq<string>): seq<Entry>
    requires forall k :: k in keys ==> k in m.configDefaults.values
  {
    if keys == [] then []
    else
      var last := keys[|keys| - 1];
      DefaultsBlock(m, keys[..|keys| - 1]) + [Entry(m.keyname, last, m.configDefaults.values[last])]
  }

  ghost predicate ValidDefaults(g: Graph) {
    forall r :: r in g ==> g[r].configDefaults.Valid()
  }

  ghost function Entries(g: Graph, refs: seq<Ref>): seq<Entry>
    requires ValidDefaults(g)
  {
    if refs == [] then []
    else if refs[|refs| - 1] in g then
      var m := g[refs[|refs| - 1]];
      Entries(g, refs[..|refs| - 1]) + DefaultsBlock(m, m.configDefaults.keys)
    else Entries(g, refs[..|refs| - 1])
  }

  lemma {:induction false} CollectStopped(a: seq<Entry>, whole: seq<Entry>)
    requires a <= whole && Collect(a).Conflict?
    ensures Collect(whole).Conflict?
    decreases |whole|
  {
    if |a| < |whole| {
      assert a <= whole[..|whole| - 1];
      CollectStopped(a, whole[..|whole| - 1]);
    } else {
      assert a == whole;
    }
  }

  lemma {:induction false} DefaultsBlockGrows(m: Module, keys: seq<string>, i: nat)
    requires i <= |keys| && forall k :: k in keys ==> k in m.configDefaults.values
    ensures DefaultsBlock(m, keys[..i]) <= DefaultsBlock(m, keys)
    decreases |keys|
  {
    if i == |keys| {
      assert keys[..i] == keys;
    } else {
      DefaultsBlockGrows(m, keys[..|keys| - 1], i);
      assert keys[..|keys| - 1][..i] == keys[..i];
    }
  }

  lemma DefaultsBlockNext(m: Module, keys: seq<string>, i: nat)
    requires i < |keys| && forall k :: k in keys ==> k in m.configDefaults.values
    ensures DefaultsBlock(m, keys[..i + 1])
            == DefaultsBlock(m, keys[..i]) + [Entry(m.keyname, keys[i], m.configDefaults.values[keys[i]])]
  {
    assert keys[..i + 1][..i] == keys[..i];
  }

  lemma CollectBlockNext(m: Module, earlier: seq<Entry>, j: nat)
    requires m.configDefaults.Valid() && j < |m.configDefaults.keys|
    ensures var keys := m.configDefaults.keys;
            Collect(earlier + DefaultsBlock(m, keys[..j + 1]))
            == CollectNext(Collect(earlier + DefaultsBlock(m, keys[..j])),
                           Entry(m.keyname, keys[j], m.configDefaults.values[keys[j]]))
  {
    var keys := m.configDefaults.keys;
    var e := Entry(m.keyname, keys[j], m.configDefaults.values[keys[j]]);
    DefaultsBlockNext(m, keys, j);
    assert earlier + DefaultsBlock(m, keys[..j + 1]) == earlier + DefaultsBlock(m, keys[..j]) + [e];
  }

  lemma CollectBlockStops(m: Module, earlier: seq<Entry>, j: nat)
    requires m.configDefaults.Valid() && j <= |m.configDefaults.keys|
    requires Collect(earlier + DefaultsBlock(m, m.configDefaults.keys[..j])).Conflict?
    ensures Collect(earlier + DefaultsBlock(m, m.configDefaults.keys)) == Conflict
  {
    var keys := m.configDefaults.keys;
    DefaultsBlockGrows(m, keys, j);
    CollectStopped(earlier + DefaultsBlock(m, keys[..j]), earlier + DefaultsBlock(m, keys));
  }

  lemma EntriesNext(g: Graph, refs: seq<Ref>, i: nat)
    requires ValidDefaults(g) && i < |refs| && forall m :: m in refs ==> m in g
    ensures var m := g[refs[i]];
            Entries(g, refs[..i + 1]) == Entries(g, refs[..i]) + DefaultsBlock(m, m.configDefaults.keys)
  {
    assert refs[..i + 1][..i] == refs[..i];
  }

  lemma {:induction false} EntriesGrow(g: Graph, refs: seq<Ref>, i: nat)
    requires ValidDefaults(g) && i <= |refs| && forall m :: m in refs ==> m in g
    ensures Entries(g, refs[..i]) <= Entries(g, refs)
    decreases |refs|
  {
    if i == |refs| {
      assert refs[..i] == refs;
    } else {
      EntriesGrow(g, refs[..|refs| - 1], i);
      assert refs[..|refs| - 1][..i] == refs[..i];
    }
  }

  /** Two entries give different values to one key. */
  ghost predicate Clash(es: seq<Entry>) {
    exists i, j :: 0 <= i < |es| && 0 <= j < |es| && es[i].key == es[j].key && !Same(es[i].setting, es[j].setting)
  }

  ghost function Keys(es: seq<Entry>): set<string> {
    set e | e in es :: e.key
  }

  /** The merged block holds exactly the keys set, each with the value every setter gave it and with the
      module that set it last. */
  ghost predicate IsUnion(es: seq<Entry>, c: Collected) {
    && c.Collected? && c.merged.Valid() && c.sourceByKey.Valid() && HoldsEach(es, c.merged)
    && c.sourceByKey.values.Keys == Keys(es)
    && forall i :: 0 <= i < |es| && IsLast(es, i) ==> HoldsEntry(c, es[i])
  }

  ghost predicate HoldsEach(es: seq<Entry>, merged: Record<Setting>) {
    && merged.values.Keys == Keys(es)
    && forall i :: 0 <= i < |es| ==> es[i].key in merged.values && Same(merged.values[es[i].key], es[i].setting)
  }

  /** No later entry sets the key of entry `i`. */
  ghost predicate IsLast(es: seq<Entry>, i: nat)
    requires i < |es|
  {
    forall j :: i < j < |es| ==> es[j].key != es[i].key
  }

  ghost predicate HoldsEntry(c: Collected, e: Entry) {
    && c.Collected? && e.key in c.merged.values && e.key in c.sourceByKey.values
    && c.merged.values[e.key] == e.setting && c.sourceByKey.values[e.key] == e.keyname
  }

  lemma LastNext(es: seq<Entry>, e: Entry, i: nat)
    requires i < |es|
    ensures IsLast(es + [e], i) <==> IsLast(es, i) && es[i].key != e.key
  {
    var all := es + [e];
    if IsLast(all, i) {
      assert all[|es|].key != all[i].key;
      forall j | i < j < |es| ensures es[j].key != es[i].key {
        assert all[j].key != all[i].key;
      }
    }
  }

  lemma UnionKeepsLast(es: seq<Entry>, c: Collected, e: Entry)
    requires IsUnion(es, c)
    ensures var next := Collected(c.merged.Set(e.key, e.setting), c.sourceByKey.Set(e.key, e.keyname));
            forall i :: 0 <= i < |es + [e]| && IsLast(es + [e], i) ==> HoldsEntry(next, (es + [e])[i])
  {
    forall i | 0 <= i < |es| && IsLast(es + [e], i) ensures es[i].key != e.key && HoldsEntry(c, es[i]) {
      LastNext(es, e, i);
    }
  }

  lemma KeysNext(es: seq<Entry>, e: Entry)
    ensures Keys(es + [e]) == Keys(es) + {e.key}
  {
  }

  lemma UnionClashes(es: seq<Entry>, merged: Record<Setting>, e: Entry)
    requires HoldsEach(es, merged) && merged.Has(e.key) && !Same(merged.values[e.key], e.setting)
    ensures Clash(es + [e])
  {
    var all := es + [e];
    var d :| d in es && d.key == e.key;
    var i :| 0 <= i < |es| && es[i] == d;
    assert all[i] == d && all[|es|] == e;
  }

  lemma UnionExtends(es: seq<Entry>, c: Collected, e: Entry)
    requires IsUnion(es, c) && (c.merged.Has(e.key) ==> Same(c.merged.values[e.key], e.setting))
    ensures IsUnion(es + [e], Collected(c.merged.Set(e.key, e.setting), c.sourceByKey.Set(e.key, e.keyname)))
  {
    KeysNext(es, e);
    UnionKeepsLast(es, c, e);
    SetValid(c.merged, e.key, e.setting);
    SetValid(c.sourceByKey, e.key, e.keyname);
  }

  lemma UnionHasNoClash(es: seq<Entry>, c: Collected)
    requires IsUnion(es, c)
    ensures !Clash(es)
  {
  }

  lemma ClashGrows(es: seq<Entry>, e: Entry)
    requires Clash(es)
    ensures Clash(es + [e])
  {
    var i, j :| 0 <= i < |es| && 0 <= j < |es| && es[i].key == es[j].key && !Same(es[i].setting, es[j].setting);
    assert (es + [e])[i] == es[i] && (es + [e])[j] == es[j];
  }

  /** A conflict or the union of the entries. */
  ghost predicate UnionOrConflict(es: seq<Entry>, c: Collected) {
    if c.Conflict? then Clash(es) else IsUnion(es, c) && !Clash(es)
  }

  lemma UnionOrConflictNext(es: seq<Entry>, c: Collected, e: Entry)
    requires UnionOrConflict(es, c)
    ensures UnionOrConflict(es + [e], CollectNext(c, e))
  {
    if c.Conflict? {
      ClashGrows(es, e);
    } else if c.merged.Has(e.key) && !Same(c.merged.values[e.key], e.setting) {
      UnionClashes(es, c.merged, e);
    } else {
      UnionExtends(es, c, e);
      UnionHasNoClash(es + [e], CollectNext(c, e));
    }
  }

  lemma {:induction false} CollectsEither(es: seq<Entry>)
    ensures UnionOrConflict(es, Collect(es))
    decreases |es|, 0
  {
    if es != [] {
      var before, e := es[..|es| - 1], es[|es| - 1];
      assert before + [e] == es;
      CollectsEitherNext(before, e);
    }
  }

  lemma {:induction false} CollectsEitherNext(before: seq<Entry>, e: Entry)
    ensures UnionOrConflict(before + [e], Collect(before + [e]))
    decreases |before|, 1
  {
    CollectsEither(before);
    UnionOrConflictNext(before, Collect(before), e);
  }

  /** `collectConfigDefaults` throws exactly when two entries disagree; otherwise it returns the union. */
  lemma CollectsUnionOrConflict(es: seq<Entry>)
    ensures Collect(es).Conflict? <==> Clash(es)
    ensures Collect(es).Collected? ==> IsUnion(es, Collect(es))
  {
    CollectsEither(es);
  }

  lemma {:induction false} DefaultsBlockMembers(m: Module, keys: seq<string>)
    requires forall k :: k in keys ==> k in m.configDefaults.values
    ensures forall e :: e in DefaultsBlock(m, keys) <==>
              e.keyname == m.keyname && e.key in keys && e.setting == m.configDefaults.values[e.key]
  {
    if keys != [] {
      DefaultsBlockMembers(m, keys[..|keys| - 1]);
    }
  }

  lemma {:induction false} EntriesMembers(g: Graph, refs: seq<Ref>)
    requires ValidDefaults(g) && forall m :: m in refs ==> m in g
    ensures forall e :: e in Entries(g, refs) <==> exists r :: r in refs && SetsEntry(g[r], e)
  {
    if refs != [] {
      var m := g[refs[|refs| - 1]];
      EntriesMembers(g, refs[..|refs| - 1]);
      DefaultsBlockMembers(m, m.configDefaults.keys);
      assert forall r :: r in refs <==> r in refs[..|refs| - 1] || r == refs[|refs| - 1];
    }
  }

  ghost predicate SetsEntry(m: Module, e: Entry) {
    e.keyname == m.keyname && m.configDefaults.Has(e.key) && e.setting == m.configDefaults.values[e.key]
  }

  lemma UnionsAgree(a: seq<Entry>, ca: Collected, b: seq<Entry>, cb: Collected)
    requires IsUnion(a, ca) && IsUnion(b, cb) && forall e :: e in a <==> e in b
    ensures ca.merged.values.Keys == cb.merged.values.Keys
    ensures forall k :: ca.merged.Has(k) ==> Same(ca.merged.values[k], cb.merged.values[k])
  {
    assert Keys(a) == Keys(b);
    forall k | ca.merged.Has(k) ensures Same(ca.merged.values[k], cb.merged.values[k]) {
      var e :| e in a && e.key == k;
      var i :| 0 <= i < |a| && a[i] == e;
      var j :| 0 <= j < |b| && b[j] == e;
    }
  }

  lemma CollectedAgree(a: seq<Entry>, b: seq<Entry>)
    requires forall e :: e in a <==> e in b
    ensures Collect(a).Conflict? <==> Collect(b).Conflict?
    ensures Collect(a).Collected? ==>
              && Collect(a).merged.values.Keys == Collect(b).merged.values.Keys
              && forall k :: Collect(a).merged.Has(k) ==> Same(Collect(a).merged.values[k], Collect(b).merged.values[k])
  {
    CollectsUnionOrConflict(a);
    CollectsUnionOrConflict(b);
    if Collect(a).Conflict? {
      ClashCarries(a, b);
    } else if Collect(b).Conflict? {
      ClashCarries(b, a);
    } else {
      UnionsAgree(a, Collect(a), b, Collect(b));
    }
  }

  lemma ClashCarries(a: seq<Entry>, b: seq<Entry>)
    requires Clash(a) && forall e :: e in a ==> e in b
    ensures Clash(b)
  {
    var i, j :| 0 <= i < |a| && 0 <= j < |a| && a[i].key == a[j].key && !Same(a[i].setting, a[j].setting);
    assert a[i] in b && a[j] in b;
    var i', j' :| 0 <= i' < |b| && 0 <= j' < |b| && b[i'] == a[i] && b[j'] == a[j];
  }

  /** Module order does not matter: two orders of the same modules conflict together or merge to the same
      keys and values. */
  lemma ModuleOrderIrrelevant(g: Graph, a: seq<Ref>, b: seq<Ref>)
    requires ValidDefaults(g) && (forall m :: m in a ==> m in g) && forall m :: m in a <==> m in b
    ensures Collect(Entries(g, a)).Conflict? <==> Collect(Entries(g, b)).Conflict?
    ensures Collect(Entries(g, a)).Collected? ==>
              var ma, mb := Collect(Entries(g, a)).merged, Collect(Entries(g, b)).merged;
              ma.values.Keys == mb.values.Keys && forall k :: ma.Has(k) ==> Same(ma.values[k], mb.values[k])
  {
    EntriesMembers(g, a);
    EntriesMembers(g, b);
    CollectedAgree(Entries(g, a), Entries(g, b));
  }

  ghost predicate SomeDisagree(g: Graph, refs: seq<Ref>) {
    exists a, b, k :: a in refs && b in refs && a in g && b in g && Disagree(g[a], g[b], k)
  }

  lemma ClashFromModules(g: Graph, refs: seq<Ref>)
    requires ValidDefaults(g) && forall m :: m in refs ==> m in g
    requires Clash(Entries(g, refs))
    ensures SomeDisagree(g, refs)
  {
    var es := Entries(g, refs);
    EntriesMembers(g, refs);
    var i, j :| 0 <= i < |es| && 0 <= j < |es| && es[i].key == es[j].key && !Same(es[i].setting, es[j].setting);
    assert es[i] in es && es[j] in es;
    var a :| a in refs && SetsEntry(g[a], es[i]);
    var b :| b in refs && SetsEntry(g[b], es[j]);
    SameOrDiffer(es[i].setting, es[j].setting);
    assert Disagree(g[a], g[b], es[i].key);
  }

  lemma ModulesClash(g: Graph, refs: seq<Ref>, a: Ref, b: Ref, k: string)
    requires ValidDefaults(g) && forall m :: m in refs ==> m in g
    requires a in refs && b in refs && Disagree(g[a], g[b], k)
    ensures Clash(Entries(g, refs))
  {
    var es := Entries(g, refs);
    EntriesMembers(g, refs);
    var ea := Entry(g[a].keyname, k, g[a].configDefaults.values[k]);
    var eb := Entry(g[b].keyname, k, g[b].configDefaults.values[k]);
    assert SetsEntry(g[a], ea) && SetsEntry(g[b], eb);
    assert ea in es && eb in es;
    var i, j :| 0 <= i < |es| && 0 <= j < |es| && es[i] == ea && es[j] == eb;
    SameOrDiffer(ea.setting, eb.setting);
  }

  /** Stated over modules: the boot conflicts exactly when two of them set one key to different values. */
  lemma ConflictIffModulesDisagree(g: Graph, refs: seq<Ref>)
    requires ValidDefaults(g) && forall m :: m in refs ==> m in g
    ensures Collect(Entries(g, refs)).Conflict? <==> SomeDisagree(g, refs)
  {
    CollectsUnionOrConflict(Entries(g, refs));
    if Clash(Entries(g, refs)) {
      ClashFromModules(g, refs);
    }
    if a, b, k :| a in refs && b in refs && a in g && b in g && Disagree(g[a], g[b], k) {
      ModulesClash(g, refs, a, b, k);
    }
  }

  ghost predicate Disagree(a: Module, b: Module, k: string) {
    && a.configDefaults.Has(k) && b.configDefaults.Has(k)
    && Differ(a.configDefaults.values[k], b.configDefaults.values[k])
  }

  /** Plain values are compared by value, resolver objects by identity, and nothing else is equal but `undefined` to
      itself. */
  ghost predicate Differ(a: Setting, b: Setting) {
    && !(a == Undefined && b == Undefined)
    && (a.Plain? && b.Plain? ==> a.value != b.value)
    && (a.Computed? && b.Computed? ==> a.id != b.id)
  }

  lemma SameOrDiffer(a: Setting, b: Setting)
    ensures Same(a, b) <==> !Differ(a, b)
  {
  }
}
