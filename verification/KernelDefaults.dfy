/** In which order the modules' `configDefaults` are merged, and which module answers for a key. */
module KernelDefaults {
  import opened Common
  import opened ModuleGraph
  import opened KernelConfiguration

  /** The key at position `q` of the module at position `p`. */
  ghost predicate SetsAt(g: Graph, refs: seq<Ref>, p: nat, q: nat, key: string) {
    p < |refs| && refs[p] in g && q < |g[refs[p]].configDefaults.keys| && g[refs[p]].configDefaults.keys[q] == key
  }

  ghost function Offset(g: Graph, refs: seq<Ref>, p: nat): nat
    requires ValidDefaults(g) && p <= |refs|
  {
    |Entries(g, refs[..p])|
  }

  lemma {:induction false} BlockAt(m: Module, keys: seq<string>)
    requires forall k :: k in keys ==> k in m.configDefaults.values
    ensures |DefaultsBlock(m, keys)| == |keys|
    ensures forall q :: 0 <= q < |keys| ==>
              && keys[q] in m.configDefaults.values
              && DefaultsBlock(m, keys)[q] == Entry(m.keyname, keys[q], m.configDefaults.values[keys[q]])
  {
    if keys != [] {
      BlockAt(m, keys[..|keys| - 1]);
      assert keys[|keys| - 1] in keys;
    }
  }

  lemma OffsetNext(g: Graph, refs: seq<Ref>, p: nat)
    requires ValidDefaults(g) && p < |refs|
    ensures Offset(g, refs, p + 1)
         == Offset(g, refs, p) + if refs[p] in g then |g[refs[p]].configDefaults.keys| else 0
  {
    assert refs[..p + 1][..p] == refs[..p];
    if refs[p] in g {
      BlockAt(g[refs[p]], g[refs[p]].configDefaults.keys);
    }
  }

  lemma {:induction false} OffsetGrows(g: Graph, refs: seq<Ref>, p: nat, p': nat)
    requires ValidDefaults(g) && p <= p' <= |refs|
    ensures Offset(g, refs, p) <= Offset(g, refs, p')
    decreases p'
  {
    if p < p' {
      OffsetGrows(g, refs, p, p' - 1);
      OffsetNext(g, refs, p' - 1);
    }
  }

  /** Where the entry of a module's key stands among all entries. */
  lemma {:induction false} EntryAt(g: Graph, refs: seq<Ref>, p: nat, q: nat, key: string)
    requires ValidDefaults(g) && SetsAt(g, refs, p, q, key)
    ensures Offset(g, refs, p) + q < |Entries(g, refs)| && key in g[refs[p]].configDefaults.values
    ensures Entries(g, refs)[Offset(g, refs, p) + q]
         == Entry(g[refs[p]].keyname, key, g[refs[p]].configDefaults.values[key])
    decreases |refs|
  {
    var before := refs[..|refs| - 1];
    if p == |refs| - 1 {
      assert refs[..p] == before;
      BlockAt(g[refs[p]], g[refs[p]].configDefaults.keys);
    } else {
      assert SetsAt(g, before, p, q, key);
      EntryAt(g, before, p, q, key);
      assert before[..p] == refs[..p];
    }
  }

  lemma {:induction false} EntryFrom(g: Graph, refs: seq<Ref>, f: nat) returns (p: nat, q: nat)
    requires ValidDefaults(g) && f < |Entries(g, refs)|
    ensures SetsAt(g, refs, p, q, Entries(g, refs)[f].key) && f == Offset(g, refs, p) + q
    decreases |refs|
  {
    var before, last := refs[..|refs| - 1], |refs| - 1;
    if f < |Entries(g, before)| {
      p, q := EntryFrom(g, before, f);
      assert before[..p] == refs[..p];
    } else {
      assert refs[..last] == before;
      BlockAt(g[refs[last]], g[refs[last]].configDefaults.keys);
      p, q := last, f - |Entries(g, before)|;
    }
  }

  /** Positions among the modules are ordered as the entries are. */
  lemma OrderedAlike(g: Graph, refs: seq<Ref>, p: nat, q: nat, a: string, p': nat, q': nat, b: string)
    requires ValidDefaults(g) && SetsAt(g, refs, p, q, a) && SetsAt(g, refs, p', q', b)
    ensures p < p' || (p == p' && q < q') <==> Offset(g, refs, p) + q < Offset(g, refs, p') + q'
  {
    OffsetNext(g, refs, p);
    OffsetNext(g, refs, p');
    if p < p' {
      OffsetGrows(g, refs, p + 1, p');
    } else if p' < p {
      OffsetGrows(g, refs, p' + 1, p);
    }
  }

  lemma LastIsHeld(es: seq<Entry>, f: nat)
    requires f < |es| && IsLast(es, f) && Collect(es).Collected?
    ensures HoldsEntry(Collect(es), es[f])
  {
    CollectsUnionOrConflict(es);
  }

  lemma LastSetterIsLast(g: Graph, refs: seq<Ref>, p: nat, q: nat, key: string)
    requires ValidDefaults(g) && SetsAt(g, refs, p, q, key)
    requires forall p': nat, q': nat :: SetsAt(g, refs, p', q', key) ==> p' < p || (p' == p && q' <= q)
    ensures Offset(g, refs, p) + q < |Entries(g, refs)| && IsLast(Entries(g, refs), Offset(g, refs, p) + q)
  {
    var es, f := Entries(g, refs), Offset(g, refs, p) + q;
    EntryAt(g, refs, p, q, key);
    forall j | f < j < |es| ensures es[j].key != key {
      var p', q' := EntryFrom(g, refs, j);
      if es[j].key == key {
        OrderedAlike(g, refs, p, q, key, p', q', key);
      }
    }
  }

  /** The last module to set a key answers for it, with its own setting. */
  lemma LastSetterAnswers(g: Graph, refs: seq<Ref>, p: nat, q: nat, key: string)
    requires ValidDefaults(g) && SetsAt(g, refs, p, q, key)
    requires forall p': nat, q': nat :: SetsAt(g, refs, p', q', key) ==> p' < p || (p' == p && q' <= q)
    requires Collect(Entries(g, refs)).Collected?
    ensures var c, m := Collect(Entries(g, refs)), g[refs[p]];
            && c.merged.Has(key) && c.sourceByKey.Has(key) && m.configDefaults.Has(key)
            && c.merged.values[key] == m.configDefaults.values[key] && c.sourceByKey.values[key] == m.keyname
  {
    EntryAt(g, refs, p, q, key);
    LastSetterIsLast(g, refs, p, q, key);
    LastIsHeld(Entries(g, refs), Offset(g, refs, p) + q);
  }

  // ------------------------------------------------------------------ the order of the keys

  /** The entries that set a key for the first time. */
  ghost function FirstSets(es: seq<Entry>): set<nat> {
    set i: nat | i < |es| && forall j :: 0 <= j < i ==> es[j].key != es[i].key
  }

  ghost predicate KeysAt(es: seq<Entry>, picks: seq<nat>, keys: seq<string>) {
    |keys| == |picks| && forall k :: 0 <= k < |picks| ==> picks[k] < |es| && keys[k] == es[picks[k]].key
  }

  lemma CollectedKeys(es: seq<Entry>)
    requires Collect(es).Collected?
    ensures Collect(es).merged.values.Keys == Keys(es)
  {
    CollectsUnionOrConflict(es);
  }

  lemma KeysUpTo(es: seq<Entry>, n: nat, key: string)
    requires n <= |es|
    ensures key in Keys(es[..n]) <==> exists j :: 0 <= j < n && es[j].key == key
  {
    if key in Keys(es[..n]) {
      var e :| e in es[..n] && e.key == key;
      var j :| 0 <= j < |es[..n]| && es[..n][j] == e;
      assert es[j] == e;
    }
    if j :| 0 <= j < n && es[j].key == key {
      assert es[..n][j] == es[j];
    }
  }

  lemma {:induction false} MergedKeysUpTo(es: seq<Entry>, n: nat)
    requires n <= |es| && Collect(es[..n]).Collected?
    ensures KeysAt(es, Picked(FirstSets(es), n), Collect(es[..n]).merged.keys)
  {
    if n > 0 {
      assert es[..n][..n - 1] == es[..n - 1];
      MergedKeysUpTo(es, n - 1);
      CollectedKeys(es[..n - 1]);
      KeysUpTo(es, n - 1, es[n - 1].key);
    }
  }

  /** A key comes before another in the merged block when it was first set before it. */
  lemma MergedKeysAre(es: seq<Entry>)
    requires Collect(es).Collected?
    ensures KeysAt(es, Picked(FirstSets(es), |es|), Collect(es).merged.keys)
  {
    assert es[..|es|] == es;
    MergedKeysUpTo(es, |es|);
  }
}
