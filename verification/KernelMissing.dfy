/** What a rehearsal reports as missing, read off the modules and the overrides alone. */
module KernelMissing {
  import opened Common
  import opened Container
  import opened Configuration
  import opened ModuleGraph
  import opened KernelConfiguration

  /** Definition `q` of the module at position `p`. */
  ghost predicate DeclaresAt(g: Graph, refs: seq<Ref>, p: nat, q: nat, d: Definition) {
    p < |refs| && refs[p] in g && q < |g[refs[p]].definitions| && g[refs[p]].definitions[q] == d
  }

  /** The required parameter has no value among the overrides. */
  ghost predicate Lacks(overrides: Record<Setting>, d: Definition) {
    d.isRequired && (d.parameterName !in overrides.values || overrides.values[d.parameterName] == Undefined)
  }

  ghost predicate Reports(m: Missing, d: Definition) {
    m.parameterName == d.parameterName && (m.hasDefaultResolvers <==> d.defaultResolvers != [])
  }

  ghost predicate Reported(missing: seq<Missing>, d: Definition) {
    exists m :: m in missing && Reports(m, d)
  }

  /** Some instantiated module requires the parameter, and no override gives it. */
  ghost predicate Warranted(g: Graph, refs: seq<Ref>, overrides: Record<Setting>, m: Missing) {
    exists p, q, d :: DeclaresAt(g, refs, p, q, d) && Lacks(overrides, d) && Reports(m, d)
  }

  /** Exactly the required parameters without an override, each once. */
  ghost predicate ReportsExactly(g: Graph, refs: seq<Ref>, overrides: Record<Setting>, missing: seq<Missing>) {
    && (forall p, q, d :: DeclaresAt(g, refs, p, q, d) && Lacks(overrides, d) ==> Reported(missing, d))
    && (forall m :: m in missing ==> Warranted(g, refs, overrides, m))
    && forall i, j :: 0 <= i < j < |missing| ==> missing[i].parameterName != missing[j].parameterName
  }

  /** They come in the order in which the modules declare them. */
  ghost predicate ReportsInOrder(g: Graph, refs: seq<Ref>, missing: seq<Missing>) {
    forall i, j, p, q, d, p', q', d' ::
      && 0 <= i < j < |missing|
      && DeclaresAt(g, refs, p, q, d) && d.parameterName == missing[i].parameterName
      && DeclaresAt(g, refs, p', q', d') && d'.parameterName == missing[j].parameterName ==>
        p < p' || (p == p' && q < q')
  }

  // ------------------------------------------------------------- the definitions in a row

  ghost function Offset(g: Graph, refs: seq<Ref>, p: nat): nat
    requires p <= |refs|
  {
    |Declared(g, refs[..p])|
  }

  lemma OffsetNext(g: Graph, refs: seq<Ref>, p: nat)
    requires p < |refs|
    ensures Offset(g, refs, p + 1) == Offset(g, refs, p) + if refs[p] in g then |g[refs[p]].definitions| else 0
  {
    assert refs[..p + 1][..p] == refs[..p];
  }

  lemma {:induction false} OffsetGrows(g: Graph, refs: seq<Ref>, p: nat, p': nat)
    requires p <= p' <= |refs|
    ensures Offset(g, refs, p) <= Offset(g, refs, p')
    decreases p'
  {
    if p < p' {
      OffsetGrows(g, refs, p, p' - 1);
      OffsetNext(g, refs, p' - 1);
    }
  }

  /** Where a module's definition stands in the row of all definitions. */
  lemma {:induction false} DeclaredAt(g: Graph, refs: seq<Ref>, p: nat, q: nat, d: Definition)
    requires DeclaresAt(g, refs, p, q, d)
    ensures Offset(g, refs, p) + q < |Declared(g, refs)| && Declared(g, refs)[Offset(g, refs, p) + q] == d
    decreases |refs|
  {
    var before := refs[..|refs| - 1];
    if p == |refs| - 1 {
      assert refs[..p] == before;
    } else {
      assert DeclaresAt(g, before, p, q, d);
      DeclaredAt(g, before, p, q, d);
      assert before[..p] == refs[..p];
    }
  }

  lemma {:induction false} DeclaredFrom(g: Graph, refs: seq<Ref>, f: nat) returns (p: nat, q: nat)
    requires f < |Declared(g, refs)|
    ensures DeclaresAt(g, refs, p, q, Declared(g, refs)[f])
    decreases |refs|
  {
    var before := refs[..|refs| - 1];
    if f < |Declared(g, before)| {
      p, q := DeclaredFrom(g, before, f);
    } else {
      p, q := |refs| - 1, f - |Declared(g, before)|;
    }
  }

  // -------------------------------------------------------------- the list over that row

  lemma {:induction false} DeclaresInOrder(ds: seq<Definition>)
    requires DeclareAll(Empty(), ds).Some?
    ensures var keys := DeclareAll(Empty(), ds).value.keys;
            |keys| == |ds| && forall f :: 0 <= f < |ds| ==> keys[f] == ds[f].parameterName
  {
    if ds != [] {
      DeclaresInOrder(ds[..|ds| - 1]);
    }
  }

  /** The positions in the row of those that are required and not given. */
  ghost function Lacking(ds: seq<Definition>, overrides: Record<Setting>): set<nat> {
    set f: nat | f < |ds| && Lacks(overrides, ds[f])
  }

  ghost predicate Report(ds: seq<Definition>, picks: seq<nat>, missing: seq<Missing>) {
    && |missing| == |picks|
    && forall i :: 0 <= i < |picks| ==> picks[i] < |ds| && Reports(missing[i], ds[picks[i]])
  }

  /** The keys under which the definitions are registered. */
  ghost predicate IsRow(definitions: Record<Definition>, ds: seq<Definition>, keys: seq<string>) {
    && |keys| == |ds|
    && forall f :: 0 <= f < |ds| ==>
         keys[f] == ds[f].parameterName && keys[f] in definitions.values && definitions.values[keys[f]] == ds[f]
  }

  lemma MissingOfNext(definitions: Record<Definition>, keys: seq<string>, overrides: Record<Setting>, d: Definition)
    requires keys != [] && forall k :: k in keys ==> k in definitions.values
    requires keys[|keys| - 1] == d.parameterName && definitions.values[d.parameterName] == d
    ensures var before := MissingOf(definitions, keys[..|keys| - 1], overrides);
            MissingOf(definitions, keys, overrides)
            == if Lacks(overrides, d) then before + [Missing(d.parameterName, d.defaultResolvers != [])] else before
  {
  }

  lemma ReportNext(ds: seq<Definition>, picks: seq<nat>, missing: seq<Missing>, f: nat)
    requires Report(ds, picks, missing) && f < |ds|
    ensures Report(ds, picks + [f], missing + [Missing(ds[f].parameterName, ds[f].defaultResolvers != [])])
  {
  }

  lemma {:induction false} MissingReports(
      definitions: Record<Definition>, ds: seq<Definition>, keys: seq<string>, overrides: Record<Setting>, n: nat)
    requires IsRow(definitions, ds, keys) && n <= |ds| && forall k :: k in keys ==> k in definitions.values
    ensures Report(ds, Picked(Lacking(ds, overrides), n), MissingOf(definitions, keys[..n], overrides))
  {
    if n > 0 {
      MissingReports(definitions, ds, keys, overrides, n - 1);
      assert keys[..n][..n - 1] == keys[..n - 1];
      MissingOfNext(definitions, keys[..n], overrides, ds[n - 1]);
      ReportNext(ds, Picked(Lacking(ds, overrides), n - 1), MissingOf(definitions, keys[..n - 1], overrides), n - 1);
    }
  }

  // ------------------------------------------------------------------- what is reported

  lemma DefinitionsAreRow(ds: seq<Definition>)
    requires DeclareAll(Empty(), ds).Some?
    ensures var definitions := DeclareAll(Empty(), ds).value;
            definitions.Valid() && IsRow(definitions, ds, definitions.keys) && DistinctNames(ds)
  {
    DeclaresIffDistinct(ds);
    DeclaresInOrder(ds);
  }

  lemma ReportedOnce(ds: seq<Definition>, picks: seq<nat>, missing: seq<Missing>, i: nat, j: nat)
    requires DistinctNames(ds) && Report(ds, picks, missing) && i < j < |missing| && picks[i] < picks[j]
    ensures missing[i].parameterName != missing[j].parameterName
  {
  }

  lemma ReportedIfLacking(g: Graph, refs: seq<Ref>, overrides: Record<Setting>, missing: seq<Missing>, p: nat, q: nat,
      d: Definition)
    requires Report(Declared(g, refs), Picked(Lacking(Declared(g, refs), overrides), |Declared(g, refs)|), missing)
    requires DeclaresAt(g, refs, p, q, d) && Lacks(overrides, d)
    ensures Reported(missing, d)
  {
    var ds := Declared(g, refs);
    var picks, f := Picked(Lacking(ds, overrides), |ds|), Offset(g, refs, p) + q;
    DeclaredAt(g, refs, p, q, d);
    PickedInOrder(Lacking(ds, overrides), |ds|);
    assert f in picks;
    var i :| 0 <= i < |picks| && picks[i] == f;
    assert missing[i] in missing && Reports(missing[i], d);
  }

  lemma WarrantedIfReported(g: Graph, refs: seq<Ref>, overrides: Record<Setting>, missing: seq<Missing>, i: nat)
    requires Report(Declared(g, refs), Picked(Lacking(Declared(g, refs), overrides), |Declared(g, refs)|), missing)
    requires i < |missing|
    ensures Warranted(g, refs, overrides, missing[i])
  {
    var ds := Declared(g, refs);
    var picks := Picked(Lacking(ds, overrides), |ds|);
    PickedInOrder(Lacking(ds, overrides), |ds|);
    assert picks[i] in picks;
    var p, q := DeclaredFrom(g, refs, picks[i]);
    assert DeclaresAt(g, refs, p, q, ds[picks[i]]);
    assert Lacks(overrides, ds[picks[i]]) && Reports(missing[i], ds[picks[i]]);
  }

  lemma ReportedEarlier(g: Graph, refs: seq<Ref>, ds: seq<Definition>, picks: seq<nat>, missing: seq<Missing>, i: nat,
      j: nat, p: nat, q: nat, d: Definition, p': nat, q': nat, d': Definition)
    requires ds == Declared(g, refs) && DistinctNames(ds) && Report(ds, picks, missing)
    requires i < j < |missing| && picks[i] < picks[j]
    requires DeclaresAt(g, refs, p, q, d) && d.parameterName == missing[i].parameterName
    requires DeclaresAt(g, refs, p', q', d') && d'.parameterName == missing[j].parameterName
    ensures p < p' || (p == p' && q < q')
  {
    DeclaredAt(g, refs, p, q, d);
    DeclaredAt(g, refs, p', q', d');
    assert Offset(g, refs, p) + q == picks[i] && Offset(g, refs, p') + q' == picks[j];
    if p' < p {
      OffsetNext(g, refs, p');
      OffsetGrows(g, refs, p' + 1, p);
    }
  }

  lemma ReportIsExact(g: Graph, refs: seq<Ref>, overrides: Record<Setting>, missing: seq<Missing>)
    requires DistinctNames(Declared(g, refs))
    requires Report(Declared(g, refs), Picked(Lacking(Declared(g, refs), overrides), |Declared(g, refs)|), missing)
    ensures ReportsExactly(g, refs, overrides, missing)
  {
    var ds := Declared(g, refs);
    PickedInOrder(Lacking(ds, overrides), |ds|);
    forall p, q, d | DeclaresAt(g, refs, p, q, d) && Lacks(overrides, d) ensures Reported(missing, d) {
      ReportedIfLacking(g, refs, overrides, missing, p, q, d);
    }
    forall m | m in missing ensures Warranted(g, refs, overrides, m) {
      var i :| 0 <= i < |missing| && missing[i] == m;
      WarrantedIfReported(g, refs, overrides, missing, i);
    }
    forall i, j | 0 <= i < j < |missing| ensures missing[i].parameterName != missing[j].parameterName {
      ReportedOnce(ds, Picked(Lacking(ds, overrides), |ds|), missing, i, j);
    }
  }

  lemma ReportIsInOrder(g: Graph, refs: seq<Ref>, overrides: Record<Setting>, missing: seq<Missing>)
    requires DistinctNames(Declared(g, refs))
    requires Report(Declared(g, refs), Picked(Lacking(Declared(g, refs), overrides), |Declared(g, refs)|), missing)
    ensures ReportsInOrder(g, refs, missing)
  {
    var ds := Declared(g, refs);
    PickedInOrder(Lacking(ds, overrides), |ds|);
    forall i, j, p, q, d, p', q', d' |
      && 0 <= i < j < |missing|
      && DeclaresAt(g, refs, p, q, d) && d.parameterName == missing[i].parameterName
      && DeclaresAt(g, refs, p', q', d') && d'.parameterName == missing[j].parameterName
      ensures p < p' || (p == p' && q < q')
    {
      ReportedEarlier(g, refs, ds, Picked(Lacking(ds, overrides), |ds|), missing, i, j, p, q, d, p', q', d');
    }
  }

  /** The list that the check makes holds exactly the required parameters that an instantiated module declares and no
      override gives, each once, in the order in which they are declared, with whether they have resolvers. */
  lemma MissingIsExact(g: Graph, refs: seq<Ref>, overrides: Record<Setting>)
    requires DeclareAll(Empty(), Declared(g, refs)).Some?
    ensures var definitions := DeclareAll(Empty(), Declared(g, refs)).value;
            && definitions.Valid()
            && ReportsExactly(g, refs, overrides, MissingOf(definitions, definitions.keys, overrides))
            && ReportsInOrder(g, refs, MissingOf(definitions, definitions.keys, overrides))
  {
    var ds := Declared(g, refs);
    var definitions := DeclareAll(Empty(), ds).value;
    DefinitionsAreRow(ds);
    MissingReports(definitions, ds, definitions.keys, overrides, |ds|);
    assert definitions.keys[..|ds|] == definitions.keys;
    ReportIsExact(g, refs, overrides, MissingOf(definitions, definitions.keys, overrides));
    ReportIsInOrder(g, refs, overrides, MissingOf(definitions, definitions.keys, overrides));
  }
}
