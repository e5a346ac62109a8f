/** `load` key by key: the container that each key finds, and the order in which the keys take their turns. */
module ConfigurationTurns {
  import opened Common
  import opened Container
  import opened Configuration
  import opened ConfigurationPrecedence

  // ------------------------------------------------------------- one turn after the other

  /** The key is bound to a value that it takes, or left when it is required and there is none. */
  ghost predicate IsTurn(definition: Definition, explicit: map<string, Setting>, key: string, was: Container,
      now: Container)
  {
    || (IsUnsatisfied(definition, explicit, key, was) && now == was)
    || exists value ::
         && Takes(definition, explicit, key, was, value)
         && now == Container(was.registrations, was.bindings + [Binding("%" + key + "%", value)])
  }

  /** `cs[i]` is the container that key `i` finds. The turns come to an end after the last key, or at a key whose
      value cannot be had. */
  ghost predicate Turns(definitions: map<string, Definition>, explicit: map<string, Setting>, keys: seq<string>,
      cs: seq<Container>, crashed: bool)
    requires forall k :: k in keys ==> k in definitions
  {
    && 0 < |cs| <= |keys| + 1
    && (forall i :: 0 <= i < |cs| - 1 ==> IsTurn(definitions[keys[i]], explicit, keys[i], cs[i], cs[i + 1]))
    && (crashed <==> |cs| <= |keys|)
    && (crashed ==> IsUnresolvable(definitions[keys[|cs| - 1]], explicit, keys[|cs| - 1], cs[|cs| - 1]))
  }

  lemma TurnsNext(definitions: map<string, Definition>, explicit: map<string, Setting>, keys: seq<string>,
      cs: seq<Container>, key: string, now: Container)
    requires forall k :: k in keys ==> k in definitions
    requires forall k :: k in keys + [key] ==> k in definitions
    requires key in definitions && Turns(definitions, explicit, keys, cs, false)
    requires IsTurn(definitions[key], explicit, key, cs[|cs| - 1], now)
    ensures Turns(definitions, explicit, keys + [key], cs + [now], false)
  {
  }

  lemma TurnsEnd(definitions: map<string, Definition>, explicit: map<string, Setting>, keys: seq<string>,
      cs: seq<Container>, key: string, crashed: bool)
    requires forall k :: k in keys ==> k in definitions
    requires forall k :: k in keys + [key] ==> k in definitions
    requires key in definitions && Turns(definitions, explicit, keys, cs, crashed)
    requires crashed || IsUnresolvable(definitions[key], explicit, key, cs[|cs| - 1])
    ensures Turns(definitions, explicit, keys + [key], cs, true)
  {
  }

  /** The containers found are those that the reference has come to by then. */
  ghost predicate Found(definitions: map<string, Definition>, explicit: map<string, Setting>, container: Container,
      keys: seq<string>, cs: seq<Container>)
    requires forall k :: k in keys ==> k in definitions
  {
    forall i :: 0 <= i < |cs| && i <= |keys| ==>
      ReferenceLoad(definitions, explicit, container, keys[..i]).container == cs[i]
  }

  lemma FoundNext(definitions: map<string, Definition>, explicit: map<string, Setting>, container: Container,
      keys: seq<string>, cs: seq<Container>, key: string)
    requires forall k :: k in keys ==> k in definitions
    requires forall k :: k in keys + [key] ==> k in definitions
    requires |cs| <= |keys| + 1 && Found(definitions, explicit, container, keys, cs)
    ensures Found(definitions, explicit, container, keys + [key], cs)
    ensures |cs| == |keys| + 1 ==>
              Found(definitions, explicit, container, keys + [key],
                    cs + [ReferenceLoad(definitions, explicit, container, keys + [key]).container])
  {
    forall i | 0 <= i <= |keys| ensures (keys + [key])[..i] == keys[..i] {}
    assert (keys + [key])[..|keys| + 1] == keys + [key];
  }

  lemma StepIsTurn(before: Reference, key: string, definition: Definition, explicit: map<string, Setting>)
    requires !before.crashed
    ensures var after := ReferenceStep(before, key, definition, Lookup(explicit, key));
            if after.crashed
            then IsUnresolvable(definition, explicit, key, before.container) && after.container == before.container
            else IsTurn(definition, explicit, key, before.container, after.container)
  {
    StepCases(before, key, definition, explicit);
  }

  ghost predicate Took(definitions: map<string, Definition>, explicit: map<string, Setting>, container: Container,
      keys: seq<string>, cs: seq<Container>)
    requires forall k :: k in keys ==> k in definitions
  {
    var r := ReferenceLoad(definitions, explicit, container, keys);
    && Turns(definitions, explicit, keys, cs, r.crashed)
    && cs[0] == container && cs[|cs| - 1] == r.container
    && Found(definitions, explicit, container, keys, cs)
  }

  lemma TookNext(definitions: map<string, Definition>, explicit: map<string, Setting>, container: Container,
      keys: seq<string>, cs: seq<Container>, key: string) returns (more: seq<Container>)
    requires forall k :: k in keys ==> k in definitions
    requires forall k :: k in keys + [key] ==> k in definitions
    requires key in definitions && Took(definitions, explicit, container, keys, cs)
    ensures Took(definitions, explicit, container, keys + [key], more)
  {
    var r := ReferenceLoad(definitions, explicit, container, keys);
    var now := ReferenceLoad(definitions, explicit, container, keys + [key]);
    FoundNext(definitions, explicit, container, keys, cs, key);
    if !r.crashed {
      StepIsTurn(r, key, definitions[key], explicit);
    }
    if now.crashed {
      TurnsEnd(definitions, explicit, keys, cs, key, r.crashed);
      more := cs;
    } else {
      TurnsNext(definitions, explicit, keys, cs, key, now.container);
      more := cs + [now.container];
    }
  }

  lemma {:induction false} ReferenceTurns(
      definitions: map<string, Definition>, explicit: map<string, Setting>, container: Container, keys: seq<string>)
      returns (cs: seq<Container>)
    requires forall k :: k in keys ==> k in definitions
    ensures Took(definitions, explicit, container, keys, cs)
  {
    if keys == [] {
      cs := [container];
    } else {
      cs := ReferenceTurns(definitions, explicit, container, keys[..|keys| - 1]);
      assert keys == keys[..|keys| - 1] + [keys[|keys| - 1]];
      cs := TookNext(definitions, explicit, container, keys[..|keys| - 1], cs, keys[|keys| - 1]);
    }
  }

  /** However `load` ends, it has taken these turns. */
  lemma LoadTakesTurns(definitions: Record<Definition>, container: Container, merged: Record<Setting>)
      returns (cs: seq<Container>)
    requires definitions.Valid() && merged.Valid()
    ensures var order, p := BindOrder(definitions, merged), BothPasses(definitions, container, merged);
            && Turns(definitions.values, merged.values, order, cs, p.crashed)
            && cs[0] == container && p.container == cs[|cs| - 1]
            && Found(definitions.values, merged.values, container, order, cs)
  {
    LoadRefinesReference(definitions, container, merged);
    cs := ReferenceTurns(definitions.values, merged.values, container, BindOrder(definitions, merged));
  }

  // ----------------------------------------------------- what is left to be registered

  lemma {:induction false} DefaultPassLeaves(p: Progress, definitions: Record<Definition>, keys: seq<string>)
    requires forall k :: k in keys ==> k in definitions.values
    ensures DefaultPass(p, definitions, keys).definitions == p.definitions
  {
    if keys != [] {
      DefaultPassLeaves(p, definitions, keys[..|keys| - 1]);
    }
  }

  /** A `load` that throws its messages has taken the definitions of the explicit keys out, and no others; their order
      is kept. */
  lemma LoadLeavesTheRest(definitions: Record<Definition>, container: Container, merged: Record<Setting>)
    requires definitions.Valid() && merged.Valid()
    requires !BothPasses(definitions, container, merged).crashed
    ensures var left := BothPasses(definitions, container, merged).definitions;
            && left.keys == Drop(definitions.keys, Elements(merged.keys))
            && forall k :: (left.Has(k) <==> definitions.Has(k) && !merged.Has(k))
                           && (left.Has(k) ==> left.values[k] == definitions.values[k])
  {
    var start := Progress(definitions, container, [], false);
    var explicit := ExplicitPass(start, merged, merged.keys);
    ExplicitPassDrains(definitions, container, merged, merged.keys);
    ExplicitPassValid(start, merged, merged.keys);
    DefaultPassLeaves(explicit, explicit.definitions, explicit.definitions.keys);
  }

  /** A key whose explicit value cannot be had leaves everything as it found it. */
  lemma {:induction false} CrashStopsThere(p: Progress, merged: Record<Setting>, ks: seq<string>) returns (c: nat)
    requires !p.crashed && forall k :: k in ks ==> k in merged.values
    requires ExplicitPass(p, merged, ks).crashed
    ensures c < |ks| && forall k :: k in ks[..c] ==> k in merged.values
    ensures var before := ExplicitPass(p, merged, ks[..c]);
            !before.crashed && ExplicitPass(p, merged, ks) == before.(crashed := true)
  {
    var before := ks[..|ks| - 1];
    if ExplicitPass(p, merged, before).crashed {
      c := CrashStopsThere(p, merged, before);
      assert before[..c] == ks[..c];
    } else {
      c := |ks| - 1;
    }
  }

  /** A `load` that crashes on an explicit value has taken out the definitions of the explicit keys before it. */
  lemma CrashLeavesTheRest(definitions: Record<Definition>, container: Container, merged: Record<Setting>)
      returns (c: nat)
    requires definitions.Valid() && merged.Valid()
    requires ExplicitPass(Progress(definitions, container, [], false), merged, merged.keys).crashed
    ensures var left := BothPasses(definitions, container, merged).definitions;
            && c < |merged.keys| && left.keys == Drop(definitions.keys, Elements(merged.keys[..c]))
            && forall k :: (left.Has(k) <==> definitions.Has(k) && k !in merged.keys[..c])
                           && (left.Has(k) ==> left.values[k] == definitions.values[k])
  {
    c := CrashStopsThere(Progress(definitions, container, [], false), merged, merged.keys);
    ExplicitPassDrains(definitions, container, merged, merged.keys[..c]);
  }

  // ------------------------------------------------------------------ whose turn it is

  ghost predicate At<T>(s: seq<T>, i: nat, x: T) {
    i < |s| && s[i] == x
  }

  ghost predicate Before<T(!new)>(s: seq<T>, x: T, y: T) {
    exists i: nat, j: nat :: i < j && At(s, i, x) && At(s, j, y)
  }

  lemma BeforeNext<T(!new)>(s: seq<T>, last: T, x: T, y: T)
    ensures Before(s + [last], x, y) <==> Before(s, x, y) || (x in s && y == last)
  {
    if i: nat, j: nat :| i < j && At(s, i, x) && At(s, j, y) {
      assert At(s + [last], i, x) && At(s + [last], j, y);
    }
    if x in s && y == last {
      var i :| 0 <= i < |s| && s[i] == x;
      assert At(s + [last], i, x) && At(s + [last], |s|, y);
    }
    if i: nat, j: nat :| i < j && At(s + [last], i, x) && At(s + [last], j, y) {
      assert At(s, i, x) && (j < |s| ==> At(s, j, y));
    }
  }

  lemma {:induction false} BeforeConcat<T(!new)>(a: seq<T>, b: seq<T>, x: T, y: T)
    ensures Before(a + b, x, y) <==> Before(a, x, y) || Before(b, x, y) || (x in a && y in b)
    decreases |b|
  {
    if b == [] {
      assert a + b == a;
    } else {
      var rest, last := b[..|b| - 1], b[|b| - 1];
      BeforeConcat(a, rest, x, y);
      BeforeNext(a + rest, last, x, y);
      BeforeNext(rest, last, x, y);
      assert a + b == a + rest + [last] && b == rest + [last];
    }
  }

  lemma {:induction false} KeepBefore(keys: seq<string>, wanted: set<string>, a: string, b: string)
    ensures Before(Keep(keys, wanted), a, b) <==> Before(keys, a, b) && a in wanted && b in wanted
  {
    if keys != [] {
      var rest, last := keys[..|keys| - 1], keys[|keys| - 1];
      KeepBefore(rest, wanted, a, b);
      BeforeNext(rest, last, a, b);
      BeforeNext(Keep(rest, wanted), last, a, b);
      assert keys == rest + [last];
    }
  }

  lemma {:induction false} DropSnoc(keys: seq<string>, unwanted: set<string>, last: string)
    ensures Drop(keys + [last], unwanted)
         == if last in unwanted then Drop(keys, unwanted) else Drop(keys, unwanted) + [last]
  {
    if keys != [] {
      DropSnoc(keys[1..], unwanted, last);
      assert (keys + [last])[1..] == keys[1..] + [last];
    }
  }

  lemma {:induction false} DropBefore(keys: seq<string>, unwanted: set<string>, a: string, b: string)
    ensures Before(Drop(keys, unwanted), a, b) <==> Before(keys, a, b) && a !in unwanted && b !in unwanted
    decreases |keys|
  {
    if keys != [] {
      var rest, last := keys[..|keys| - 1], keys[|keys| - 1];
      DropBefore(rest, unwanted, a, b);
      BeforeNext(rest, last, a, b);
      BeforeNext(Drop(rest, unwanted), last, a, b);
      DropSnoc(rest, unwanted, last);
      assert keys == rest + [last];
    }
  }

  /** Explicit keys take their turns first, as merged; the others follow, as declared. */
  lemma ExplicitKeysFirst(definitions: Record<Definition>, merged: Record<Setting>, a: string, b: string)
    requires definitions.Valid() && merged.Valid() && definitions.Has(a) && definitions.Has(b)
    ensures Before(BindOrder(definitions, merged), a, b) <==>
              if merged.Has(a) then !merged.Has(b) || Before(merged.keys, a, b)
              else !merged.Has(b) && Before(definitions.keys, a, b)
  {
    KeepBefore(merged.keys, definitions.values.Keys, a, b);
    DropBefore(definitions.keys, Elements(merged.keys), a, b);
    BeforeConcat(Keep(merged.keys, definitions.values.Keys), Drop(definitions.keys, Elements(merged.keys)), a, b);
    assert forall k :: k in Elements(merged.keys) <==> merged.Has(k);
    BeforeMembers(merged.keys, a, b);
  }

  lemma BeforeMembers<T(!new)>(s: seq<T>, x: T, y: T)
    ensures Before(s, x, y) ==> x in s && y in s
  {
  }

  // ------------------------------------------------------------------ the merged keys

  lemma LastIsNew(keys: seq<string>)
    requires keys != [] && Distinct(keys)
    ensures Distinct(keys[..|keys| - 1]) && keys[|keys| - 1] !in keys[..|keys| - 1]
  {
  }

  lemma SetAllHas(base: Record<Setting>, layer: Record<Setting>, keys: seq<string>, k: string)
    requires forall x :: x in keys ==> x in layer.values
    ensures k in SetAll(base, layer, keys).values <==> k in keys || k in base.values
  {
    SetAllLookup(base, layer, keys, k);
  }

  lemma SetAllNext(base: Record<Setting>, layer: Record<Setting>, keys: seq<string>, k: string)
    requires k in layer.values && k !in keys && forall x :: x in keys ==> x in layer.values
    ensures var before := SetAll(base, layer, keys).keys;
            SetAll(base, layer, keys + [k]).keys == if k in base.values then before else before + [k]
  {
    SetAllHas(base, layer, keys, k);
  }

  lemma {:induction false} SetAllKeys(base: Record<Setting>, layer: Record<Setting>, keys: seq<string>)
    requires Distinct(keys) && forall k :: k in keys ==> k in layer.values
    ensures SetAll(base, layer, keys).keys == base.keys + Drop(keys, base.values.Keys)
    decreases |keys|
  {
    if keys == [] {
      assert base.keys + [] == base.keys;
    } else {
      var before, last := keys[..|keys| - 1], keys[|keys| - 1];
      LastIsNew(keys);
      SetAllKeys(base, layer, before);
      assert before + [last] == keys;
      SetAllNext(base, layer, before, last);
      DropSnoc(before, base.values.Keys, last);
      Associative(base.keys, Drop(before, base.values.Keys), [last]);
    }
  }

  lemma Overlays(base: Record<Setting>, layer: Record<Setting>)
    requires layer.Valid()
    ensures SetAll(base, layer, layer.keys).keys == base.keys + Drop(layer.keys, base.values.Keys)
    ensures SetAll(base, layer, layer.keys).values.Keys == base.values.Keys + layer.values.Keys
  {
    SetAllKeys(base, layer, layer.keys);
    forall k ensures k in SetAll(base, layer, layer.keys).values <==> k in base.values || k in layer.values {
      SetAllHas(base, layer, layer.keys, k);
    }
  }

  lemma {:induction false} CopyKeys(layer: Record<Setting>, keys: seq<string>)
    requires Distinct(keys) && forall k :: k in keys ==> k in layer.values
    ensures SetAll(Empty(), layer, keys).keys == keys
    decreases |keys|
  {
    if keys != [] {
      var before, last := keys[..|keys| - 1], keys[|keys| - 1];
      LastIsNew(keys);
      CopyKeys(layer, before);
      assert before + [last] == keys;
      SetAllNext(Empty(), layer, before, last);
    }
  }

  lemma CopyHas(layer: Record<Setting>)
    requires layer.Valid()
    ensures SetAll(Empty(), layer, layer.keys).values.Keys == layer.values.Keys
  {
    forall k ensures k in SetAll(Empty(), layer, layer.keys).values <==> k in layer.values {
      SetAllHas(Empty(), layer, layer.keys, k);
    }
  }

  /** The merged keys are those of `configDefaults`, then what the file adds, then what the overrides add, each in
      its own order. */
  lemma MergedKeys(configDefaults: Record<Setting>, file: Record<Setting>, overrides: Record<Setting>)
    requires configDefaults.Valid() && file.Valid() && overrides.Valid()
    ensures Merged(configDefaults, file, overrides).keys
         == configDefaults.keys + Drop(file.keys, configDefaults.values.Keys)
            + Drop(overrides.keys, configDefaults.values.Keys + file.values.Keys)
  {
    var lowest := SetAll(Empty(), configDefaults, configDefaults.keys);
    CopyKeys(configDefaults, configDefaults.keys);
    CopyHas(configDefaults);
    Overlays(lowest, file);
    Overlays(SetAll(lowest, file, file.keys), overrides);
  }

  // ------------------------------------------------------------------------ the messages

  lemma {:induction false} UnknownErrorsBefore(keys: seq<string>, known: set<string>, a: string, b: string)
    ensures Before(UnknownErrors(keys, known), UnknownKey(a), UnknownKey(b))
       <==> Before(keys, a, b) && a !in known && b !in known
    ensures forall e :: e in UnknownErrors(keys, known) <==> e.UnknownKey? && e.key in keys && e.key !in known
  {
    if keys != [] {
      var rest, last := keys[..|keys| - 1], keys[|keys| - 1];
      UnknownErrorsBefore(rest, known, a, b);
      BeforeNext(rest, last, a, b);
      BeforeNext(UnknownErrors(rest, known), UnknownKey(last), UnknownKey(a), UnknownKey(b));
      assert keys == rest + [last];
    }
  }

  lemma {:induction false} RequiredErrorsBefore(keys: seq<string>, a: string, b: string)
    ensures Before(RequiredErrors(keys), RequiredKey(a), RequiredKey(b)) <==> Before(keys, a, b)
  {
    if keys != [] {
      var rest, last := keys[..|keys| - 1], keys[|keys| - 1];
      RequiredErrorsBefore(rest, a, b);
      RequiredErrorsAt(rest);
      BeforeNext(rest, last, a, b);
      BeforeNext(RequiredErrors(rest), RequiredKey(last), RequiredKey(a), RequiredKey(b));
      assert keys == rest + [last];
    }
  }

  lemma UnsatisfiedNext(keys: seq<string>, u: seq<string>, last: string, a: string, b: string)
    requires last !in keys && forall k :: k in u ==> k in keys
    requires Before(u, a, b) <==> Before(keys, a, b) && a in u && b in u
    ensures Before(u, a, b) <==> Before(keys + [last], a, b) && a in u && b in u
    ensures Before(u + [last], a, b) <==> Before(keys + [last], a, b) && a in u + [last] && b in u + [last]
  {
    BeforeNext(keys, last, a, b);
    BeforeNext(u, last, a, b);
    BeforeMembers(keys, a, b);
  }

  lemma {:induction false} UnsatisfiedBefore(
      definitions: map<string, Definition>, explicit: map<string, Setting>, container: Container, keys: seq<string>,
      a: string, b: string)
    requires Distinct(keys) && forall k :: k in keys ==> k in definitions
    ensures var u := ReferenceLoad(definitions, explicit, container, keys).unsatisfied;
            Before(u, a, b) <==> Before(keys, a, b) && a in u && b in u
  {
    if keys != [] {
      var before, last := keys[..|keys| - 1], keys[|keys| - 1];
      LastIsNew(keys);
      UnsatisfiedBefore(definitions, explicit, container, before, a, b);
      UnsatisfiedAreListed(definitions, explicit, container, before);
      var r := ReferenceLoad(definitions, explicit, container, before);
      StepCases(r, last, definitions[last], explicit);
      UnsatisfiedNext(before, r.unsatisfied, last, a, b);
      assert before + [last] == keys;
    }
  }

  /** The messages about unknown keys come first, in the order of the merged keys, and then those about required keys,
      in the order of their turns. */
  lemma MessagesInOrder(definitions: Record<Definition>, container: Container, merged: Record<Setting>,
      e: LoadError, f: LoadError)
    requires definitions.Valid() && merged.Valid()
    requires !BothPasses(definitions, container, merged).crashed
    ensures var errors := BothPasses(definitions, container, merged).errors;
            Before(errors, e, f) <==>
              && e in errors && f in errors
              && match (e, f)
                 case (UnknownKey(a), UnknownKey(b)) => Before(merged.keys, a, b)
                 case (UnknownKey(_), RequiredKey(_)) => true
                 case (RequiredKey(a), RequiredKey(b)) => Before(BindOrder(definitions, merged), a, b)
                 case (RequiredKey(_), UnknownKey(_)) => false
  {
    LoadRefinesReference(definitions, container, merged);
    BindOrderDistinct(definitions, merged);
    var order := BindOrder(definitions, merged);
    var u := ReferenceLoad(definitions.values, merged.values, container, order).unsatisfied;
    UnsatisfiedAreListed(definitions.values, merged.values, container, order);
    UnknownErrorsBefore(merged.keys, definitions.values.Keys, e.key, f.key);
    RequiredErrorsBefore(u, e.key, f.key);
    RequiredErrorsExactly(u);
    UnsatisfiedBefore(definitions.values, merged.values, container, order, e.key, f.key);
    BeforeConcat(UnknownErrors(merged.keys, definitions.values.Keys), RequiredErrors(u), e, f);
    BeforeMembers(UnknownErrors(merged.keys, definitions.values.Keys), e, f);
    BeforeMembers(RequiredErrors(u), e, f);
  }
}
