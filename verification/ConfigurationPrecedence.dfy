/** What `load` guarantees, against a one-pass reference: every registered key in turn takes the value
    of its highest-precedence source. */
module ConfigurationPrecedence {
  import opened Common
  import opened Container
  import opened Configuration

  /** What a setting gives against the container as it stands: a plain value is taken as it is, and a resolver is
      called. */
  ghost predicate Gives(setting: Setting, container: Container, value: Value) {
    match setting
    case Undefined => false
    case Plain(plain) => value == plain
    case Computed(_, resolve) => resolve(container) == Some(value)
  }

  /** `undefined`, or a resolver that fails. */
  ghost predicate GivesNothing(setting: Setting, container: Container) {
    match setting
    case Undefined => true
    case Plain(_) => false
    case Computed(_, resolve) => resolve(container) == None
  }

  lemma ResolvesToWhatItGives(setting: Setting, container: Container, value: Value)
    ensures Resolve(setting, container) == Some(value) <==> Gives(setting, container, value)
    ensures Resolve(setting, container) == None <==> GivesNothing(setting, container)
  {
  }

  /** Resolver `i` gives the value, and none before it gives any. */
  ghost predicate FirstGives(resolvers: seq<Setting>, container: Container, value: Value, i: nat) {
    && i < |resolvers| && Gives(resolvers[i], container, value)
    && forall j :: 0 <= j < i ==> GivesNothing(resolvers[j], container)
  }

  ghost predicate NoneGives(resolvers: seq<Setting>, container: Container) {
    forall j :: 0 <= j < |resolvers| ==> GivesNothing(resolvers[j], container)
  }

  lemma FirstGivesRest(resolvers: seq<Setting>, container: Container, value: Value, i: nat)
    requires resolvers != [] && GivesNothing(resolvers[0], container)
    ensures FirstGives(resolvers, container, value, i + 1) <==> FirstGives(resolvers[1..], container, value, i)
    ensures NoneGives(resolvers, container) <==> NoneGives(resolvers[1..], container)
  {
    var rest := resolvers[1..];
    assert forall j :: 0 < j < |resolvers| ==> resolvers[j] == rest[j - 1];
  }

  /** The first of the resolvers that succeeds decides, and it takes all of them to decide nothing. */
  lemma {:induction false} FirstResolverWins(resolvers: seq<Setting>, container: Container, value: Value)
    ensures FirstResolved(resolvers, container) == Some(value)
       <==> exists i :: FirstGives(resolvers, container, value, i)
    ensures FirstResolved(resolvers, container) == None <==> NoneGives(resolvers, container)
  {
    if resolvers != [] {
      FirstResolverWins(resolvers[1..], container, value);
      if GivesNothing(resolvers[0], container) {
        if i: nat :| FirstGives(resolvers, container, value, i) {
          FirstGivesRest(resolvers, container, value, i - 1);
        }
        if i: nat :| FirstGives(resolvers[1..], container, value, i) {
          FirstGivesRest(resolvers, container, value, i);
        }
        FirstGivesRest(resolvers, container, value, 0);
      } else {
        assert Gives(resolvers[0], container, value) ==> FirstGives(resolvers, container, value, 0);
      }
    }
  }

  /** The value of a key against the container as it stands: what its explicit setting gives; without one, what the
      first of its resolvers that gives anything gives; and if none does, what its default value gives, unless it is
      required. */
  ghost predicate Takes(definition: Definition, explicit: map<string, Setting>, key: string, container: Container,
      value: Value)
  {
    if key in explicit then Gives(explicit[key], container, value)
    else
      || (exists i :: FirstGives(definition.defaultResolvers, container, value, i))
      || (!definition.isRequired && NoneGives(definition.defaultResolvers, container)
          && Gives(definition.defaultValue, container, value))
  }

  /** A required key without an explicit setting, none of whose resolvers gives anything. */
  ghost predicate IsUnsatisfied(definition: Definition, explicit: map<string, Setting>, key: string,
      container: Container)
  {
    key !in explicit && definition.isRequired && NoneGives(definition.defaultResolvers, container)
  }

  /** The explicit setting gives nothing, or, for an optional key without one, neither do the resolvers and the
      default value. */
  ghost predicate IsUnresolvable(definition: Definition, explicit: map<string, Setting>, key: string,
      container: Container)
  {
    if key in explicit then GivesNothing(explicit[key], container)
    else
      && !definition.isRequired && NoneGives(definition.defaultResolvers, container)
      && GivesNothing(definition.defaultValue, container)
  }

  /** The value of a key, resolved against the container as it stands: an explicit setting, else the
      first default resolver that succeeds, else the default value of an optional key. */
  ghost function Winner(definition: Definition, explicit: Option<Setting>, container: Container): Option<Value> {
    match explicit
    case Some(setting) => Resolve(setting, container)
    case None =>
      var resolved := FirstResolved(definition.defaultResolvers, container);
      if resolved.Some? || definition.isRequired then resolved
      else Resolve(definition.defaultValue, container)
  }

  ghost function Lookup<V>(m: map<string, V>, key: string): Option<V> {
    if key in m then Some(m[key]) else None
  }

  lemma WinnerTakes(definition: Definition, explicit: map<string, Setting>, key: string, container: Container,
      value: Value)
    ensures Winner(definition, Lookup(explicit, key), container) == Some(value)
       <==> Takes(definition, explicit, key, container, value)
  {
    FirstResolverWins(definition.defaultResolvers, container, value);
    if FirstResolved(definition.defaultResolvers, container).Some? {
      FirstResolverWins(
        definition.defaultResolvers, container, FirstResolved(definition.defaultResolvers, container).value);
    }
  }

  lemma WinnerLacks(definition: Definition, explicit: map<string, Setting>, key: string, container: Container)
    ensures Winner(definition, Lookup(explicit, key), container) == None
       <==> IsUnsatisfied(definition, explicit, key, container)
            || IsUnresolvable(definition, explicit, key, container)
  {
    var resolved := FirstResolved(definition.defaultResolvers, container);
    FirstResolverWins(definition.defaultResolvers, container, if resolved.Some? then resolved.value else Flag(true));
  }

  datatype Reference = Reference(container: Container, unsatisfied: seq<string>, crashed: bool)

  ghost function ReferenceStep(before: Reference, key: string, definition: Definition,
      explicit: Option<Setting>): Reference
  {
    match Winner(definition, explicit, before.container)
    case Some(value) => before.(container := RegisterValue(before.container, key, value))
    case None =>
      if explicit.None? && definition.isRequired then before.(unsatisfied := before.unsatisfied + [key])
      else before.(crashed := true)
  }

  /** A step binds the value that its key takes, or, without changing the container, notes that there is none. */
  lemma StepCases(before: Reference, key: string, definition: Definition, explicit: map<string, Setting>)
    ensures var after, c := ReferenceStep(before, key, definition, Lookup(explicit, key)), before.container;
            if IsUnsatisfied(definition, explicit, key, c) then
              after == Reference(c, before.unsatisfied + [key], before.crashed)
            else if IsUnresolvable(definition, explicit, key, c) then after == Reference(c, before.unsatisfied, true)
            else
              exists value ::
                && Takes(definition, explicit, key, c, value)
                && after == Reference(Container(c.registrations, c.bindings + [Binding("%" + key + "%", value)]),
                                      before.unsatisfied, before.crashed)
  {
    WinnerLacks(definition, explicit, key, before.container);
    var winner := Winner(definition, Lookup(explicit, key), before.container);
    if winner.Some? {
      WinnerTakes(definition, explicit, key, before.container, winner.value);
    }
  }

  /** One pass over `keys`, binding each to its winner. */
  ghost function ReferenceLoad(
      definitions: map<string, Definition>, explicit: map<string, Setting>, container: Container,
      keys: seq<string>): Reference
    requires forall k :: k in keys ==> k in definitions
  {
    if keys == [] then Reference(container, [], false)
    else
      var key := keys[|keys| - 1];
      var before := ReferenceLoad(definitions, explicit, container, keys[..|keys| - 1]);
      if before.crashed then before
      else ReferenceStep(before, key, definitions[key], Lookup(explicit, key))
  }

  /** The keys that are, or are not, in a set; in order. */
  ghost function Keep(keys: seq<string>, wanted: set<string>): (r: seq<string>)
    ensures forall k :: k in r <==> k in keys && k in wanted
  {
    if keys == [] then []
    else if keys[|keys| - 1] in wanted then Keep(keys[..|keys| - 1], wanted) + [keys[|keys| - 1]]
    else Keep(keys[..|keys| - 1], wanted)
  }

  ghost function Drop(keys: seq<string>, unwanted: set<string>): (r: seq<string>)
    ensures forall k :: k in r <==> k in keys && k !in unwanted
  {
    if keys == [] then []
    else if keys[0] in unwanted then Drop(keys[1..], unwanted)
    else [keys[0]] + Drop(keys[1..], unwanted)
  }

  /** Explicit keys in the order of the merged sources, then the remaining definitions. */
  ghost function BindOrder(definitions: Record<Definition>, explicit: Record<Setting>): (r: seq<string>)
    requires definitions.Valid()
    ensures forall k :: k in r <==> k in definitions.values
  {
    Keep(explicit.keys, definitions.values.Keys) + Drop(definitions.keys, Elements(explicit.keys))
  }

  ghost function UnknownErrors(keys: seq<string>, definitions: set<string>): seq<LoadError> {
    if keys == [] then []
    else if keys[|keys| - 1] in definitions then UnknownErrors(keys[..|keys| - 1], definitions)
    else UnknownErrors(keys[..|keys| - 1], definitions) + [UnknownKey(keys[|keys| - 1])]
  }

  ghost function RequiredErrors(keys: seq<string>): seq<LoadError> {
    if keys == [] then []
    else RequiredErrors(keys[..|keys| - 1]) + [RequiredKey(keys[|keys| - 1])]
  }

  // ------------------------------------------------------------- drained definitions

  lemma {:induction false} WithoutDrop(keys: seq<string>, unwanted: set<string>, k: string)
    ensures Without(Drop(keys, unwanted), k) == Drop(keys, unwanted + {k})
  {
    if keys != [] {
      WithoutDrop(keys[1..], unwanted, k);
      if keys[0] !in unwanted {
        var rest := Drop(keys[1..], unwanted);
        assert ([keys[0]] + rest)[1..] == rest;
      }
    }
  }

  lemma {:induction false} DropAbsent(keys: seq<string>, unwanted: set<string>, k: string)
    requires k !in keys
    ensures Drop(keys, unwanted + {k}) == Drop(keys, unwanted)
  {
    if keys != [] {
      DropAbsent(keys[1..], unwanted, k);
    }
  }

  lemma {:induction false} DropNothing(keys: seq<string>)
    ensures Drop(keys, {}) == keys
  {
    if keys != [] {
      DropNothing(keys[1..]);
    }
  }

  /** After the explicit keys `ks`, unless an explicit value failed to resolve. */
  ghost predicate DrainedTo(definitions: Record<Definition>, p: Progress, ks: seq<string>) {
    && p.definitions.keys == Drop(definitions.keys, Elements(ks))
    && p.definitions.values == definitions.values - Elements(ks)
    && p.errors == UnknownErrors(ks, definitions.values.Keys)
  }

  lemma ElementsSnoc(ks: seq<string>, k: string)
    ensures Elements(ks + [k]) == Elements(ks) + {k}
  {
  }

  lemma UnknownDrains(definitions: Record<Definition>, p: Progress, ks: seq<string>, key: string)
    requires definitions.Valid() && DrainedTo(definitions, p, ks) && key !in definitions.values
    ensures DrainedTo(definitions, p.(errors := p.errors + [UnknownKey(key)]), ks + [key])
  {
    ElementsSnoc(ks, key);
    DropAbsent(definitions.keys, Elements(ks), key);
    SubtractAbsent(definitions.values, Elements(ks), key);
  }

  lemma SubtractAbsent<V>(m: map<string, V>, unwanted: set<string>, key: string)
    requires key !in m
    ensures m - unwanted == m - (unwanted + {key})
  {
  }

  lemma KnownDrains(definitions: Record<Definition>, p: Progress, container: Container, ks: seq<string>, key: string)
    requires DrainedTo(definitions, p, ks) && key in definitions.values
    ensures DrainedTo(definitions, p.(container := container, definitions := p.definitions.Delete(key)), ks + [key])
  {
    ElementsSnoc(ks, key);
    WithoutDrop(definitions.keys, Elements(ks), key);
    SubtractTwice(definitions.values, Elements(ks), key);
  }

  lemma SubtractTwice<V>(m: map<string, V>, unwanted: set<string>, key: string)
    ensures m - unwanted - {key} == m - (unwanted + {key})
  {
  }

  ghost predicate Agrees(p: Progress, r: Reference) {
    p.crashed == r.crashed && p.container == r.container
  }

  /** The pass over the explicit keys `ks`, its reference, and what the pass leaves. */
  ghost predicate Drains(definitions: Record<Definition>, container: Container, merged: Record<Setting>,
      ks: seq<string>)
    requires forall k :: k in ks ==> k in merged.values
  {
    var p := ExplicitPass(Progress(definitions, container, [], false), merged, ks);
    var r := ReferenceLoad(definitions.values, merged.values, container, Keep(ks, definitions.values.Keys));
    Agrees(p, r) && r.unsatisfied == [] && (!p.crashed ==> DrainedTo(definitions, p, ks))
  }

  lemma NothingDrains(definitions: Record<Definition>, container: Container, merged: Record<Setting>)
    ensures Drains(definitions, container, merged, [])
  {
    DropNothing(definitions.keys);
    assert Elements<string>([]) == {};
    assert definitions.values - {} == definitions.values;
  }

  lemma {:induction false} ExplicitPassDrains(
      definitions: Record<Definition>, container: Container, merged: Record<Setting>, ks: seq<string>)
    requires definitions.Valid() && Distinct(ks) && forall k :: k in ks ==> k in merged.values
    ensures Drains(definitions, container, merged, ks)
    decreases |ks|, 0
  {
    if ks == [] {
      NothingDrains(definitions, container, merged);
    } else {
      var before, key := ks[..|ks| - 1], ks[|ks| - 1];
      assert before + [key] == ks && key !in before;
      DrainsNext(definitions, container, merged, before, key);
    }
  }

  lemma {:induction false} DrainsNext(
      definitions: Record<Definition>, container: Container, merged: Record<Setting>, ks: seq<string>, key: string)
    requires definitions.Valid() && Distinct(ks) && key !in ks && forall k :: k in ks + [key] ==> k in merged.values
    ensures Drains(definitions, container, merged, ks + [key])
    decreases |ks|, 1
  {
    assert key in ks + [key] && forall k :: k in ks ==> k in ks + [key];
    ExplicitPassDrains(definitions, container, merged, ks);
    var known := Keep(ks, definitions.values.Keys);
    var p := ExplicitPass(Progress(definitions, container, [], false), merged, ks);
    var r := ReferenceLoad(definitions.values, merged.values, container, known);
    ExplicitSnoc(Progress(definitions, container, [], false), merged, ks, key);
    KeepSnoc(ks, key, definitions.values.Keys);
    if !p.crashed {
      ExplicitNext(definitions, p, r, ks, key, merged.values);
    }
  }

  lemma ExplicitSnoc(p: Progress, merged: Record<Setting>, ks: seq<string>, key: string)
    requires key in merged.values && (forall k :: k in ks ==> k in merged.values)
    ensures var before := ExplicitPass(p, merged, ks);
            ExplicitPass(p, merged, ks + [key])
            == if before.crashed then before else ExplicitStep(before, key, merged.values[key])
  {
  }

  lemma KeepSnoc(ks: seq<string>, key: string, wanted: set<string>)
    ensures Keep(ks + [key], wanted) == if key in wanted then Keep(ks, wanted) + [key] else Keep(ks, wanted)
  {
  }

  lemma ExplicitNext(
      definitions: Record<Definition>, p: Progress, r: Reference, ks: seq<string>, key: string,
      explicit: map<string, Setting>)
    requires definitions.Valid() && key !in ks && key in explicit
    requires Agrees(p, r) && !p.crashed && r.unsatisfied == [] && DrainedTo(definitions, p, ks)
    ensures var p' := ExplicitStep(p, key, explicit[key]);
            var r' := if key in definitions.values
                      then ReferenceStep(r, key, definitions.values[key], Lookup(explicit, key)) else r;
            && Agrees(p', r') && r'.unsatisfied == []
            && (!p'.crashed ==> DrainedTo(definitions, p', ks + [key]))
  {
    assert p.definitions.Has(key) <==> key in definitions.values;
    if key in definitions.values {
      KnownDrains(definitions, p, ExplicitStep(p, key, explicit[key]).container, ks, key);
    } else {
      UnknownDrains(definitions, p, ks, key);
    }
  }

  /** One definition left to its defaults, in the pass and in the reference. */
  lemma DefaultNext(p: Progress, r: Reference, earlier: seq<LoadError>, key: string, definition: Definition)
    requires Agrees(p, r) && p.errors == earlier + RequiredErrors(r.unsatisfied)
    ensures var p' := DefaultStep(p, key, definition);
            var r' := ReferenceStep(r, key, definition, None);
            Agrees(p', r') && p'.errors == earlier + RequiredErrors(r'.unsatisfied)
  {
  }

  lemma {:induction false} DefaultPassFollows(
      definitions: map<string, Definition>, explicit: map<string, Setting>, container: Container, known: seq<string>,
      p: Progress, remaining: Record<Definition>, ks: seq<string>)
    requires forall k :: k in known ==> k in definitions
    requires forall k :: k in ks ==> k in remaining.values && k in definitions && k !in explicit
    requires forall k :: k in remaining.values && k in definitions ==> remaining.values[k] == definitions[k]
    requires var r := ReferenceLoad(definitions, explicit, container, known);
             Agrees(p, r) && !p.crashed && r.unsatisfied == []
    ensures var p' := DefaultPass(p, remaining, ks);
            var r' := ReferenceLoad(definitions, explicit, container, known + ks);
            Agrees(p', r') && p'.errors == p.errors + RequiredErrors(r'.unsatisfied)
  {
    if ks == [] {
      assert known + ks == known;
    } else {
      var before, key := ks[..|ks| - 1], ks[|ks| - 1];
      DefaultPassFollows(definitions, explicit, container, known, p, remaining, before);
      assert known + ks == (known + before) + [key];
      DefaultNext(DefaultPass(p, remaining, before), ReferenceLoad(definitions, explicit, container, known + before),
                  p.errors, key, definitions[key]);
    }
  }

  lemma {:induction false} CrashPersists(
      definitions: map<string, Definition>, explicit: map<string, Setting>, container: Container, a: seq<string>,
      b: seq<string>)
    requires forall k :: k in a + b ==> k in definitions
    requires forall k :: k in a ==> k in definitions
    requires ReferenceLoad(definitions, explicit, container, a).crashed
    ensures ReferenceLoad(definitions, explicit, container, a + b) == ReferenceLoad(definitions, explicit, container, a)
    decreases |b|
  {
    if b == [] {
      assert a + b == a;
    } else {
      assert (a + b)[..|a + b| - 1] == a + b[..|b| - 1];
      assert forall k :: k in a + b[..|b| - 1] ==> k in a + b;
      CrashPersists(definitions, explicit, container, a, b[..|b| - 1]);
    }
  }

  /** The two draining passes do what the one-pass reference does: same container, same failure, and one
      message per unknown explicit key followed by one per unsatisfied required key. */
  lemma LoadRefinesReference(definitions: Record<Definition>, container: Container, merged: Record<Setting>)
    requires definitions.Valid() && merged.Valid()
    ensures var p := BothPasses(definitions, container, merged);
            var r := ReferenceLoad(definitions.values, merged.values, container, BindOrder(definitions, merged));
            && p.crashed == r.crashed && p.container == r.container
            && (!p.crashed ==>
                  p.errors == UnknownErrors(merged.keys, definitions.values.Keys) + RequiredErrors(r.unsatisfied))
  {
    var start := Progress(definitions, container, [], false);
    var p := ExplicitPass(start, merged, merged.keys);
    var known := Keep(merged.keys, definitions.values.Keys);
    var rest := Drop(definitions.keys, Elements(merged.keys));
    ExplicitPassDrains(definitions, container, merged, merged.keys);
    if p.crashed {
      CrashPersists(definitions.values, merged.values, container, known, rest);
    } else {
      ExplicitPassValid(start, merged, merged.keys);
      DefaultPassFollows(definitions.values, merged.values, container, known, p, p.definitions, rest);
    }
  }

  // ------------------------------------------------------------------ precedence

  /** Overrides beat the configuration file, which beats the modules' `configDefaults`. */
  ghost function Explicit(overrides: Record<Setting>, file: Record<Setting>, configDefaults: Record<Setting>,
      key: string): Option<Setting>
  {
    if overrides.Has(key) then Some(overrides.values[key])
    else if file.Has(key) then Some(file.values[key])
    else Lookup(configDefaults.values, key)
  }

  lemma {:induction false} SetAllLookup(base: Record<Setting>, layer: Record<Setting>, keys: seq<string>, key: string)
    requires forall k :: k in keys ==> k in layer.values
    ensures Lookup(SetAll(base, layer, keys).values, key)
         == if key in keys then Some(layer.values[key]) else Lookup(base.values, key)
  {
    if keys != [] {
      SetAllLookup(base, layer, keys[..|keys| - 1], key);
    }
  }

  lemma MergedIsExplicit(configDefaults: Record<Setting>, file: Record<Setting>, overrides: Record<Setting>,
      key: string)
    requires configDefaults.Valid() && file.Valid() && overrides.Valid()
    ensures Lookup(Merged(configDefaults, file, overrides).values, key)
            == Explicit(overrides, file, configDefaults, key)
  {
    var lowest := SetAll(Empty(), configDefaults, configDefaults.keys);
    var middle := SetAll(lowest, file, file.keys);
    SetAllLookup(Empty(), configDefaults, configDefaults.keys, key);
    SetAllLookup(lowest, file, file.keys, key);
    SetAllLookup(middle, overrides, overrides.keys, key);
  }

  // ----------------------------------------------------- each key bound exactly once

  lemma {:induction false} KeepDistinct(keys: seq<string>, wanted: set<string>)
    requires Distinct(keys)
    ensures Distinct(Keep(keys, wanted))
  {
    if keys != [] {
      KeepDistinct(keys[..|keys| - 1], wanted);
    }
  }

  lemma {:induction false} DropDistinct(keys: seq<string>, unwanted: set<string>)
    requires Distinct(keys)
    ensures Distinct(Drop(keys, unwanted))
  {
    if keys != [] {
      DropDistinct(keys[1..], unwanted);
      forall i | 0 <= i < |keys[1..]| ensures keys[1..][i] != keys[0] {
        assert keys[i + 1] != keys[0];
      }
      assert keys[0] !in Drop(keys[1..], unwanted);
    }
  }

  lemma BindOrderDistinct(definitions: Record<Definition>, explicit: Record<Setting>)
    requires definitions.Valid() && explicit.Valid()
    ensures Distinct(BindOrder(definitions, explicit))
  {
    var a := Keep(explicit.keys, definitions.values.Keys);
    var b := Drop(definitions.keys, Elements(explicit.keys));
    KeepDistinct(explicit.keys, definitions.values.Keys);
    DropDistinct(definitions.keys, Elements(explicit.keys));
    forall i, j | 0 <= i < j < |a + b| ensures (a + b)[i] != (a + b)[j] {
      if i < |a| <= j {
        assert a[i] in a && b[j - |a|] in b;
      }
    }
  }

  lemma TokenInjective(a: string, b: string)
    requires Token(a) == Token(b)
    ensures a == b
  {
    assert Token(a)[1..|Token(a)| - 1] == a && Token(b)[1..|Token(b)| - 1] == b;
  }

  /** `added` binds the listed keys, in order, each under its token to the value that it takes at its turn. */
  ghost predicate BindsEach(
      definitions: map<string, Definition>, explicit: map<string, Setting>, container: Container,
      keys: seq<string>, added: seq<Binding>)
    requires forall k :: k in keys ==> k in definitions
  {
    && |added| == |keys|
    && forall i :: 0 <= i < |keys| ==>
         && added[i].key == "%" + keys[i] + "%"
         && Takes(definitions[keys[i]], explicit, keys[i],
                  Container(container.registrations, container.bindings + added[..i]), added[i].value)
  }

  lemma BindsEachNext(
      definitions: map<string, Definition>, explicit: map<string, Setting>, container: Container,
      keys: seq<string>, added: seq<Binding>, key: string, value: Value)
    requires forall k :: k in keys + [key] ==> k in definitions
    requires forall k :: k in keys ==> k in definitions
    requires key in keys + [key] && BindsEach(definitions, explicit, container, keys, added)
    requires Takes(definitions[key], explicit, key,
                   Container(container.registrations, container.bindings + added), value)
    ensures BindsEach(definitions, explicit, container, keys + [key], added + [Binding("%" + key + "%", value)])
  {
    var more, last := added + [Binding("%" + key + "%", value)], |keys|;
    assert more[..last] == added;
    forall i | 0 <= i < last ensures more[..i] == added[..i] {}
  }

  lemma {:induction false} ReferenceBindsEach(
      definitions: map<string, Definition>, explicit: map<string, Setting>, container: Container, keys: seq<string>)
      returns (added: seq<Binding>)
    requires forall k :: k in keys ==> k in definitions
    requires var r := ReferenceLoad(definitions, explicit, container, keys); !r.crashed && r.unsatisfied == []
    ensures ReferenceLoad(definitions, explicit, container, keys).container
         == Container(container.registrations, container.bindings + added)
    ensures BindsEach(definitions, explicit, container, keys, added)
  {
    if keys == [] {
      added := [];
      assert container.bindings + added == container.bindings;
    } else {
      var before, key := keys[..|keys| - 1], keys[|keys| - 1];
      added := ReferenceBindsEach(definitions, explicit, container, before);
      var c := ReferenceLoad(definitions, explicit, container, before).container;
      var value := Winner(definitions[key], Lookup(explicit, key), c).value;
      WinnerTakes(definitions[key], explicit, key, c, value);
      assert before + [key] == keys;
      BindsEachNext(definitions, explicit, container, before, added, key, value);
      Associative(container.bindings, added, [Binding("%" + key + "%", value)]);
      added := added + [Binding("%" + key + "%", value)];
    }
  }

  /** After a successful `load`, the container has gained exactly one binding per registered key, each to
      the highest-precedence source, resolved against the container at that step. */
  lemma LoadedBindsEachKeyOnce(definitions: Record<Definition>, container: Container, merged: Record<Setting>)
      returns (added: seq<Binding>)
    requires definitions.Valid() && merged.Valid()
    requires Outcome(BothPasses(definitions, container, merged)).Loaded?
    ensures BothPasses(definitions, container, merged).container
         == Container(container.registrations, container.bindings + added)
    ensures var order := BindOrder(definitions, merged);
            && Distinct(order) && (forall k :: k in order <==> k in definitions.values)
            && BindsEach(definitions.values, merged.values, container, order, added)
  {
    LoadRefinesReference(definitions, container, merged);
    BindOrderDistinct(definitions, merged);
    var order := BindOrder(definitions, merged);
    var r := ReferenceLoad(definitions.values, merged.values, container, order);
    assert r.unsatisfied == [] by {
      assert RequiredErrors(r.unsatisfied) == [];
    }
    added := ReferenceBindsEach(definitions.values, merged.values, container, order);
  }

  // ------------------------------------------------------ when it throws, and for what

  lemma {:induction false} UnknownErrorsExactly(keys: seq<string>, known: set<string>)
    requires Distinct(keys)
    ensures Distinct(UnknownErrors(keys, known))
    ensures forall e :: e in UnknownErrors(keys, known) <==> e.UnknownKey? && e.key in keys && e.key !in known
  {
    if keys != [] {
      UnknownErrorsExactly(keys[..|keys| - 1], known);
    }
  }

  lemma {:induction false} RequiredErrorsAt(keys: seq<string>)
    ensures |RequiredErrors(keys)| == |keys|
    ensures forall i :: 0 <= i < |keys| ==> RequiredErrors(keys)[i] == RequiredKey(keys[i])
  {
    if keys != [] {
      RequiredErrorsAt(keys[..|keys| - 1]);
    }
  }

  lemma RequiredErrorsExactly(keys: seq<string>)
    requires Distinct(keys)
    ensures Distinct(RequiredErrors(keys))
    ensures forall e :: e in RequiredErrors(keys) <==> e.RequiredKey? && e.key in keys
  {
    RequiredErrorsAt(keys);
    forall e: LoadError | e.RequiredKey? && e.key in keys ensures e in RequiredErrors(keys) {
      var i :| 0 <= i < |keys| && keys[i] == e.key;
      assert RequiredErrors(keys)[i] == e;
    }
  }

  /** A required key is unsatisfied when, at its turn, it is not explicit and no resolver succeeds. */
  ghost predicate UnsatisfiedAt(
      definitions: map<string, Definition>, explicit: map<string, Setting>, container: Container, keys: seq<string>,
      i: nat)
    requires i < |keys| && forall k :: k in keys ==> k in definitions
  {
    IsUnsatisfied(definitions[keys[i]], explicit, keys[i],
                  ReferenceLoad(definitions, explicit, container, keys[..i]).container)
  }

  lemma {:induction false} UnsatisfiedAreListed(
      definitions: map<string, Definition>, explicit: map<string, Setting>, container: Container, keys: seq<string>)
    requires Distinct(keys) && forall k :: k in keys ==> k in definitions
    ensures var u := ReferenceLoad(definitions, explicit, container, keys).unsatisfied;
            Distinct(u) && forall k :: k in u ==> k in keys
  {
    if keys != [] {
      var before, key := keys[..|keys| - 1], keys[|keys| - 1];
      UnsatisfiedAreListed(definitions, explicit, container, before);
      forall i | 0 <= i < |before| ensures before[i] != key {
        assert keys[i] != keys[|keys| - 1];
      }
      assert key !in before;
      var u := ReferenceLoad(definitions, explicit, container, before).unsatisfied;
      assert Distinct(u + [key]);
      assert forall k :: k in before ==> k in keys;
    }
  }

  lemma {:induction false} UnsatisfiedExactly(
      definitions: map<string, Definition>, explicit: map<string, Setting>, container: Container, keys: seq<string>)
    requires Distinct(keys) && forall k :: k in keys ==> k in definitions
    requires !ReferenceLoad(definitions, explicit, container, keys).crashed
    ensures forall i :: 0 <= i < |keys| ==>
              (keys[i] in ReferenceLoad(definitions, explicit, container, keys).unsatisfied
               <==> UnsatisfiedAt(definitions, explicit, container, keys, i))
  {
    if keys != [] {
      var before, key := keys[..|keys| - 1], keys[|keys| - 1];
      UnsatisfiedExactly(definitions, explicit, container, before);
      UnsatisfiedAreListed(definitions, explicit, container, before);
      var u := ReferenceLoad(definitions, explicit, container, keys).unsatisfied;
      StepCases(ReferenceLoad(definitions, explicit, container, before), key, definitions[key], explicit);
      forall i | 0 <= i < |keys|
        ensures keys[i] in u <==> UnsatisfiedAt(definitions, explicit, container, keys, i) {
        assert keys[..i] == if i < |before| then before[..i] else before;
        if i < |before| {
          assert keys[i] == before[i] && keys[i] != key;
        }
      }
    }
  }

  /** The collected messages: one for each unknown explicit key and each unsatisfied required key. */
  lemma LoadErrorsExactly(definitions: Record<Definition>, container: Container, merged: Record<Setting>)
    requires definitions.Valid() && merged.Valid()
    requires !BothPasses(definitions, container, merged).crashed
    ensures var p := BothPasses(definitions, container, merged);
            var u := ReferenceLoad(definitions.values, merged.values, container,
                BindOrder(definitions, merged)).unsatisfied;
            && Distinct(p.errors)
            && (forall k :: UnknownKey(k) in p.errors <==> k in merged.values && k !in definitions.values)
            && (forall k :: RequiredKey(k) in p.errors <==> k in u)
            && (forall k :: k in u ==> k in definitions.values)
  {
    LoadRefinesReference(definitions, container, merged);
    BindOrderDistinct(definitions, merged);
    UnsatisfiedAreListed(definitions.values, merged.values, container, BindOrder(definitions, merged));
    var u := ReferenceLoad(definitions.values, merged.values, container, BindOrder(definitions, merged)).unsatisfied;
    UnknownErrorsExactly(merged.keys, definitions.values.Keys);
    RequiredErrorsExactly(u);
    JoinedErrors(UnknownErrors(merged.keys, definitions.values.Keys), RequiredErrors(u));
  }

  /** A required key has a message exactly when it is unsatisfied at its turn. */
  lemma RequiredMessageIffUnsatisfied(definitions: Record<Definition>, container: Container, merged: Record<Setting>,
      i: nat)
    requires definitions.Valid() && merged.Valid() && i < |BindOrder(definitions, merged)|
    requires !BothPasses(definitions, container, merged).crashed
    ensures RequiredKey(BindOrder(definitions, merged)[i]) in BothPasses(definitions, container, merged).errors
       <==> UnsatisfiedAt(definitions.values, merged.values, container, BindOrder(definitions, merged), i)
  {
    LoadRefinesReference(definitions, container, merged);
    LoadErrorsExactly(definitions, container, merged);
    BindOrderDistinct(definitions, merged);
    UnsatisfiedExactly(definitions.values, merged.values, container, BindOrder(definitions, merged));
  }

  /** A value cannot be had when, at its turn, the explicit setting fails to resolve, or, for an optional key
      that is not explicit, every resolver and then the default value. */
  ghost predicate UnresolvableAt(
      definitions: map<string, Definition>, explicit: map<string, Setting>, container: Container, keys: seq<string>,
      i: nat)
    requires i < |keys| && forall k :: k in keys ==> k in definitions
  {
    IsUnresolvable(definitions[keys[i]], explicit, keys[i],
                   ReferenceLoad(definitions, explicit, container, keys[..i]).container)
  }

  lemma {:induction false} CrashesExactlyWhen(
      definitions: map<string, Definition>, explicit: map<string, Setting>, container: Container, keys: seq<string>)
    requires forall k :: k in keys ==> k in definitions
    ensures ReferenceLoad(definitions, explicit, container, keys).crashed
       <==> exists i :: 0 <= i < |keys| && UnresolvableAt(definitions, explicit, container, keys, i)
  {
    if keys != [] {
      var before, last := keys[..|keys| - 1], |keys| - 1;
      CrashesExactlyWhen(definitions, explicit, container, before);
      forall i | 0 <= i < last
        ensures UnresolvableAt(definitions, explicit, container, keys, i)
           <==> UnresolvableAt(definitions, explicit, container, before, i)
      {
        assert keys[..i] == before[..i];
      }
      StepCases(ReferenceLoad(definitions, explicit, container, before), keys[last], definitions[keys[last]], explicit);
      assert ReferenceLoad(definitions, explicit, container, keys).crashed
        <==> ReferenceLoad(definitions, explicit, container, before).crashed
             || UnresolvableAt(definitions, explicit, container, keys, last);
    }
  }

  ghost predicate SomeUnresolvable(definitions: Record<Definition>, container: Container, merged: Record<Setting>)
    requires definitions.Valid()
  {
    exists i :: 0 <= i < |BindOrder(definitions, merged)| &&
      UnresolvableAt(definitions.values, merged.values, container, BindOrder(definitions, merged), i)
  }

  ghost predicate SomeUnsatisfied(definitions: Record<Definition>, container: Container, merged: Record<Setting>)
    requires definitions.Valid()
  {
    exists i :: 0 <= i < |BindOrder(definitions, merged)| &&
      UnsatisfiedAt(definitions.values, merged.values, container, BindOrder(definitions, merged), i)
  }

  ghost predicate SomeUnknown(definitions: Record<Definition>, merged: Record<Setting>) {
    exists k :: k in merged.values && k !in definitions.values
  }

  /** How `load` ends: a value that cannot be had stops it at once, whatever has been collected by then;
      otherwise it throws its messages exactly when an explicit key is unknown or a required key unsatisfied. */
  lemma LoadThrowsExactlyWhen(definitions: Record<Definition>, container: Container, merged: Record<Setting>)
    requires definitions.Valid() && merged.Valid()
    ensures var outcome := Outcome(BothPasses(definitions, container, merged));
            && (outcome.Crashed? <==> SomeUnresolvable(definitions, container, merged))
            && (outcome.Invalid? <==>
                  && !SomeUnresolvable(definitions, container, merged)
                  && (SomeUnknown(definitions, merged) || SomeUnsatisfied(definitions, container, merged)))
  {
    LoadRefinesReference(definitions, container, merged);
    CrashesExactlyWhen(definitions.values, merged.values, container, BindOrder(definitions, merged));
    if !BothPasses(definitions, container, merged).crashed {
      CollectsExactlyWhen(definitions, container, merged);
    }
  }

  lemma CollectsExactlyWhen(definitions: Record<Definition>, container: Container, merged: Record<Setting>)
    requires definitions.Valid() && merged.Valid()
    requires !BothPasses(definitions, container, merged).crashed
    ensures BothPasses(definitions, container, merged).errors != [] <==>
              SomeUnknown(definitions, merged) || SomeUnsatisfied(definitions, container, merged)
  {
    LoadErrorsExactly(definitions, container, merged);
    var order, errors := BindOrder(definitions, merged), BothPasses(definitions, container, merged).errors;
    if errors != [] && errors[0].RequiredKey? {
      assert RequiredKey(errors[0].key) in errors;
      var i :| 0 <= i < |order| && order[i] == errors[0].key;
      RequiredMessageIffUnsatisfied(definitions, container, merged, i);
    } else if errors != [] {
      assert UnknownKey(errors[0].key) in errors;
    } else {
      forall k | k in merged.values ensures k in definitions.values {
        assert UnknownKey(k) !in errors;
      }
      forall i | 0 <= i < |order| ensures !UnsatisfiedAt(definitions.values, merged.values, container, order, i) {
        RequiredMessageIffUnsatisfied(definitions, container, merged, i);
      }
    }
  }

  lemma JoinedErrors(a: seq<LoadError>, b: seq<LoadError>)
    requires Distinct(a) && Distinct(b)
    requires (forall e :: e in a ==> e.UnknownKey?) && forall e :: e in b ==> e.RequiredKey?
    ensures Distinct(a + b)
  {
    forall i, j | 0 <= i < j < |a + b| ensures (a + b)[i] != (a + b)[j] {
      if i < |a| <= j {
        assert a[i] in a && b[j - |a|] in b;
      }
    }
  }

  // -------------------------------------------------- the non-mutating check before load

  lemma {:induction false} MissingListed(definitions: Record<Definition>, keys: seq<string>, overrides: Record<Setting>)
    requires forall k :: k in keys ==> k in definitions.values
    ensures forall m :: m in MissingOf(definitions, keys, overrides) <==>
              && m.parameterName in keys
              && IsMissing(definitions.values[m.parameterName], overrides, m.parameterName)
              && m.hasDefaultResolvers == (|definitions.values[m.parameterName].defaultResolvers| > 0)
  {
    if keys != [] {
      MissingListed(definitions, keys[..|keys| - 1], overrides);
    }
  }

  /** `getMissingRequiredParameters` over-approximates `load`: every key `load` reports as required was
      listed for the same overrides. */
  lemma RequiredErrorsWereListed(
      definitions: Record<Definition>, container: Container, configDefaults: Record<Setting>, file: Record<Setting>,
      overrides: Record<Setting>, key: string)
    requires definitions.Valid() && configDefaults.Valid() && file.Valid() && overrides.Valid()
    requires var p := BothPasses(definitions, container, Merged(configDefaults, file, overrides));
             !p.crashed && RequiredKey(key) in p.errors
    ensures key in definitions.values
    ensures Missing(key, |definitions.values[key].defaultResolvers| > 0)
         in MissingOf(definitions, definitions.keys, overrides)
  {
    var merged := Merged(configDefaults, file, overrides);
    LoadErrorsExactly(definitions, container, merged);
    var order := BindOrder(definitions, merged);
    var i :| 0 <= i < |order| && order[i] == key;
    RequiredMessageIffUnsatisfied(definitions, container, merged, i);
    MergedIsExplicit(configDefaults, file, overrides, key);
    MissingListed(definitions, definitions.keys, overrides);
    assert IsMissing(definitions.values[key], overrides, key);
  }

  /** A listed key without default resolvers, set neither in the file nor by `configDefaults`, makes `load`
      fail. */
  lemma ListedWithoutFallbackFails(
      definitions: Record<Definition>, container: Container, configDefaults: Record<Setting>, file: Record<Setting>,
      overrides: Record<Setting>, key: string)
    requires definitions.Valid() && configDefaults.Valid() && file.Valid() && overrides.Valid()
    requires Missing(key, false) in MissingOf(definitions, definitions.keys, overrides)
    requires !file.Has(key) && !configDefaults.Has(key)
    ensures !Outcome(BothPasses(definitions, container, Merged(configDefaults, file, overrides))).Loaded?
  {
    var merged := Merged(configDefaults, file, overrides);
    MissingListed(definitions, definitions.keys, overrides);
    MergedIsExplicit(configDefaults, file, overrides, key);
    if Outcome(BothPasses(definitions, container, merged)).Loaded? {
      var added := LoadedBindsEachKeyOnce(definitions, container, merged);
    }
  }

  /** When every `configDefaults` key is declared, as the kernel has validated, an unknown key comes from the
      overrides or the file. */
  lemma DeclaredDefaultsAreNeverUnknown(
      definitions: Record<Definition>, container: Container, configDefaults: Record<Setting>, file: Record<Setting>,
      overrides: Record<Setting>, key: string)
    requires definitions.Valid() && configDefaults.Valid() && file.Valid() && overrides.Valid()
    requires forall k :: configDefaults.Has(k) ==> definitions.Has(k)
    requires var p := BothPasses(definitions, container, Merged(configDefaults, file, overrides));
             !p.crashed && UnknownKey(key) in p.errors
    ensures overrides.Has(key) || file.Has(key)
  {
    var merged := Merged(configDefaults, file, overrides);
    assert key in merged.values && !definitions.Has(key) by {
      LoadErrorsExactly(definitions, container, merged);
    }
    MergedIsExplicit(configDefaults, file, overrides, key);
  }
}
