/** `ConfigurationManager`: registered definitions are drained by `load`, which binds one value per
    key into the container along a five-level precedence chain. */
module Configuration {
  import opened Common
  import opened Container

  datatype LoadError = UnknownKey(key: string) | RequiredKey(key: string)

  /** `load` returns, throws its collected errors, or passes on the exception of a value it had to
      resolve. */
  datatype LoadResult = Loaded | Invalid(errors: seq<LoadError>) | Crashed

  datatype Missing = Missing(parameterName: string, hasDefaultResolvers: bool)

  /** `ConfigurationParser.resolve`. */
  function Resolve(setting: Setting, container: Container): Option<Value> {
    match setting
    case Undefined => None
    case Plain(value) => Some(value)
    case Computed(_, resolve) => resolve(container)
  }

  function FirstResolved(resolvers: seq<Setting>, container: Container): Option<Value> {
    if resolvers == [] then None
    else
      var first := Resolve(resolvers[0], container);
      if first.Some? then first else FirstResolved(resolvers[1..], container)
  }

  function Token(key: string): string { "%" + key + "%" }

  function RegisterValue(container: Container, key: string, value: Value): Container {
    container.(bindings := container.bindings + [Binding(Token(key), value)])
  }

  /** Assigns every listed entry of `layer` on top of `base`. */
  ghost function SetAll(base: Record<Setting>, layer: Record<Setting>, keys: seq<string>): Record<Setting>
    requires forall k :: k in keys ==> k in layer.values
  {
    if keys == [] then base
    else SetAll(base, layer, keys[..|keys| - 1]).Set(keys[|keys| - 1], layer.values[keys[|keys| - 1]])
  }

  lemma {:induction false} SetAllValid(base: Record<Setting>, layer: Record<Setting>, keys: seq<string>)
    requires base.Valid() && forall k :: k in keys ==> k in layer.values
    ensures SetAll(base, layer, keys).Valid()
  {
    if keys != [] {
      SetAllValid(base, layer, keys[..|keys| - 1]);
      SetValid(SetAll(base, layer, keys[..|keys| - 1]), keys[|keys| - 1], layer.values[keys[|keys| - 1]]);
    }
  }

  ghost function Merged(configDefaults: Record<Setting>, file: Record<Setting>,
      overrides: Record<Setting>): (m: Record<Setting>)
    requires configDefaults.Valid() && file.Valid() && overrides.Valid()
    ensures m.Valid()
  {
    var lowest := SetAll(Empty(), configDefaults, configDefaults.keys);
    SetAllValid(Empty(), configDefaults, configDefaults.keys);
    var middle := SetAll(lowest, file, file.keys);
    SetAllValid(lowest, file, file.keys);
    SetAllValid(middle, overrides, overrides.keys);
    SetAll(middle, overrides, overrides.keys)
  }

  // ------------------------------------------------------------ the two draining passes

  datatype Progress = Progress(
    definitions: Record<Definition>, container: Container, errors: seq<LoadError>, crashed: bool)

  function ExplicitStep(p: Progress, key: string, setting: Setting): Progress {
    if !p.definitions.Has(key) then p.(errors := p.errors + [UnknownKey(key)])
    else
      match Resolve(setting, p.container)
      case None => p.(crashed := true)
      case Some(value) =>
        p.(container := RegisterValue(p.container, key, value), definitions := p.definitions.Delete(key))
  }

  ghost function ExplicitPass(p: Progress, merged: Record<Setting>, keys: seq<string>): Progress
    requires forall k :: k in keys ==> k in merged.values
  {
    if keys == [] then p
    else
      var before := ExplicitPass(p, merged, keys[..|keys| - 1]);
      if before.crashed then before
      else ExplicitStep(before, keys[|keys| - 1], merged.values[keys[|keys| - 1]])
  }

  lemma {:induction false} ExplicitPassValid(p: Progress, merged: Record<Setting>, keys: seq<string>)
    requires p.definitions.Valid() && forall k :: k in keys ==> k in merged.values
    ensures ExplicitPass(p, merged, keys).definitions.Valid()
  {
    if keys != [] {
      ExplicitPassValid(p, merged, keys[..|keys| - 1]);
      DeleteValid(ExplicitPass(p, merged, keys[..|keys| - 1]).definitions, keys[|keys| - 1]);
    }
  }

  function DefaultStep(p: Progress, key: string, definition: Definition): Progress {
    match FirstResolved(definition.defaultResolvers, p.container)
    case Some(value) => p.(container := RegisterValue(p.container, key, value))
    case None =>
      if definition.isRequired then p.(errors := p.errors + [RequiredKey(key)])
      else
        match Resolve(definition.defaultValue, p.container)
        case None => p.(crashed := true)
        case Some(value) => p.(container := RegisterValue(p.container, key, value))
  }

  ghost function DefaultPass(p: Progress, definitions: Record<Definition>, keys: seq<string>): Progress
    requires forall k :: k in keys ==> k in definitions.values
  {
    if keys == [] then p
    else
      var before := DefaultPass(p, definitions, keys[..|keys| - 1]);
      if before.crashed then before
      else DefaultStep(before, keys[|keys| - 1], definitions.values[keys[|keys| - 1]])
  }

  ghost function BothPasses(definitions: Record<Definition>, container: Container, merged: Record<Setting>): Progress
    requires definitions.Valid() && merged.Valid()
  {
    var explicit := ExplicitPass(Progress(definitions, container, [], false), merged, merged.keys);
    ExplicitPassValid(Progress(definitions, container, [], false), merged, merged.keys);
    if explicit.crashed then explicit
    else DefaultPass(explicit, explicit.definitions, explicit.definitions.keys)
  }

  function Outcome(p: Progress): LoadResult {
    if p.crashed then Crashed else if p.errors != [] then Invalid(p.errors) else Loaded
  }

  class ConfigurationManager {
    var configurationDefinitions: Record<Definition>

    constructor ()
      ensures configurationDefinitions == Empty()
    {
      configurationDefinitions := Empty();
    }

    /** Fails, without effect, on a parameter name that is already registered. */
    method Register(definition: Definition) returns (registered: bool)
      modifies this
      ensures registered <==> !old(configurationDefinitions).Has(definition.parameterName)
      ensures configurationDefinitions == if registered
              then old(configurationDefinitions).Set(definition.parameterName, definition)
              else old(configurationDefinitions)
    {
      if configurationDefinitions.Has(definition.parameterName) { return false; }
      configurationDefinitions := configurationDefinitions.Set(definition.parameterName, definition);
      return true;
    }

    static method Overlay(base: Record<Setting>, layer: Record<Setting>) returns (merged: Record<Setting>)
      requires layer.Valid()
      ensures merged == SetAll(base, layer, layer.keys)
    {
      merged := base;
      var i := 0;
      while i < |layer.keys|
        invariant 0 <= i <= |layer.keys|
        invariant merged == SetAll(base, layer, layer.keys[..i])
      {
        assert layer.keys[..i + 1][..i] == layer.keys[..i];
        merged := merged.Set(layer.keys[i], layer.values[layer.keys[i]]);
        i := i + 1;
      }
      assert layer.keys[..i] == layer.keys;
    }

    method Load(overrides: Record<Setting>, container: Container, configDefaults: Record<Setting>,
        fileConfig: Record<Setting>)
      returns (result: LoadResult, container': Container)
      requires configurationDefinitions.Valid() && overrides.Valid() && configDefaults.Valid() && fileConfig.Valid()
      modifies this
      ensures var p := BothPasses(old(configurationDefinitions), container,
              Merged(configDefaults, fileConfig, overrides));
              && result == Outcome(p)
              && container' == p.container
              && configurationDefinitions == if result.Loaded? then Empty() else p.definitions
    {
      var merged := Overlay(Empty(), configDefaults);
      merged := Overlay(merged, fileConfig);
      merged := Overlay(merged, overrides);
      assert merged == Merged(configDefaults, fileConfig, overrides);
      var errors, crashed;
      container', errors, crashed := BindExplicitValues(merged, container);
      if crashed { return Crashed, container'; }
      container', errors, crashed := BindRemaining(container', errors);
      if crashed { return Crashed, container'; }
      if |errors| != 0 { return Invalid(errors), container'; }
      configurationDefinitions := Empty();
      return Loaded, container';
    }

    /** The first loop of `load`: every explicit value against the registered definitions. */
    method BindExplicitValues(merged: Record<Setting>, container: Container)
      returns (container': Container, errors: seq<LoadError>, crashed: bool)
      requires configurationDefinitions.Valid() && merged.Valid()
      modifies this
      ensures Progress(configurationDefinitions, container', errors, crashed)
           == ExplicitPass(Progress(old(configurationDefinitions), container, [], false), merged, merged.keys)
      ensures configurationDefinitions.Valid()
    {
      container', errors, crashed := container, [], false;
      ghost var start := Progress(configurationDefinitions, container, [], false);
      var i := 0;
      while i < |merged.keys|
        invariant 0 <= i <= |merged.keys|
        invariant !crashed
        invariant Progress(configurationDefinitions, container', errors, crashed)
               == ExplicitPass(start, merged, merged.keys[..i])
      {
        ExplicitPassNext(start, merged, i);
        var key := merged.keys[i];
        i := i + 1;
        if !configurationDefinitions.Has(key) {
          errors := errors + [UnknownKey(key)];
          continue;
        }
        var resolved := Resolve(merged.values[key], container');
        if resolved.None? {
          crashed := true;
          ExplicitPassCrash(start, merged, i);
          break;
        }
        container' := RegisterValue(container', key, resolved.value);
        configurationDefinitions := configurationDefinitions.Delete(key);
      }
      assert merged.keys[..|merged.keys|] == merged.keys;
      ExplicitPassValid(start, merged, merged.keys);
    }

    /** The second loop of `load`: default resolvers and default values of what is left. */
    method BindRemaining(container: Container, errors0: seq<LoadError>)
      returns (container': Container, errors: seq<LoadError>, crashed: bool)
      requires configurationDefinitions.Valid()
      ensures Progress(configurationDefinitions, container', errors, crashed)
           == DefaultPass(Progress(configurationDefinitions, container, errors0, false),
                          configurationDefinitions, configurationDefinitions.keys)
    {
      container', errors, crashed := container, errors0, false;
      var definitions := configurationDefinitions;
      ghost var start := Progress(definitions, container, errors0, false);
      var i := 0;
      while i < |definitions.keys|
        invariant 0 <= i <= |definitions.keys|
        invariant !crashed
        invariant Progress(definitions, container', errors, crashed)
                  == DefaultPass(start, definitions, definitions.keys[..i])
      {
        DefaultPassNext(start, definitions, i);
        var key := definitions.keys[i];
        var definition := definitions.values[key];
        i := i + 1;
        var resolved := TryResolvers(definition.defaultResolvers, container');
        if resolved.Some? {
          container' := RegisterValue(container', key, resolved.value);
          continue;
        }
        if definition.isRequired {
          errors := errors + [RequiredKey(key)];
          continue;
        }
        resolved := Resolve(definition.defaultValue, container');
        if resolved.None? {
          crashed := true;
          DefaultPassCrash(start, definitions, i);
          break;
        }
        container' := RegisterValue(container', key, resolved.value);
      }
      assert definitions.keys[..|definitions.keys|] == definitions.keys;
    }

    static method TryResolvers(resolvers: seq<Setting>, container: Container) returns (resolved: Option<Value>)
      ensures resolved == FirstResolved(resolvers, container)
    {
      var i := 0;
      while i < |resolvers|
        invariant 0 <= i <= |resolvers|
        invariant FirstResolved(resolvers, container) == FirstResolved(resolvers[i..], container)
      {
        resolved := Resolve(resolvers[i], container);
        if resolved.Some? { return; }
        i := i + 1;
      }
      return None;
    }

    method GetMissingRequiredParameters(overrides: Record<Setting>) returns (missing: seq<Missing>)
      requires configurationDefinitions.Valid()
      ensures missing == MissingOf(configurationDefinitions, configurationDefinitions.keys, overrides)
    {
      missing := [];
      var i := 0;
      while i < |configurationDefinitions.keys|
        invariant 0 <= i <= |configurationDefinitions.keys|
        invariant missing == MissingOf(configurationDefinitions, configurationDefinitions.keys[..i], overrides)
      {
        var key := configurationDefinitions.keys[i];
        assert configurationDefinitions.keys[..i + 1][..i] == configurationDefinitions.keys[..i];
        var definition := configurationDefinitions.values[key];
        i := i + 1;
        if !definition.isRequired { continue; }
        if overrides.Has(key) && !overrides.values[key].Undefined? { continue; }
        missing := missing + [Missing(key, |definition.defaultResolvers| > 0)];
      }
      assert configurationDefinitions.keys[..i] == configurationDefinitions.keys;
    }
  }

  predicate IsMissing(definition: Definition, overrides: Record<Setting>, key: string) {
    definition.isRequired && !(overrides.Has(key) && !overrides.values[key].Undefined?)
  }

  ghost function MissingOf(definitions: Record<Definition>, keys: seq<string>, overrides: Record<Setting>): seq<Missing>
    requires forall k :: k in keys ==> k in definitions.values
  {
    if keys == [] then []
    else
      var before := MissingOf(definitions, keys[..|keys| - 1], overrides);
      var key := keys[|keys| - 1];
      var definition := definitions.values[key];
      if IsMissing(definition, overrides, key)
      then before + [Missing(key, |definition.defaultResolvers| > 0)]
      else before
  }

  // -------------------------------------------------- one more iteration of each pass

  lemma ExplicitPassNext(p: Progress, merged: Record<Setting>, i: nat)
    requires merged.Valid() && i < |merged.keys|
    ensures var before := ExplicitPass(p, merged, merged.keys[..i]);
            ExplicitPass(p, merged, merged.keys[..i + 1])
            == if before.crashed then before else ExplicitStep(before, merged.keys[i], merged.values[merged.keys[i]])
  {
    assert merged.keys[..i + 1][..i] == merged.keys[..i];
  }

  lemma {:induction false} ExplicitPassCrash(p: Progress, merged: Record<Setting>, i: nat)
    requires merged.Valid() && i <= |merged.keys| && ExplicitPass(p, merged, merged.keys[..i]).crashed
    ensures ExplicitPass(p, merged, merged.keys) == ExplicitPass(p, merged, merged.keys[..i])
    decreases |merged.keys| - i
  {
    if i < |merged.keys| {
      ExplicitPassNext(p, merged, i);
      ExplicitPassCrash(p, merged, i + 1);
    } else {
      assert merged.keys[..i] == merged.keys;
    }
  }

  lemma DefaultPassNext(p: Progress, definitions: Record<Definition>, i: nat)
    requires definitions.Valid() && i < |definitions.keys|
    ensures var before := DefaultPass(p, definitions, definitions.keys[..i]);
            DefaultPass(p, definitions, definitions.keys[..i + 1])
            == if before.crashed then before
               else DefaultStep(before, definitions.keys[i], definitions.values[definitions.keys[i]])
  {
    assert definitions.keys[..i + 1][..i] == definitions.keys[..i];
  }

  lemma {:induction false} DefaultPassCrash(p: Progress, definitions: Record<Definition>, i: nat)
    requires definitions.Valid() && i <= |definitions.keys|
             && DefaultPass(p, definitions, definitions.keys[..i]).crashed
    ensures DefaultPass(p, definitions, definitions.keys) == DefaultPass(p, definitions, definitions.keys[..i])
    decreases |definitions.keys| - i
  {
    if i < |definitions.keys| {
      DefaultPassNext(p, definitions, i);
      DefaultPassCrash(p, definitions, i + 1);
    } else {
      assert definitions.keys[..i] == definitions.keys;
    }
  }
}
