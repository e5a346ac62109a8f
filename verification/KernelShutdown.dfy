/** `stop`: the shutdown hooks in discovery order, up to one whose error cannot be read. */
module KernelShutdown {
  import opened Common
  import opened Container
  import opened ModuleGraph
  import opened ModuleOrder

  /** The container left, the modules whose hook was called, those whose failure was logged, and whether `stop`
      rejects. */
  datatype Teardown = Teardown(container: Container, reached: seq<Ref>, logged: seq<Ref>, rejected: bool)

  /** A failing hook keeps what it did to the container. Its failure is logged with the message of its error;
      `undefined` and `null` have none to read, and reading it throws out of the loop. */
  function CallHook(t: Teardown, r: Ref, hook: Hook): Teardown {
    match hook(t.container)
    case Returned(c) => t.(container := c, reached := t.reached + [r])
    case Raised(c, nullish) =>
      if nullish then t.(container := c, reached := t.reached + [r], rejected := true)
      else t.(container := c, reached := t.reached + [r], logged := t.logged + [r])
  }

  ghost function TornDown(g: Graph, container: Container, refs: seq<Ref>): Teardown {
    if refs == [] then Teardown(container, [], [], false)
    else
      var before := TornDown(g, container, refs[..|refs| - 1]);
      var last := refs[|refs| - 1];
      if before.rejected || last !in g || g[last].onShutdown.None? then before
      else CallHook(before, last, g[last].onShutdown.value)
  }

  ghost function WithShutdownHook(g: Graph, refs: seq<Ref>): seq<Ref> {
    if refs == [] then []
    else
      var last := refs[|refs| - 1];
      if last in g && g[last].onShutdown.Some? then WithShutdownHook(g, refs[..|refs| - 1]) + [last]
      else WithShutdownHook(g, refs[..|refs| - 1])
  }

  lemma TornDownSnoc(g: Graph, container: Container, refs: seq<Ref>, r: Ref)
    requires r in g
    ensures var before := TornDown(g, container, refs);
            TornDown(g, container, refs + [r])
            == if before.rejected || g[r].onShutdown.None? then before
               else CallHook(before, r, g[r].onShutdown.value)
  {
  }

  lemma TornDownNext(g: Graph, container: Container, refs: seq<Ref>, i: nat)
    requires i < |refs| && refs[i] in g
    ensures var before := TornDown(g, container, refs[..i]);
            TornDown(g, container, refs[..i + 1])
            == if before.rejected || g[refs[i]].onShutdown.None? then before
               else CallHook(before, refs[i], g[refs[i]].onShutdown.value)
  {
    assert refs[..i + 1] == refs[..i] + [refs[i]];
    TornDownSnoc(g, container, refs[..i], refs[i]);
  }

  lemma {:induction false} TornDownStops(g: Graph, container: Container, refs: seq<Ref>, i: nat)
    requires i <= |refs| && TornDown(g, container, refs[..i]).rejected
    ensures TornDown(g, container, refs) == TornDown(g, container, refs[..i])
    decreases |refs|
  {
    if i == |refs| {
      assert refs[..i] == refs;
    } else {
      assert refs[..|refs| - 1][..i] == refs[..i];
      TornDownStops(g, container, refs[..|refs| - 1], i);
    }
  }

  lemma {:induction false} HooksOnce(g: Graph, refs: seq<Ref>)
    requires DistinctKeynames(g, refs)
    ensures Distinct(WithShutdownHook(g, refs))
    ensures forall r :: r in WithShutdownHook(g, refs) <==> r in refs && g[r].onShutdown.Some?
  {
    if refs != [] {
      var before := refs[..|refs| - 1];
      HooksOnce(g, before);
      forall i | 0 <= i < |before| ensures before[i] != refs[|refs| - 1] {
        assert g[refs[i]].keyname != g[refs[|refs| - 1]].keyname;
      }
    }
  }

  // ------------------------------------------------------------------- which hooks are called

  ghost predicate AllHooked(g: Graph, hooks: seq<Ref>) {
    forall r :: r in hooks ==> r in g && g[r].onShutdown.Some?
  }

  lemma {:induction false} ListedAreHooked(g: Graph, refs: seq<Ref>)
    ensures AllHooked(g, WithShutdownHook(g, refs))
  {
    if refs != [] {
      ListedAreHooked(g, refs[..|refs| - 1]);
    }
  }

  /** Only the modules with a hook matter. */
  lemma {:induction false} OnlyHooksMatter(g: Graph, container: Container, refs: seq<Ref>)
    ensures TornDown(g, container, refs) == TornDown(g, container, WithShutdownHook(g, refs))
  {
    if refs != [] {
      var before, last := refs[..|refs| - 1], refs[|refs| - 1];
      OnlyHooksMatter(g, container, before);
      if last in g {
        TornDownSnoc(g, container, WithShutdownHook(g, before), last);
      }
    }
  }

  /** The container after all these hooks, each on what the one before left, whatever they raise. */
  ghost function ContainerAfter(g: Graph, container: Container, hooks: seq<Ref>): Container
    requires AllHooked(g, hooks)
  {
    if hooks == [] then container
    else g[hooks[|hooks| - 1]].onShutdown.value(ContainerAfter(g, container, hooks[..|hooks| - 1])).container
  }

  /** What a hook does at its turn. */
  ghost function AtItsTurn(g: Graph, container: Container, hooks: seq<Ref>, k: nat): HookResult
    requires AllHooked(g, hooks) && k < |hooks|
  {
    g[hooks[k]].onShutdown.value(ContainerAfter(g, container, hooks[..k]))
  }

  ghost predicate NullishAt(g: Graph, container: Container, hooks: seq<Ref>, k: nat)
    requires AllHooked(g, hooks) && k < |hooks|
  {
    AtItsTurn(g, container, hooks, k).Raised? && AtItsTurn(g, container, hooks, k).nullish
  }

  /** Those whose error has a message to log. */
  ghost function Failures(g: Graph, container: Container, hooks: seq<Ref>): seq<Ref>
    requires AllHooked(g, hooks)
  {
    if hooks == [] then []
    else
      var last := |hooks| - 1;
      Failures(g, container, hooks[..last])
      + if AtItsTurn(g, container, hooks, last).Raised? && !NullishAt(g, container, hooks, last)
        then [hooks[last]] else []
  }

  /** No hook before position `n` raises `undefined` or `null` at its turn. */
  ghost predicate ReadableBefore(g: Graph, container: Container, hooks: seq<Ref>, n: nat)
    requires AllHooked(g, hooks) && n <= |hooks|
  {
    forall k :: 0 <= k < n ==> !NullishAt(g, container, hooks, k)
  }

  lemma ReadablePrefix(g: Graph, container: Container, hooks: seq<Ref>, m: nat, n: nat)
    requires AllHooked(g, hooks) && m <= n <= |hooks|
    ensures ReadableBefore(g, container, hooks[..n], m) <==> ReadableBefore(g, container, hooks, m)
  {
    forall k | 0 <= k < m ensures NullishAt(g, container, hooks[..n], k) <==> NullishAt(g, container, hooks, k) {
      assert hooks[..n][..k] == hooks[..k];
    }
  }

  /** The first hook that raises `undefined` or `null` is the last one called; without one, all are called. */
  ghost predicate CallsUpToNullish(g: Graph, container: Container, hooks: seq<Ref>, t: Teardown)
    requires AllHooked(g, hooks)
  {
    var n := |t.reached|;
    && t.reached <= hooks && t.container == ContainerAfter(g, container, t.reached)
    && t.logged == Failures(g, container, t.reached)
    && if t.rejected
       then 0 < n && NullishAt(g, container, hooks, n - 1) && ReadableBefore(g, container, hooks, n - 1)
       else n == |hooks| && ReadableBefore(g, container, hooks, n)
  }

  lemma {:induction false} TearsDownUpToNullish(g: Graph, container: Container, hooks: seq<Ref>)
    requires AllHooked(g, hooks)
    ensures CallsUpToNullish(g, container, hooks, TornDown(g, container, hooks))
  {
    if hooks != [] {
      var before, last := hooks[..|hooks| - 1], |hooks| - 1;
      var t := TornDown(g, container, before);
      TearsDownUpToNullish(g, container, before);
      if t.rejected {
        CallsNoMore(g, container, hooks, last, t);
      } else {
        CallsOneMore(g, container, hooks, t);
      }
    }
  }

  lemma CallsNoMore(g: Graph, container: Container, hooks: seq<Ref>, n: nat, t: Teardown)
    requires AllHooked(g, hooks) && n <= |hooks| && t.rejected
    requires CallsUpToNullish(g, container, hooks[..n], t)
    ensures CallsUpToNullish(g, container, hooks, t)
  {
    var last := |t.reached| - 1;
    ReadablePrefix(g, container, hooks, last, n);
    assert hooks[..n][..last] == hooks[..last];
  }

  lemma CallsOneMore(g: Graph, container: Container, hooks: seq<Ref>, t: Teardown)
    requires AllHooked(g, hooks) && hooks != [] && !t.rejected
    requires CallsUpToNullish(g, container, hooks[..|hooks| - 1], t)
    ensures var last := hooks[|hooks| - 1];
            CallsUpToNullish(g, container, hooks, CallHook(t, last, g[last].onShutdown.value))
  {
    var n := |hooks| - 1;
    ReadablePrefix(g, container, hooks, n, n);
    assert t.reached == hooks[..n] && t.reached + [hooks[n]] == hooks;
  }

  ghost predicate SomeNullish(g: Graph, container: Container, hooks: seq<Ref>)
    requires AllHooked(g, hooks)
  {
    exists k :: 0 <= k < |hooks| && NullishAt(g, container, hooks, k)
  }

  lemma RejectsIffNullish(g: Graph, container: Container, hooks: seq<Ref>, t: Teardown)
    requires AllHooked(g, hooks) && CallsUpToNullish(g, container, hooks, t)
    ensures t.rejected <==> SomeNullish(g, container, hooks)
  {
    if t.rejected {
      assert NullishAt(g, container, hooks, |t.reached| - 1);
    }
  }

  lemma CallsAllIffReadable(g: Graph, container: Container, hooks: seq<Ref>, t: Teardown)
    requires AllHooked(g, hooks) && CallsUpToNullish(g, container, hooks, t)
    ensures t.reached == hooks <==> ReadableBefore(g, container, hooks, if hooks == [] then 0 else |hooks| - 1)
  {
    if |t.reached| < |hooks| {
      assert NullishAt(g, container, hooks, |t.reached| - 1);
    }
  }

  /** `stop` rejects exactly when some hook raises `undefined` or `null` at its turn, and calls every hook exactly
      when none before the last does. The other failures of the hooks called are all logged. */
  ghost predicate StopsAtNullish(g: Graph, container: Container, hooks: seq<Ref>, t: Teardown)
    requires AllHooked(g, hooks)
  {
    && (t.rejected <==> SomeNullish(g, container, hooks))
    && t.reached <= hooks
    && (t.reached == hooks <==> ReadableBefore(g, container, hooks, if hooks == [] then 0 else |hooks| - 1))
    && t.logged == Failures(g, container, t.reached)
  }

  lemma RejectsExactlyWhen(g: Graph, container: Container, refs: seq<Ref>)
    ensures AllHooked(g, WithShutdownHook(g, refs))
    ensures StopsAtNullish(g, container, WithShutdownHook(g, refs), TornDown(g, container, refs))
  {
    ListedAreHooked(g, refs);
    OnlyHooksMatter(g, container, refs);
    HooksTearDown(g, container, WithShutdownHook(g, refs));
  }

  lemma HooksTearDown(g: Graph, container: Container, hooks: seq<Ref>)
    requires AllHooked(g, hooks)
    ensures StopsAtNullish(g, container, hooks, TornDown(g, container, hooks))
  {
    var t := TornDown(g, container, hooks);
    TearsDownUpToNullish(g, container, hooks);
    RejectsIffNullish(g, container, hooks, t);
    CallsAllIffReadable(g, container, hooks, t);
  }

  // ------------------------------------------------------------------- an input

  function Hooked(keyname: string, imports: seq<Ref>, onShutdown: Hook): Module {
    Module(keyname, imports, [], [], Empty(), None, None, Some(onShutdown))
  }

  lemma DiscoversTwo(g: Graph, a: Ref, b: Ref)
    requires Closed(g) && a in g && b in g && g[a].keyname != g[b].keyname
    requires g[a].imports == [b] && g[b].imports == []
    ensures Entered(Walk(g, {}, a)) == [a, b]
  {
    var seen := {} + {g[a].keyname};
    WalkUnfold(g, {}, a);
    WalkAllSingle(g, seen, b);
    WalkUnfold(g, seen, b);
  }

  lemma RejectsAtFirst(g: Graph, container: Container, a: Ref, b: Ref)
    requires a in g && b in g && g[a].onShutdown.Some? && g[b].onShutdown.Some?
    requires g[a].onShutdown.value(container) == Raised(container, true)
    ensures WithShutdownHook(g, [a, b]) == [a, b]
    ensures TornDown(g, container, [a, b]) == Teardown(container, [a], [], true)
  {
    assert [a, b][..1] == [a] && [a, b][..2] == [a, b] && [a, b][..0] == [];
    TornDownNext(g, container, [a, b], 0);
    TornDownNext(g, container, [a, b], 1);
    assert WithShutdownHook(g, [a, b][..1]) == WithShutdownHook(g, [a, b][..0]) + [a];
  }

  /** The hook of the root rejects with `undefined`; the hook of what it imports is never called. */
  lemma UndefinedSkipsTheRest(g: Graph, container: Container, reject: Hook, close: Hook)
    requires g == map[0 := Hooked("app", [1], reject), 1 := Hooked("database", [], close)]
    requires forall c :: reject(c) == Raised(c, true)
    ensures Closed(g)
    ensures WithShutdownHook(g, Entered(Walk(g, {}, 0))) == [0, 1]
    ensures TornDown(g, container, Entered(Walk(g, {}, 0))) == Teardown(container, [0], [], true)
  {
    DiscoversTwo(g, 0, 1);
    RejectsAtFirst(g, container, 0, 1);
  }
}
