/** How every execution of the router ends: whether it settles, with what, and which error it answers. */
module RouterOutcome {
  import opened Common
  import opened Router
  import opened RouterOrder
  import opened RouterAnswers

  // ------------------------------------------------------------------- replies after which nothing settles

  /** The reply after which nothing settles the promise: the controller cannot be resolved, or `undefined` or
      `null` is thrown and reaches a catch block. The request interceptors cannot do that: their loop has already
      replaced such a value. */
  ghost predicate Hangs(w: World, b: Trace, request: Request, e: Effect) {
    match e
    case ResolveController(route) => !w.resolvesController(b, route)
    case Authenticate(route) => w.authenticate(b, request, route) == Threw(Nullish)
    case Authorize(route, identity) => w.authorize(b, request, route, identity) == Threw(Nullish)
    case Collect(_) => w.interceptors(b) == Threw(Nullish)
    case Intercept(stage, _, message) => Fits(stage, message) && Next(w, b, e, request) == Threw(Nullish)
    case LookUp(r) => w.cachedArguments(b, r) == Threw(Nullish)
    case ResolveArgument(argument, r, identity) => w.resolveArgument(b, argument, r, identity) == Threw(Nullish)
    case Store(r, _) => w.storeArguments(b, r) == Some(Nullish)
    case Call(route, arguments) => w.call(b, route, arguments) == Threw(Nullish)
    case _ => false
  }

  ghost predicate HangsAt(w: World, b: Trace, request: Request, effects: Trace, k: int) {
    0 <= k < |effects| && Hangs(w, b + effects[..k], request, effects[k])
  }

  ghost predicate SomeHangs(w: World, b: Trace, request: Request, effects: Trace) {
    exists k :: HangsAt(w, b, request, effects, k)
  }

  lemma OneHangs(w: World, b: Trace, request: Request, e: Effect)
    ensures SomeHangs(w, b, request, [e]) <==> Hangs(w, b, request, e)
  {
    assert b + [e][..0] == b;
    if Hangs(w, b, request, e) {
      assert HangsAt(w, b, request, [e], 0);
    }
  }

  lemma HangsInFirst(w: World, b: Trace, request: Request, first: Trace, second: Trace, k: int)
    requires k < |first|
    ensures HangsAt(w, b, request, first + second, k) <==> HangsAt(w, b, request, first, k)
  {
    if 0 <= k {
      assert (first + second)[..k] == first[..k];
    }
  }

  lemma HangsInSecond(w: World, b: Trace, request: Request, first: Trace, second: Trace, k: int)
    requires |first| <= k
    ensures HangsAt(w, b, request, first + second, k) <==> HangsAt(w, b + first, request, second, k - |first|)
  {
    if k < |first + second| {
      assert (first + second)[..k] == first + second[..k - |first|];
      Associative(b, first, second[..k - |first|]);
    }
  }

  lemma HangsConcat(w: World, b: Trace, request: Request, first: Trace, second: Trace)
    ensures SomeHangs(w, b, request, first + second)
       <==> SomeHangs(w, b, request, first) || SomeHangs(w, b + first, request, second)
  {
    if k :| HangsAt(w, b, request, first + second, k) {
      if k < |first| {
        HangsInFirst(w, b, request, first, second, k);
      } else {
        HangsInSecond(w, b, request, first, second, k);
      }
    }
    if k :| HangsAt(w, b, request, first, k) {
      HangsInFirst(w, b, request, first, second, k);
    }
    if k :| HangsAt(w, b + first, request, second, k) {
      HangsInSecond(w, b, request, first, second, k + |first|);
    }
  }

  lemma HangsSnoc(w: World, b: Trace, request: Request, before: Trace, e: Effect)
    ensures SomeHangs(w, b, request, before + [e])
       <==> SomeHangs(w, b, request, before) || Hangs(w, b + before, request, e)
  {
    HangsConcat(w, b, request, before, [e]);
    OneHangs(w, b + before, request, e);
  }

  lemma {:induction false} FoldHangs(
      w: World, b: Trace, stage: Stage, list: seq<Interceptor>, m: Message, request: Request)
    requires Fits(stage, m)
    ensures var c := Fold(w, b, stage, list, m, request);
            SomeHangs(w, b, request, c.effects) <==> c.reply == Threw(Nullish)
  {
    if list != [] {
      var before := Fold(w, b, stage, list[..|list| - 1], m, request);
      var i := list[|list| - 1];
      FoldHangs(w, b, stage, list[..|list| - 1], m, request);
      if before.reply.Returned? && Implements(i, stage) {
        HangsSnoc(w, b, request, before.effects, Intercept(stage, i, before.reply.value));
      }
    }
  }

  lemma ChainHangs(w: World, b: Trace, stage: Stage, m: Message, request: Request)
    requires Fits(stage, m)
    ensures var c := Chain(w, b, stage, m, request);
            SomeHangs(w, b, request, c.effects) <==> c.reply == Threw(Nullish)
  {
    OneHangs(w, b, request, Collect(stage));
    if w.interceptors(b).Returned? && w.interceptors(b).value.Some? {
      var list := ByPriority(w.interceptors(b).value.value);
      var rest := Fold(w, b + [Collect(stage)], stage, list, m, request);
      FoldHangs(w, b + [Collect(stage)], stage, list, m, request);
      HangsConcat(w, b, request, [Collect(stage)], rest.effects);
    }
  }

  lemma {:induction false} ResolveHangs(
      w: World, b: Trace, arguments: seq<nat>, r: Request, identity: Identity, request: Request)
    ensures var found := Resolve(w, b, arguments, r, identity);
            SomeHangs(w, b, request, found.effects) <==> found.reply == Threw(Nullish)
  {
    if arguments != [] {
      var before := Resolve(w, b, arguments[..|arguments| - 1], r, identity);
      ResolveHangs(w, b, arguments[..|arguments| - 1], r, identity, request);
      if before.reply.Returned? {
        HangsSnoc(w, b, request, before.effects, ResolveArgument(arguments[|arguments| - 1], r, identity));
      }
    }
  }

  // ------------------------------------------------------------------- how an execution ends

  /** The last reply hangs. */
  ghost predicate LastHangs(w: World, b: Trace, request: Request, effects: Trace) {
    effects != [] && Hangs(w, b + effects[..|effects| - 1], request, effects[|effects| - 1])
  }

  /** It does not settle exactly when some reply hangs, which is then the last. Otherwise the execution
      span is the last effect of the stages, and then either a response is returned with no error to answer, or
      one error goes to the responder, the error interceptors and the response interceptors, which decide. */
  ghost predicate Closes(w: World, b: Trace, request: Request, x: Execution) {
    && (x.outcome.Unsettled? <==> SomeHangs(w, b, request, x.stages))
    && if x.outcome.Unsettled? then x.answering == [] && LastHangs(w, b, request, x.stages)
       else
         && x.stages != []
         && x.stages[|x.stages| - 1] == End(RequestExecution)
         && if x.answering == [] then x.outcome.Answered?
            else
              && x.answering[0].Respond?
              && var c := Errors(w, b + x.stages, request, x.answering[0].error);
                 x.answering == c.effects && x.outcome == Settled(c.reply)
  }

  lemma ClosesLater(w: World, b: Trace, request: Request, effects: Trace, x: Execution)
    requires Closes(w, b + effects, request, x) && !SomeHangs(w, b, request, effects)
    ensures Closes(w, b, request, After(effects, x))
  {
    HangsConcat(w, b, request, effects, x.stages);
    Associative(b, effects, x.stages);
    Associative(b, effects, x.stages[..|x.stages| - 1]);
    assert (effects + x.stages)[..|effects + x.stages| - 1] == effects + x.stages[..|x.stages| - 1];
  }

  lemma FailingCloses(w: World, b: Trace, request: Request, effects: Trace, e: Error)
    requires !SomeHangs(w, b, request, effects)
    ensures Closes(w, b, request, After(effects, Failing(w, b + effects, request, e)))
  {
    OneHangs(w, b + effects, request, End(RequestExecution));
    assert Closes(w, b + effects, request, Failing(w, b + effects, request, e));
    ClosesLater(w, b, request, effects, Failing(w, b + effects, request, e));
  }

  lemma CaughtCloses(w: World, b: Trace, request: Request, effects: Trace, e: Error)
    requires SomeHangs(w, b, request, effects) <==> e.Nullish?
    requires e.Nullish? ==> LastHangs(w, b, request, effects)
    ensures Closes(w, b, request, After(effects, Caught(w, b + effects, request, e)))
  {
    if e.Nullish? {
      assert effects + [] == effects;
    } else {
      FailingCloses(w, b, request, effects, e);
    }
  }

  /** Why `error` is answered when `last` is the last thing done, after the trace `b`: it is what `last` threw,
      wrapped if it is an authentication failure that is no 401 or 403; Forbidden when authorization said no;
      NotFound when the search for a route, cached or not, came to nothing. */
  ghost predicate Explains(w: World, b: Trace, request: Request, last: Effect, error: Error) {
    match last
    case Start(RequestExecution) =>
      w.cachedRoute(b + [last], request) == Some(None) && error == NotFound(request.httpMethod, request.path)
    case End(FindMethodRouterNode) =>
      b != [] && w.findRoute(b[..|b| - 1], request) == None && error == NotFound(request.httpMethod, request.path)
    case Authenticate(route) =>
      && w.authenticate(b, request, route).Threw?
      && error == AuthenticationError(w.authenticate(b, request, route).error)
    case Authorize(route, identity) =>
      (match w.authorize(b, request, route, identity)
       case Threw(e) => error == e
       case Returned(allowed) => !allowed && error == Forbidden)
    case Intercept(stage, _, message) =>
      !stage.ForError? && Fits(stage, message) && Next(w, b, last, request) == Threw(error)
    case Collect(stage) => !stage.ForError? && w.interceptors(b) == Threw(error)
    case LookUp(r) => w.cachedArguments(b, r) == Threw(error)
    case ResolveArgument(argument, r, identity) => w.resolveArgument(b, argument, r, identity) == Threw(error)
    case Store(r, _) => w.storeArguments(b, r) == Some(error)
    case Call(route, arguments) => w.call(b, route, arguments) == Threw(error)
    case _ => false
  }

  ghost predicate Explained(w: World, b: Trace, request: Request, stages: Trace, answering: Trace) {
    answering != [] ==>
      && |stages| >= 2 && answering[0].Respond?
      && Explains(w, b + stages[..|stages| - 2], request, stages[|stages| - 2], answering[0].error)
  }

  lemma FailureExplained(w: World, b: Trace, request: Request, pre: Trace, effects: Trace, e: Error)
    requires effects != []
    requires Explains(w, b + pre + effects[..|effects| - 1], request, effects[|effects| - 1], e)
    ensures var x := After(effects, Failing(w, b + pre + effects, request, e));
            Explained(w, b, request, pre + x.stages, x.answering)
  {
    var stages := pre + (effects + [End(RequestExecution)]);
    assert stages[..|stages| - 2] == pre + effects[..|effects| - 1];
    Associative(b, pre, effects[..|effects| - 1]);
  }

  lemma ExplainedLater(w: World, b: Trace, request: Request, pre: Trace, effects: Trace, x: Execution)
    requires Explained(w, b, request, pre + effects + x.stages, x.answering)
    ensures Explained(w, b, request, pre + After(effects, x).stages, After(effects, x).answering)
  {
    Associative(pre, effects, x.stages);
  }

  lemma ChainThrew(w: World, b: Trace, stage: Stage, m: Message, request: Request)
    requires Fits(stage, m) && !stage.ForError? && Chain(w, b, stage, m, request).reply.Threw?
    ensures var c := Chain(w, b, stage, m, request);
            && c.effects != []
            && Explains(w, b + c.effects[..|c.effects| - 1], request, c.effects[|c.effects| - 1], c.reply.error)
  {
    if w.interceptors(b).Threw? {
      assert b + [Collect(stage)][..0] == b;
    } else {
      var list := ByPriority(w.interceptors(b).value.value);
      var rest := Fold(w, b + [Collect(stage)], stage, list, m, request).effects;
      FoldVisits(w, b + [Collect(stage)], stage, list, m, request);
      FoldThreads(w, b + [Collect(stage)], stage, list, m, request);
      Associative(b, [Collect(stage)], rest[..|rest| - 1]);
      assert ([Collect(stage)] + rest)[..|rest|] == [Collect(stage)] + rest[..|rest| - 1];
    }
  }

  /** How an execution ends, when `pre` came before it: it closes, and the error it answers is explained. */
  ghost predicate Answers(w: World, b: Trace, request: Request, pre: Trace, x: Execution) {
    Closes(w, b + pre, request, x) && Explained(w, b, request, pre + x.stages, x.answering)
  }

  lemma FailureAnswers(w: World, b: Trace, request: Request, pre: Trace, effects: Trace, e: Error)
    requires effects != [] && !SomeHangs(w, b + pre, request, effects)
    requires Explains(w, b + pre + effects[..|effects| - 1], request, effects[|effects| - 1], e)
    ensures Answers(w, b, request, pre, After(effects, Failing(w, b + pre + effects, request, e)))
  {
    FailureExplained(w, b, request, pre, effects, e);
    FailingCloses(w, b + pre, request, effects, e);
  }

  lemma CaughtAnswers(w: World, b: Trace, request: Request, pre: Trace, effects: Trace, e: Error)
    requires effects != [] && (SomeHangs(w, b + pre, request, effects) <==> e.Nullish?)
    requires Explains(w, b + pre + effects[..|effects| - 1], request, effects[|effects| - 1], e)
    ensures Answers(w, b, request, pre, After(effects, Caught(w, b + pre + effects, request, e)))
  {
    CaughtCloses(w, b + pre, request, effects, e);
    if !e.Nullish? {
      FailureExplained(w, b, request, pre, effects, e);
    }
  }

  lemma OneCaughtAnswers(w: World, b: Trace, request: Request, pre: Trace, effect: Effect, e: Error)
    requires Hangs(w, b + pre, request, effect) <==> e.Nullish?
    requires Explains(w, b + pre, request, effect, e)
    ensures Answers(w, b, request, pre, After([effect], Caught(w, b + pre + [effect], request, e)))
  {
    OneHangs(w, b + pre, request, effect);
    assert b + pre + [effect][..0] == b + pre;
    CaughtAnswers(w, b, request, pre, [effect], e);
  }

  lemma AnswersLater(w: World, b: Trace, request: Request, pre: Trace, effects: Trace, x: Execution)
    requires Answers(w, b, request, pre + effects, x) && !SomeHangs(w, b + pre, request, effects)
    ensures Answers(w, b, request, pre, After(effects, x))
  {
    Associative(b, pre, effects);
    ClosesLater(w, b + pre, request, effects, x);
    ExplainedLater(w, b, request, pre, effects, x);
  }

  lemma FromResponseAnswers(w: World, b: Trace, request: Request, pre: Trace, response: Response)
    ensures Answers(w, b, request, pre, FromResponse(w, b + pre, request, response))
  {
    var c := Chain(w, b + pre, ForResponse, Outgoing(response), request);
    ChainHangs(w, b + pre, ForResponse, Outgoing(response), request);
    if c.reply.Threw? {
      ChainThrew(w, b + pre, ForResponse, Outgoing(response), request);
      CaughtAnswers(w, b, request, pre, c.effects, c.reply.error);
    } else {
      HangsSnoc(w, b + pre, request, c.effects, End(ResponseInterceptors));
      HangsSnoc(w, b + pre, request, c.effects + [End(ResponseInterceptors)], End(RequestExecution));
      assert c.effects + [End(ResponseInterceptors)] + [End(RequestExecution)]
          == c.effects + [End(ResponseInterceptors), End(RequestExecution)];
    }
  }

  lemma FromCallAnswers(w: World, b: Trace, request: Request, pre: Trace, route: Route, arguments: seq<string>)
    ensures Answers(w, b, request, pre, FromCall(w, b + pre, request, route, arguments))
  {
    match w.call(b + pre, route, arguments) {
      case Threw(e) => OneCaughtAnswers(w, b, request, pre, Call(route, arguments), e);
      case Returned(answer) =>
        var called := [Call(route, arguments), Start(ResponseInterceptors)];
        TwoCalm(w, b + pre, request, Call(route, arguments), Start(ResponseInterceptors));
        Associative(b, pre, called);
        FromResponseAnswers(w, b, request, pre + called, Wrapped(answer));
        AnswersLater(
          w, b, request, pre, called, FromResponse(w, b + pre + called, request, Wrapped(answer)));
    }
  }

  lemma TwoCalm(w: World, b: Trace, request: Request, x: Effect, y: Effect)
    requires !Hangs(w, b, request, x) && !Hangs(w, b + [x], request, y)
    ensures !SomeHangs(w, b, request, [x, y]) && [x] + [y] == [x, y]
  {
    OneHangs(w, b, request, x);
    HangsSnoc(w, b, request, [x], y);
    assert [x] + [y] == [x, y];
  }

  lemma ThreeCalm(w: World, b: Trace, request: Request, x: Effect, y: Effect, z: Effect)
    requires !Hangs(w, b, request, x) && !Hangs(w, b + [x], request, y) && !Hangs(w, b + [x, y], request, z)
    ensures !SomeHangs(w, b, request, [x, y] + [z])
  {
    TwoCalm(w, b, request, x, y);
    HangsSnoc(w, b, request, [x, y], z);
  }

  lemma FromStoreAnswers(
      w: World, b: Trace, request: Request, pre: Trace, route: Route, r: Request, arguments: seq<string>)
    ensures Answers(w, b, request, pre, FromStore(w, b + pre, request, route, r, arguments))
  {
    var stored := [Store(r, arguments)];
    match w.storeArguments(b + pre, r) {
      case Some(e) => OneCaughtAnswers(w, b, request, pre, Store(r, arguments), e);
      case None =>
        OneHangs(w, b + pre, request, Store(r, arguments));
        Associative(b, pre, stored);
        FromCallAnswers(w, b, request, pre + stored, route, arguments);
        AnswersLater(w, b, request, pre, stored, FromCall(w, b + pre + stored, request, route, arguments));
    }
  }

  lemma {:induction false} ResolveThrew(
      w: World, b: Trace, arguments: seq<nat>, r: Request, identity: Identity, request: Request)
    requires Resolve(w, b, arguments, r, identity).reply.Threw?
    ensures var found := Resolve(w, b, arguments, r, identity);
            && found.effects != []
            && Explains(w, b + found.effects[..|found.effects| - 1], request, found.effects[|found.effects| - 1],
                        found.reply.error)
  {
    var before := Resolve(w, b, arguments[..|arguments| - 1], r, identity);
    if before.reply.Threw? {
      ResolveThrew(w, b, arguments[..|arguments| - 1], r, identity, request);
    } else {
      var found := Resolve(w, b, arguments, r, identity);
      assert found.effects[..|found.effects| - 1] == before.effects;
      assert w.resolveArgument(b + before.effects, arguments[|arguments| - 1], r, identity) == Threw(found.reply.error);
    }
  }

  lemma FromResolutionAnswers(
      w: World, b: Trace, request: Request, pre: Trace, route: Route, identity: Identity, r: Request)
    ensures Answers(w, b, request, pre, FromResolution(w, b + pre, request, route, identity, r))
  {
    var found := Resolve(w, b + pre, route.methodArguments, r, identity);
    ResolveHangs(w, b + pre, route.methodArguments, r, identity, request);
    match found.reply {
      case Threw(e) =>
        ResolveThrew(w, b + pre, route.methodArguments, r, identity, request);
        CaughtAnswers(w, b, request, pre, found.effects, e);
      case Returned(arguments) =>
        Associative(b, pre, found.effects);
        FromStoreAnswers(w, b, request, pre + found.effects, route, r, arguments);
        AnswersLater(
          w, b, request, pre, found.effects, FromStore(w, b + pre + found.effects, request, route, r, arguments));
    }
  }

  lemma CachedArgumentsAnswer(
      w: World, b: Trace, request: Request, pre: Trace, route: Route, r: Request, arguments: seq<string>)
    requires !Hangs(w, b + pre, request, LookUp(r))
    ensures Answers(
      w, b, request, pre, After([LookUp(r)], FromCall(w, b + pre + [LookUp(r)], request, route, arguments)))
  {
    var looked := [LookUp(r)];
    Associative(b, pre, looked);
    OneHangs(w, b + pre, request, LookUp(r));
    FromCallAnswers(w, b, request, pre + looked, route, arguments);
    AnswersLater(w, b, request, pre, looked, FromCall(w, b + pre + looked, request, route, arguments));
  }

  lemma ResolvedArgumentsAnswer(
      w: World, b: Trace, request: Request, pre: Trace, route: Route, identity: Identity, r: Request)
    requires !Hangs(w, b + pre, request, LookUp(r))
    ensures Answers(
      w, b, request, pre, After([LookUp(r)], FromResolution(w, b + pre + [LookUp(r)], request, route, identity, r)))
  {
    var looked := [LookUp(r)];
    Associative(b, pre, looked);
    OneHangs(w, b + pre, request, LookUp(r));
    FromResolutionAnswers(w, b, request, pre + looked, route, identity, r);
    AnswersLater(w, b, request, pre, looked, FromResolution(w, b + pre + looked, request, route, identity, r));
  }

  lemma FromArgumentsAnswers(
      w: World, b: Trace, request: Request, pre: Trace, route: Route, identity: Identity, r: Request)
    ensures Answers(w, b, request, pre, FromArguments(w, b + pre, request, route, identity, r))
  {
    match w.cachedArguments(b + pre, r) {
      case Threw(e) =>
        OneHangs(w, b + pre, request, LookUp(r));
        OneCaughtAnswers(w, b, request, pre, LookUp(r), e);
      case Returned(Some(arguments)) => CachedArgumentsAnswer(w, b, request, pre, route, r, arguments);
      case Returned(None) => ResolvedArgumentsAnswer(w, b, request, pre, route, identity, r);
    }
  }

  lemma FromInterceptorsAnswers(
      w: World, b: Trace, request: Request, pre: Trace, route: Route, identity: Identity)
    ensures Answers(w, b, request, pre, FromInterceptors(w, b + pre, request, route, identity))
  {
    var c := Chain(w, b + pre, ForRequest, Incoming(request), request);
    ChainHangs(w, b + pre, ForRequest, Incoming(request), request);
    match c.reply {
      case Threw(e) =>
        ChainThrew(w, b + pre, ForRequest, Incoming(request), request);
        CaughtAnswers(w, b, request, pre, c.effects, e);
      case Returned(m) =>
        var effects := c.effects + [End(RequestInterceptors)];
        HangsSnoc(w, b + pre, request, c.effects, End(RequestInterceptors));
        Associative(b, pre, effects);
        FromArgumentsAnswers(w, b, request, pre + effects, route, identity, m.request);
        AnswersLater(
          w, b, request, pre, effects, FromArguments(w, b + pre + effects, request, route, identity, m.request));
    }
  }

  lemma FromAuthorizationAnswers(
      w: World, b: Trace, request: Request, pre: Trace, route: Route, identity: Identity)
    ensures Answers(w, b, request, pre, FromAuthorization(w, b + pre, request, route, identity))
  {
    var asked := [Authorize(route, identity)];
    OneHangs(w, b + pre, request, Authorize(route, identity));
    match w.authorize(b + pre, request, route, identity) {
      case Threw(e) => OneCaughtAnswers(w, b, request, pre, Authorize(route, identity), e);
      case Returned(false) =>
        assert b + pre + asked[..0] == b + pre;
        FailureAnswers(w, b, request, pre, asked, Forbidden);
      case Returned(true) =>
        var effects := asked + [Start(RequestInterceptors)];
        HangsSnoc(w, b + pre, request, asked, Start(RequestInterceptors));
        Associative(b, pre, effects);
        FromInterceptorsAnswers(w, b, request, pre + effects, route, identity);
        AnswersLater(
          w, b, request, pre, effects, FromInterceptors(w, b + pre + effects, request, route, identity));
    }
  }

  lemma FromAuthenticationAnswers(w: World, b: Trace, request: Request, pre: Trace, route: Route)
    ensures Answers(w, b, request, pre, FromAuthentication(w, b + pre, request, route))
  {
    var start := Start(RequestAuthentication);
    var asked := [start, Authenticate(route)];
    OneHangs(w, b + pre, request, start);
    HangsSnoc(w, b + pre, request, [start], Authenticate(route));
    assert [start] + [Authenticate(route)] == asked && asked[..1] == [start];
    match w.authenticate(b + pre + [start], request, route) {
      case Threw(Nullish) => CaughtCloses(w, b + pre, request, asked, Nullish);
      case Threw(e) => FailureAnswers(w, b, request, pre, asked, AuthenticationError(e));
      case Returned(identity) =>
        var effects := asked + [End(RequestAuthentication)];
        HangsSnoc(w, b + pre, request, asked, End(RequestAuthentication));
        Associative(b, pre, effects);
        FromAuthorizationAnswers(w, b, request, pre + effects, route, identity);
        AnswersLater(
          w, b, request, pre, effects, FromAuthorization(w, b + pre + effects, request, route, identity));
    }
  }

  lemma FromControllerAnswers(w: World, b: Trace, request: Request, pre: Trace, route: Route)
    ensures Answers(w, b, request, pre, FromController(w, b + pre, request, route))
  {
    var start := Start(ControllerResolver);
    var asked := [start, ResolveController(route)];
    OneHangs(w, b + pre, request, start);
    HangsSnoc(w, b + pre, request, [start], ResolveController(route));
    assert [start] + [ResolveController(route)] == asked;
    if w.resolvesController(b + pre + [start], route) {
      var effects := asked + [End(ControllerResolver)];
      HangsSnoc(w, b + pre, request, asked, End(ControllerResolver));
      Associative(b, pre, effects);
      FromAuthenticationAnswers(w, b, request, pre + effects, route);
      AnswersLater(
        w, b, request, pre, effects, FromAuthentication(w, b + pre + effects, request, route));
    }
  }

  lemma NoRouteAnswers(w: World, b: Trace, request: Request, pre: Trace)
    requires pre != []
    requires Explains(
      w, b + pre[..|pre| - 1], request, pre[|pre| - 1], NotFound(request.httpMethod, request.path))
    ensures Answers(w, b, request, pre, FromRoute(w, b + pre, request, None))
  {
    var stages := pre + [End(RequestExecution)];
    assert stages[..|stages| - 2] == pre[..|pre| - 1];
    OneHangs(w, b + pre, request, End(RequestExecution));
  }

  lemma SearchAnswers(w: World, b: Trace, request: Request, pre: Trace, effects: Trace)
    requires effects == [Start(FindMethodRouterNode), FindRoute, End(FindMethodRouterNode)]
    ensures var route := w.findRoute(b + pre + [Start(FindMethodRouterNode)], request);
            Answers(w, b, request, pre, After(effects, FromRoute(w, b + pre + effects, request, route)))
  {
    var route := w.findRoute(b + pre + [Start(FindMethodRouterNode)], request);
    ThreeCalm(w, b + pre, request, Start(FindMethodRouterNode), FindRoute, End(FindMethodRouterNode));
    assert effects == [Start(FindMethodRouterNode), FindRoute] + [End(FindMethodRouterNode)];
    Associative(b, pre, effects);
    if route.Some? {
      FromControllerAnswers(w, b, request, pre + effects, route.value);
    } else {
      var before := b + (pre + effects)[..|pre + effects| - 1];
      assert before == b + pre + [Start(FindMethodRouterNode), FindRoute];
      assert before[..|before| - 1] == b + pre + [Start(FindMethodRouterNode)];
      NoRouteAnswers(w, b, request, pre + effects);
    }
    AnswersLater(w, b, request, pre, effects, FromRoute(w, b + pre + effects, request, route));
  }

  lemma ExecutionAnswers(w: World, b: Trace, request: Request)
    requires w.parsesUrl(request)
    ensures Answers(w, b, request, [], Executed(w, b, request))
  {
    var first := [Start(RequestExecution)];
    var b' := b + first;
    assert b + [] == b && [] + first == first;
    OneHangs(w, b, request, Start(RequestExecution));
    match w.cachedRoute(b', request) {
      case Some(None) =>
        assert b + first[..0] == b;
        NoRouteAnswers(w, b, request, first);
      case Some(Some(route)) => FromControllerAnswers(w, b, request, first, route);
      case None =>
        SearchAnswers(w, b, request, first, [Start(FindMethodRouterNode), FindRoute, End(FindMethodRouterNode)]);
    }
    AnswersLater(w, b, request, [], first, FromLookUp(w, b', request));
  }

  /** A promise that settles does so after the execution span ended, with what the response interceptors make of the
      response of the controller, or with what the responder and then the interceptors make of one error. */
  ghost predicate Settles(w: World, b: Trace, request: Request, x: Execution) {
    && x.stages != [] && x.stages[|x.stages| - 1] == End(RequestExecution)
    && if x.answering == [] then AnswersCall(w, b, request, x.stages, x.outcome)
       else
         && x.answering[0].Respond?
         && AnswersError(w, b + x.stages, request, x.answering[0].error, x.answering, x.outcome)
  }

  /** The same as functions of the effects. */
  ghost predicate Ends(w: World, b: Trace, request: Request, x: Execution) {
    && x.stages != [] && x.stages[|x.stages| - 1] == End(RequestExecution)
    && if x.answering == [] then x.outcome.Answered?
       else
         && x.answering[0].Respond?
         && var c := Errors(w, b + x.stages, request, x.answering[0].error);
            x.answering == c.effects && x.outcome == Settled(c.reply)
  }

  ghost predicate Finishes(w: World, b: Trace, request: Request, x: Execution) {
    && (x.outcome.Unsettled? <==> !w.parsesUrl(request) || SomeHangs(w, b, request, x.stages))
    && (if x.outcome.Unsettled?
        then x.answering == [] && (x.stages == [Start(RequestExecution)] || LastHangs(w, b, request, x.stages))
        else Ends(w, b, request, x))
    && Explained(w, b, request, x.stages, x.answering)
  }

  lemma AnswersFinishes(w: World, b: Trace, request: Request, x: Execution)
    requires w.parsesUrl(request) && Answers(w, b, request, [], x)
    ensures Finishes(w, b, request, x)
  {
    assert b + [] == b && [] + x.stages == x.stages;
  }

  lemma ExecutionFinishes(w: World, b: Trace, request: Request)
    ensures Finishes(w, b, request, Executed(w, b, request))
  {
    if w.parsesUrl(request) {
      ExecutionAnswers(w, b, request);
      AnswersFinishes(w, b, request, Executed(w, b, request));
    } else {
      assert Executed(w, b, request) == Execution([Start(RequestExecution)], [], Unsettled);
    }
  }

  /** Every request settles, with exactly these exceptions: its URL does not parse, the controller of its route
      cannot be resolved, or `undefined` or `null` is thrown into one of the two catch blocks. */
  lemma UnsettledExactlyWhen(w: World, b: Trace, request: Request)
    ensures var x := Executed(w, b, request);
            x.outcome.Unsettled? <==> !w.parsesUrl(request) || SomeHangs(w, b, request, x.stages)
  {
    ExecutionFinishes(w, b, request);
  }

  lemma ExecutionCloses(w: World, b: Trace, request: Request)
    ensures var x := Executed(w, b, request);
            if x.outcome.Unsettled? then x.answering == [] else Settles(w, b, request, x)
  {
    var x := Executed(w, b, request);
    ExecutionFinishes(w, b, request);
    if !x.outcome.Unsettled? {
      if x.answering == [] {
        ExecutionSays(w, b, request);
      } else {
        ErrorsAnswer(w, b + x.stages, request, x.answering[0].error);
      }
    }
  }

  /** The error that is answered, if one is, is the one that the last stage gave rise to, and none is answered
      without a cause. */
  lemma ErrorIsExplained(w: World, b: Trace, request: Request)
    ensures Explained(w, b, request, Executed(w, b, request).stages, Executed(w, b, request).answering)
  {
    ExecutionFinishes(w, b, request);
  }

  // ------------------------------------------------------------------- an input for each exception

  /** Surroundings in which every request is answered with an empty body. */
  function Plain(): World {
    World(
      _ => true, (_, _) => None, (_, _) => Some(Route(0, [])), (_, _) => true, (_, _, _) => Returned(None),
      (_, _, _, _) => Returned(true), _ => Returned(None), (_, _, _) => Returned(None), (_, _, _, _) => Returned(None),
      (_, _, _, _, _) => Returned(None), (_, _) => Returned(None), (_, _, _, _) => Returned(""), (_, _) => None,
      (_, _, _) => Returned(Body("")), _ => Response(500, "", map[], None))
  }

  lemma UnparsedUrlHangs(w: World, request: Request)
    requires w == Plain().(parsesUrl := (r: Request) => r.path != "//") && request == Request("GET", "//", map[], "")
    ensures Executed(w, [], request) == Execution([Start(RequestExecution)], [], Unsettled)
  {
  }

  lemma UnresolvedControllerHangs(w: World, request: Request)
    requires w == Plain().(resolvesController := (_, _) => false)
    ensures Executed(w, [], request).outcome.Unsettled?
  {
  }

  lemma UndefinedErrorHangs(w: World, request: Request)
    requires w == Plain().(call := (_, _, _) => Threw(Nullish))
    ensures Executed(w, [], request).outcome.Unsettled?
  {
  }

  // ------------------------------------------------------------------- once

  ghost predicate OnlyInterceptors(effects: Trace) {
    forall k :: 0 <= k < |effects| ==> effects[k].Collect? || effects[k].Intercept? || effects[k].Respond?
  }

  lemma ChainOnlyIntercepts(w: World, b: Trace, stage: Stage, m: Message, request: Request)
    requires Fits(stage, m)
    ensures OnlyInterceptors(Chain(w, b, stage, m, request).effects)
  {
    if w.interceptors(b).Returned? && w.interceptors(b).value.Some? {
      FoldVisits(w, b + [Collect(stage)], stage, ByPriority(w.interceptors(b).value.value), m, request);
    }
  }

  lemma ErrorsOnlyIntercept(w: World, b: Trace, request: Request, error: Error)
    ensures OnlyInterceptors(Errors(w, b, request, error).effects)
  {
    var first := Outgoing(ErrorResponse(w, request, error));
    ChainOnlyIntercepts(w, b + [Respond(error)], ForError(error), first, request);
    var c := Chain(w, b + [Respond(error)], ForError(error), first, request);
    if c.reply.Returned? {
      ChainOnlyIntercepts(w, b + ([Respond(error)] + c.effects), ForResponse, c.reply.value, request);
    }
  }

  lemma AnsweringOnlyIntercepts(w: World, b: Trace, request: Request)
    ensures OnlyInterceptors(Executed(w, b, request).answering)
  {
    var x := Executed(w, b, request);
    ExecutionFinishes(w, b, request);
    if x.answering != [] {
      ErrorsOnlyIntercept(w, b + x.stages, request, x.answering[0].error);
    }
  }

  lemma LastIsOnlyOne(stages: Trace, answering: Trace, span: Effect)
    requires InOrder(stages) && OnlyInterceptors(answering) && span.End?
    requires stages != [] && stages[|stages| - 1] == span
    ensures multiset(stages + answering)[span] == 1
  {
    var before := stages[..|stages| - 1];
    assert stages == before + [span];
    assert span !in before by {
      assert forall k :: 0 <= k < |before| ==> before[k] == stages[k];
    }
    assert span !in answering;
    assert multiset(stages + answering) == multiset(before) + multiset{span} + multiset(answering);
  }

  /** The execution span ends exactly once when the promise settles and never when it does not, and it ends
      before the error, if there is one, is answered. */
  lemma ExecutionSpanEndsOnce(w: World, b: Trace, request: Request)
    ensures var x := Executed(w, b, request);
            multiset(Effects(x))[End(RequestExecution)] == (if x.outcome.Unsettled? then 0 else 1)
  {
    StagesInOrder(w, b, request);
    ExecutionFinishes(w, b, request);
    AnsweringOnlyIntercepts(w, b, request);
    SpanEnds(Executed(w, b, request));
  }

  lemma SpanEnds(x: Execution)
    requires InOrder(x.stages) && OnlyInterceptors(x.answering)
    requires x.outcome.Unsettled? ==> x.answering == [] && End(RequestExecution) !in x.stages
    requires !x.outcome.Unsettled? ==> x.stages != [] && x.stages[|x.stages| - 1] == End(RequestExecution)
    ensures multiset(Effects(x))[End(RequestExecution)] == (if x.outcome.Unsettled? then 0 else 1)
  {
    if x.outcome.Unsettled? {
      assert Effects(x) == x.stages;
    } else {
      LastIsOnlyOne(x.stages, x.answering, End(RequestExecution));
    }
  }

  ghost predicate OneCall(effects: Trace, n: nat) {
    forall i, j :: 0 <= i < |effects| && 0 <= j < |effects| && effects[i].Call? && effects[j].Call? ==> i == j < n
  }

  lemma OrderedOneCall(stages: Trace, answering: Trace)
    requires InOrder(stages) && OnlyInterceptors(answering)
    ensures OneCall(stages + answering, |stages|)
  {
    assert forall k :: |stages| <= k < |stages + answering| ==> (stages + answering)[k] == answering[k - |stages|];
  }

  /** The controller is called at most once, whatever the surroundings reply, and never while an error is
      answered. */
  lemma ControllerCalledAtMostOnce(w: World, b: Trace, request: Request)
    ensures OneCall(Effects(Executed(w, b, request)), |Executed(w, b, request).stages|)
  {
    StagesInOrder(w, b, request);
    AnsweringOnlyIntercepts(w, b, request);
    OrderedOneCall(Executed(w, b, request).stages, Executed(w, b, request).answering);
  }
}
