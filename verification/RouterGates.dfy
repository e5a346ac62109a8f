/** What has happened, in every execution of the router, before the controller is called. */
module RouterGates {
  import opened Common
  import opened Router
  import opened RouterOrder

  ghost predicate HasCall(effects: Trace) {
    exists k :: 0 <= k < |effects| && effects[k].Call?
  }

  lemma NoCallInFailing(w: World, b: Trace, request: Request, e: Error)
    ensures !HasCall(Failing(w, b, request, e).stages) && !HasCall(Caught(w, b, request, e).stages)
  {
  }

  lemma NoCallInChain(w: World, b: Trace, stage: Stage, m: Message, request: Request)
    requires Fits(stage, m)
    ensures !HasCall(Chain(w, b, stage, m, request).effects)
  {
    if w.interceptors(b).Returned? && w.interceptors(b).value.Some? {
      FoldVisits(w, b + [Collect(stage)], stage, ByPriority(w.interceptors(b).value.value), m, request);
    }
  }

  // ------------------------------------------------------------------- the arguments

  /** Each value answers for its argument, the intercepted request and the identity, in the order of the route. */
  ghost predicate OneByOne(
      w: World, b: Trace, arguments: seq<nat>, r: Request, identity: Identity, effects: Trace, values: seq<string>)
  {
    && |effects| == |values| == |arguments|
    && forall k :: 0 <= k < |arguments| ==>
        && effects[k] == ResolveArgument(arguments[k], r, identity)
        && w.resolveArgument(b + effects[..k], arguments[k], r, identity) == Returned(values[k])
  }

  lemma OneMore(
      w: World, b: Trace, arguments: seq<nat>, r: Request, identity: Identity, effects: Trace, values: seq<string>,
      argument: nat, value: string)
    requires OneByOne(w, b, arguments, r, identity, effects, values)
    requires w.resolveArgument(b + effects, argument, r, identity) == Returned(value)
    ensures OneByOne(
      w, b, arguments + [argument], r, identity, effects + [ResolveArgument(argument, r, identity)], values + [value])
  {
    var after := effects + [ResolveArgument(argument, r, identity)];
    forall k | 0 <= k < |arguments + [argument]|
      ensures w.resolveArgument(b + after[..k], (arguments + [argument])[k], r, identity)
           == Returned((values + [value])[k])
    {
      assert after[..k] == effects[..k];
      assert k == |arguments| ==> effects[..k] == effects;
    }
  }

  lemma {:induction false} ResolvedOneByOne(w: World, b: Trace, arguments: seq<nat>, r: Request, identity: Identity)
    requires Resolve(w, b, arguments, r, identity).reply.Returned?
    ensures var found := Resolve(w, b, arguments, r, identity);
            OneByOne(w, b, arguments, r, identity, found.effects, found.reply.value)
  {
    if arguments != [] {
      var shorter := arguments[..|arguments| - 1];
      var argument := arguments[|arguments| - 1];
      ResolvedOneByOne(w, b, shorter, r, identity);
      var before := Resolve(w, b, shorter, r, identity);
      var value := w.resolveArgument(b + before.effects, argument, r, identity).value;
      OneMore(w, b, shorter, r, identity, before.effects, before.reply.value, argument, value);
      assert arguments == shorter + [argument];
    }
  }

  /** The arguments cached for a request or, when there are none, one value per argument of the route, each
      resolved from that request and the identity. */
  ghost predicate AreArguments(
      w: World, b: Trace, route: Route, identity: Identity, r: Request, arguments: seq<string>)
  {
    || w.cachedArguments(b, r) == Returned(Some(arguments))
    || (&& w.cachedArguments(b, r) == Returned(None)
        && OneByOne(
            w, b + [LookUp(r)], route.methodArguments, r, identity,
            Resolve(w, b + [LookUp(r)], route.methodArguments, r, identity).effects, arguments))
  }

  /** Only this route is called, and only with the arguments for this request. */
  ghost predicate CallsOnly(
      w: World, b: Trace, route: Route, identity: Identity, r: Request, stages: Trace)
  {
    forall called, arguments :: Call(called, arguments) in stages ==>
      called == route && AreArguments(w, b, route, identity, r, arguments)
  }

  lemma ArgumentsAreOfIntercepted(
      w: World, b: Trace, request: Request, route: Route, identity: Identity, r: Request)
    ensures CallsOnly(w, b, route, identity, r, FromArguments(w, b, request, route, identity, r).stages)
  {
    var b' := b + [LookUp(r)];
    var stages := FromArguments(w, b, request, route, identity, r).stages;
    forall called, arguments | Call(called, arguments) in stages
      ensures called == route && AreArguments(w, b, route, identity, r, arguments)
    {
      match w.cachedArguments(b, r) {
        case Threw(e) => assert false;
        case Returned(Some(cached)) => CalledWith(w, b', request, route, cached, called, arguments);
        case Returned(None) =>
          ResolvedCall(w, b', request, route, identity, r, called, arguments);
          ResolvedOneByOne(w, b', route.methodArguments, r, identity);
      }
    }
  }

  lemma CalledWith(
      w: World, b: Trace, request: Request, route: Route, given: seq<string>, called: Route, arguments: seq<string>)
    requires Call(called, arguments) in FromCall(w, b, request, route, given).stages
    ensures called == route && arguments == given
  {
    var before := [Call(route, given), Start(ResponseInterceptors)];
    if w.call(b, route, given).Returned? {
      var response := Wrapped(w.call(b, route, given).value);
      FromResponseOrdered(w, b + before, request, response);
      assert Call(called, arguments) !in FromResponse(w, b + before, request, response).stages;
    }
  }

  lemma ResolvedCall(
      w: World, b: Trace, request: Request, route: Route, identity: Identity, r: Request, called: Route,
      arguments: seq<string>)
    requires Call(called, arguments) in FromResolution(w, b, request, route, identity, r).stages
    ensures called == route && Resolve(w, b, route.methodArguments, r, identity).reply == Returned(arguments)
  {
    var found := Resolve(w, b, route.methodArguments, r, identity);
    ResolveOrdered(w, b, route.methodArguments, r, identity);
    assert Call(called, arguments) !in found.effects;
    match found.reply {
      case Threw(e) =>
        assert false;
      case Returned(values) =>
        var b' := b + found.effects;
        var stored := [Store(r, values)];
        assert Call(called, arguments) in FromStore(w, b', request, route, r, values).stages;
        match w.storeArguments(b', r) {
          case Some(e) =>
            assert false;
          case None => CalledWith(w, b' + stored, request, route, values, called, arguments);
        }
    }
  }

  // ------------------------------------------------------------------- the gates

  /** From authentication on, before a call of the controller: the guards of `route` were asked, authentication
      gave `identity`, authorization said yes to it, the request interceptors turned `request` into
      `intercepted`, and only `route` is called, with the arguments for that request. */
  ghost predicate Gates(
      w: World, b: Trace, request: Request, route: Route, identity: Identity, intercepted: Request, stages: Trace)
  {
    var first := [Start(RequestAuthentication), Authenticate(route), End(RequestAuthentication)];
    var second := [Authorize(route, identity), Start(RequestInterceptors)];
    var c := Chain(w, b + first + second, ForRequest, Incoming(request), request);
    var third := c.effects + [End(RequestInterceptors)];
    && w.authenticate(b + [Start(RequestAuthentication)], request, route) == Returned(identity)
    && w.authorize(b + first, request, route, identity) == Returned(true)
    && c.reply == Returned(Incoming(intercepted))
    && first + (second + third) <= stages
    && CallsOnly(w, b + first + second + third, route, identity, intercepted, stages[|first + (second + third)|..])
  }

  lemma AuthenticationGates(w: World, b: Trace, request: Request, route: Route)
    returns (identity: Identity, rest: Trace)
    requires HasCall(FromAuthentication(w, b, request, route).stages)
    ensures w.authenticate(b + [Start(RequestAuthentication)], request, route) == Returned(identity)
    ensures FromAuthentication(w, b, request, route).stages
         == [Start(RequestAuthentication), Authenticate(route), End(RequestAuthentication)] + rest
    ensures rest == FromAuthorization(
      w, b + [Start(RequestAuthentication), Authenticate(route), End(RequestAuthentication)], request, route,
      identity).stages
    ensures HasCall(rest)
  {
    var asked := [Start(RequestAuthentication), Authenticate(route)];
    match w.authenticate(b + [Start(RequestAuthentication)], request, route) {
      case Threw(e) =>
        NoCallInFailing(w, b + asked, request, if e.Nullish? then e else AuthenticationError(e));
        assert false;
      case Returned(i) =>
        identity := i;
        var effects := asked + [End(RequestAuthentication)];
        assert effects == [Start(RequestAuthentication), Authenticate(route), End(RequestAuthentication)];
        rest := FromAuthorization(w, b + effects, request, route, identity).stages;
    }
  }

  lemma AuthorizationGates(w: World, b: Trace, request: Request, route: Route, identity: Identity)
    returns (rest: Trace)
    requires HasCall(FromAuthorization(w, b, request, route, identity).stages)
    ensures w.authorize(b, request, route, identity) == Returned(true)
    ensures FromAuthorization(w, b, request, route, identity).stages
         == [Authorize(route, identity), Start(RequestInterceptors)] + rest
    ensures rest == FromInterceptors(
      w, b + [Authorize(route, identity), Start(RequestInterceptors)], request, route, identity).stages
    ensures HasCall(rest)
  {
    var asked := [Authorize(route, identity)];
    match w.authorize(b, request, route, identity) {
      case Threw(e) =>
        NoCallInFailing(w, b + asked, request, e);
        assert false;
      case Returned(false) =>
        NoCallInFailing(w, b + asked, request, Forbidden);
        assert false;
      case Returned(true) =>
        var effects := asked + [Start(RequestInterceptors)];
        assert effects == [Authorize(route, identity), Start(RequestInterceptors)];
        rest := FromInterceptors(w, b + effects, request, route, identity).stages;
    }
  }

  lemma InterceptorsGate(w: World, b: Trace, request: Request, route: Route, identity: Identity)
    returns (intercepted: Request)
    requires HasCall(FromInterceptors(w, b, request, route, identity).stages)
    ensures var c := Chain(w, b, ForRequest, Incoming(request), request);
            var done := c.effects + [End(RequestInterceptors)];
            && c.reply == Returned(Incoming(intercepted))
            && FromInterceptors(w, b, request, route, identity).stages
                == done + FromArguments(w, b + done, request, route, identity, intercepted).stages
  {
    var c := Chain(w, b, ForRequest, Incoming(request), request);
    match c.reply {
      case Threw(e) =>
        NoCallInChain(w, b, ForRequest, Incoming(request), request);
        NoCallInFailing(w, b + c.effects, request, e);
        assert false;
      case Returned(m) =>
        intercepted := m.request;
    }
  }

  lemma Prefixed(first: Trace, second: Trace, third: Trace, rest: Trace)
    ensures var stages := first + (second + (third + rest));
            first + (second + third) <= stages && stages[|first + (second + third)|..] == rest
  {
  }

  lemma AuthenticatedIsGated(w: World, b: Trace, request: Request, route: Route)
    returns (identity: Identity, intercepted: Request)
    requires HasCall(FromAuthentication(w, b, request, route).stages)
    ensures Gates(w, b, request, route, identity, intercepted, FromAuthentication(w, b, request, route).stages)
  {
    var rest, last;
    identity, rest := AuthenticationGates(w, b, request, route);
    var first := [Start(RequestAuthentication), Authenticate(route), End(RequestAuthentication)];
    last := AuthorizationGates(w, b + first, request, route, identity);
    var second := [Authorize(route, identity), Start(RequestInterceptors)];
    var b' := b + first + second;
    intercepted := InterceptorsGate(w, b', request, route, identity);
    var third := Chain(w, b', ForRequest, Incoming(request), request).effects + [End(RequestInterceptors)];
    ArgumentsAreOfIntercepted(w, b' + third, request, route, identity, intercepted);
    Prefixed(first, second, third, FromArguments(w, b' + third, request, route, identity, intercepted).stages);
  }

  ghost predicate IsGated(w: World, b: Trace, request: Request, route: Route, stages: Trace) {
    exists pre, identity, intercepted, rest ::
      stages == pre + rest && !HasCall(pre) && Gates(w, b + pre, request, route, identity, intercepted, rest)
  }

  lemma ControllerGates(w: World, b: Trace, request: Request, route: Route) returns (pre: Trace, rest: Trace)
    requires HasCall(FromController(w, b, request, route).stages)
    ensures FromController(w, b, request, route).stages == pre + rest
    ensures !HasCall(pre) && HasCall(rest) && rest == FromAuthentication(w, b + pre, request, route).stages
  {
    pre := [Start(ControllerResolver), ResolveController(route)] + [End(ControllerResolver)];
    rest := FromAuthentication(w, b + pre, request, route).stages;
    assert w.resolvesController(b + [Start(ControllerResolver)], route);
  }

  /** A controller is called only for a route, and behind its gates. */
  ghost predicate CallsAreGated(w: World, b: Trace, request: Request, route: Option<Route>, stages: Trace) {
    HasCall(stages) ==> route.Some? && IsGated(w, b, request, route.value, stages)
  }

  lemma RouteIsGated(w: World, b: Trace, request: Request, route: Option<Route>)
    ensures CallsAreGated(w, b, request, route, FromRoute(w, b, request, route).stages)
  {
    if HasCall(FromRoute(w, b, request, route).stages) {
      if route.None? {
        NoCallInFailing(w, b, request, NotFound(request.httpMethod, request.path));
        assert false;
      } else {
        var pre, rest := ControllerGates(w, b, request, route.value);
        var identity, intercepted := AuthenticatedIsGated(w, b + pre, request, route.value);
      }
    }
  }

  lemma GatedLater(w: World, b: Trace, request: Request, route: Route, effects: Trace, stages: Trace)
    ensures IsGated(w, b + effects, request, route, stages) && !HasCall(effects)
        ==> IsGated(w, b, request, route, effects + stages)
  {
    if IsGated(w, b + effects, request, route, stages) && !HasCall(effects) {
      var pre, identity, intercepted, rest :| stages == pre + rest && !HasCall(pre)
        && Gates(w, b + effects + pre, request, route, identity, intercepted, rest);
      Associative(b, effects, pre);
      Associative(effects, pre, rest);
      assert effects + stages == (effects + pre) + rest;
      assert Gates(w, b + (effects + pre), request, route, identity, intercepted, rest);
    }
  }

  lemma CallsGatedLater(w: World, b: Trace, request: Request, route: Option<Route>, effects: Trace, stages: Trace)
    requires CallsAreGated(w, b + effects, request, route, stages) && !HasCall(effects)
    ensures CallsAreGated(w, b, request, route, effects + stages)
  {
    if HasCall(effects + stages) {
      GatedLater(w, b, request, route.value, effects, stages);
    }
  }

  /** The route of a request: the cached one, or what the search finds. */
  ghost function RouteFrom(w: World, b: Trace, request: Request): Option<Route> {
    match w.cachedRoute(b, request)
    case Some(route) => route
    case None => w.findRoute(b + [Start(FindMethodRouterNode)], request)
  }

  ghost function RouteOf(w: World, b: Trace, request: Request): Option<Route> {
    RouteFrom(w, b + [Start(RequestExecution)], request)
  }

  lemma LookUpIsGated(w: World, b: Trace, request: Request)
    ensures CallsAreGated(w, b, request, RouteFrom(w, b, request), FromLookUp(w, b, request).stages)
  {
    var route := RouteFrom(w, b, request);
    if w.cachedRoute(b, request).Some? {
      RouteIsGated(w, b, request, route);
    } else {
      var effects := [Start(FindMethodRouterNode), FindRoute, End(FindMethodRouterNode)];
      RouteIsGated(w, b + effects, request, route);
      CallsGatedLater(w, b, request, route, effects, FromRoute(w, b + effects, request, route).stages);
    }
  }

  /** The controller called is that of the route found, and only after the guards of that route were asked:
      authentication returned an identity, authorization answered true for it, and the request interceptors ran
      to the end. It is called with the arguments for the intercepted request. */
  lemma ControllerIsGated(w: World, b: Trace, request: Request)
    ensures CallsAreGated(w, b, request, RouteOf(w, b, request), Executed(w, b, request).stages)
  {
    var first := [Start(RequestExecution)];
    LookUpIsGated(w, b + first, request);
    CallsGatedLater(w, b, request, RouteOf(w, b, request), first, FromUrl(w, b + first, request).stages);
  }
}
