/** The order in which every execution of the router goes through its stages. */
module RouterOrder {
  import opened Common
  import opened Router

  // ------------------------------------------------------------------- order of the stages

  const LAST := 23

  /** The place of each effect in the request's lifecycle; effects that answer an error have none. */
  function Rank(e: Effect): nat {
    match e
    case Start(RequestExecution) => 0
    case Start(FindMethodRouterNode) => 1
    case FindRoute => 2
    case End(FindMethodRouterNode) => 3
    case Start(ControllerResolver) => 4
    case ResolveController(_) => 5
    case End(ControllerResolver) => 6
    case Start(RequestAuthentication) => 7
    case Authenticate(_) => 8
    case End(RequestAuthentication) => 9
    case Authorize(_, _) => 10
    case Start(RequestInterceptors) => 11
    case Collect(ForRequest) => 12
    case Intercept(ForRequest, _, _) => 13
    case End(RequestInterceptors) => 14
    case LookUp(_) => 15
    case ResolveArgument(_, _, _) => 16
    case Store(_, _) => 17
    case Call(_, _) => 18
    case Start(ResponseInterceptors) => 19
    case Collect(ForResponse) => 20
    case Intercept(ForResponse, _, _) => 21
    case End(ResponseInterceptors) => 22
    case End(RequestExecution) => LAST
    case _ => LAST + 1
  }

  /** Only interceptors and arguments come more than once. */
  predicate Repeats(e: Effect) { e.Intercept? || e.ResolveArgument? }

  ghost predicate InOrder(effects: Trace) {
    forall i, j :: 0 <= i < j < |effects| ==>
      && Rank(effects[i]) <= Rank(effects[j])
      && (Rank(effects[i]) == Rank(effects[j]) ==> Repeats(effects[i]) && Repeats(effects[j]))
  }

  ghost predicate Between(effects: Trace, low: nat, high: nat) {
    forall i :: 0 <= i < |effects| ==> low <= Rank(effects[i]) <= high
  }

  ghost predicate Ordered(effects: Trace, low: nat) {
    InOrder(effects) && Between(effects, low, LAST)
  }

  lemma OrderAppends(a: Trace, b: Trace, low: nat, middle: nat)
    requires low < middle <= LAST + 1
    requires InOrder(a) && Between(a, low, middle - 1) && Ordered(b, middle)
    ensures Ordered(a + b, low)
  {
  }

  lemma OrderEnds(a: Trace, e: Effect, low: nat)
    requires low <= Rank(e) && Rank(e) > 0 && InOrder(a) && Between(a, low, Rank(e) - 1)
    ensures InOrder(a + [e]) && Between(a + [e], low, Rank(e))
  {
  }

  lemma TwoInOrder(x: Effect, y: Effect)
    requires Rank(x) < Rank(y)
    ensures InOrder([x, y]) && Between([x, y], Rank(x), Rank(y)) && [x] + [y] == [x, y]
  {
  }

  lemma ThreeInOrder(x: Effect, y: Effect, z: Effect)
    requires Rank(x) < Rank(y) < Rank(z)
    ensures InOrder([x, y] + [z]) && Between([x, y] + [z], Rank(x), Rank(z))
  {
  }

  lemma VisitsOrdered(effects: Trace, stage: Stage, list: seq<Interceptor>)
    requires Visits(effects, stage, list) && !stage.ForError?
    ensures InOrder(effects) && Between(effects, Rank(Collect(stage)) + 1, Rank(Collect(stage)) + 1)
  {
  }

  lemma ChainOrdered(w: World, b: Trace, stage: Stage, m: Message, request: Request)
    requires Fits(stage, m) && !stage.ForError?
    ensures var effects := Chain(w, b, stage, m, request).effects;
            InOrder(effects) && Between(effects, Rank(Collect(stage)), Rank(Collect(stage)) + 1)
  {
    if w.interceptors(b).Returned? && w.interceptors(b).value.Some? {
      var list := ByPriority(w.interceptors(b).value.value);
      var rest := Fold(w, b + [Collect(stage)], stage, list, m, request).effects;
      FoldVisits(w, b + [Collect(stage)], stage, list, m, request);
      VisitsOrdered(rest, stage, Implementing(list, stage));
    }
  }

  lemma FailureOrdered(w: World, b: Trace, request: Request, effects: Trace, low: nat, e: Error)
    requires low < LAST && InOrder(effects) && Between(effects, low, LAST - 1)
    ensures Ordered(effects + Failing(w, b + effects, request, e).stages, low)
  {
  }

  lemma CaughtOrdered(w: World, b: Trace, request: Request, effects: Trace, low: nat, e: Error)
    requires low < LAST && InOrder(effects) && Between(effects, low, LAST - 1)
    ensures Ordered(effects + Caught(w, b + effects, request, e).stages, low)
  {
    if e.Nullish? {
      assert effects + [] == effects;
    } else {
      FailureOrdered(w, b, request, effects, low, e);
    }
  }

  lemma FromResponseOrdered(w: World, b: Trace, request: Request, response: Response)
    ensures Ordered(FromResponse(w, b, request, response).stages, 20)
  {
    var c := Chain(w, b, ForResponse, Outgoing(response), request);
    ChainOrdered(w, b, ForResponse, Outgoing(response), request);
    if c.reply.Returned? {
      TwoInOrder(End(ResponseInterceptors), End(RequestExecution));
      OrderAppends(c.effects, [End(ResponseInterceptors), End(RequestExecution)], 20, 22);
    } else {
      CaughtOrdered(w, b, request, c.effects, 20, c.reply.error);
    }
  }

  lemma FromCallOrdered(w: World, b: Trace, request: Request, route: Route, arguments: seq<string>)
    ensures Ordered(FromCall(w, b, request, route, arguments).stages, 18)
  {
    match w.call(b, route, arguments)
    case Threw(e) =>
      CaughtOrdered(w, b, request, [Call(route, arguments)], 18, e);
    case Returned(answer) =>
      var called := [Call(route, arguments), Start(ResponseInterceptors)];
      TwoInOrder(Call(route, arguments), Start(ResponseInterceptors));
      FromResponseOrdered(w, b + called, request, Wrapped(answer));
      OrderAppends(called, FromResponse(w, b + called, request, Wrapped(answer)).stages, 18, 20);
  }

  lemma {:induction false} ResolveOrdered(w: World, b: Trace, arguments: seq<nat>, r: Request, identity: Identity)
    ensures InOrder(Resolve(w, b, arguments, r, identity).effects)
    ensures Between(Resolve(w, b, arguments, r, identity).effects, 16, 16)
  {
    if arguments != [] {
      ResolveOrdered(w, b, arguments[..|arguments| - 1], r, identity);
    }
  }

  lemma FromStoreOrdered(
      w: World, b: Trace, request: Request, route: Route, r: Request, arguments: seq<string>)
    ensures Ordered(FromStore(w, b, request, route, r, arguments).stages, 17)
  {
    var stored := [Store(r, arguments)];
    match w.storeArguments(b, r)
    case Some(e) => CaughtOrdered(w, b, request, stored, 17, e);
    case None =>
      FromCallOrdered(w, b + stored, request, route, arguments);
      OrderAppends(stored, FromCall(w, b + stored, request, route, arguments).stages, 17, 18);
  }

  lemma FromResolutionOrdered(
      w: World, b: Trace, request: Request, route: Route, identity: Identity, r: Request)
    ensures Ordered(FromResolution(w, b, request, route, identity, r).stages, 16)
  {
    var found := Resolve(w, b, route.methodArguments, r, identity);
    ResolveOrdered(w, b, route.methodArguments, r, identity);
    match found.reply
    case Threw(e) => CaughtOrdered(w, b, request, found.effects, 16, e);
    case Returned(arguments) =>
      FromStoreOrdered(w, b + found.effects, request, route, r, arguments);
      OrderAppends(found.effects, FromStore(w, b + found.effects, request, route, r, arguments).stages, 16, 17);
  }

  lemma FromArgumentsOrdered(
      w: World, b: Trace, request: Request, route: Route, identity: Identity, r: Request)
    ensures Ordered(FromArguments(w, b, request, route, identity, r).stages, 15)
  {
    var b' := b + [LookUp(r)];
    match w.cachedArguments(b, r)
    case Threw(e) => CaughtOrdered(w, b, request, [LookUp(r)], 15, e);
    case Returned(Some(arguments)) =>
      FromCallOrdered(w, b', request, route, arguments);
      OrderAppends([LookUp(r)], FromCall(w, b', request, route, arguments).stages, 15, 18);
    case Returned(None) =>
      FromResolutionOrdered(w, b', request, route, identity, r);
      OrderAppends([LookUp(r)], FromResolution(w, b', request, route, identity, r).stages, 15, 16);
  }

  lemma FromInterceptorsOrdered(w: World, b: Trace, request: Request, route: Route, identity: Identity)
    ensures Ordered(FromInterceptors(w, b, request, route, identity).stages, 12)
  {
    var c := Chain(w, b, ForRequest, Incoming(request), request);
    ChainOrdered(w, b, ForRequest, Incoming(request), request);
    match c.reply
    case Threw(e) => CaughtOrdered(w, b, request, c.effects, 12, e);
    case Returned(m) =>
      var effects := c.effects + [End(RequestInterceptors)];
      OrderEnds(c.effects, End(RequestInterceptors), 12);
      FromArgumentsOrdered(w, b + effects, request, route, identity, m.request);
      OrderAppends(
        effects, FromArguments(w, b + effects, request, route, identity, m.request).stages, 12, 15);
  }

  lemma FromAuthorizationOrdered(w: World, b: Trace, request: Request, route: Route, identity: Identity)
    ensures Ordered(FromAuthorization(w, b, request, route, identity).stages, 10)
  {
    var asked := [Authorize(route, identity)];
    match w.authorize(b, request, route, identity)
    case Threw(e) => CaughtOrdered(w, b, request, asked, 10, e);
    case Returned(false) => FailureOrdered(w, b, request, asked, 10, Forbidden);
    case Returned(true) =>
      var effects := asked + [Start(RequestInterceptors)];
      TwoInOrder(Authorize(route, identity), Start(RequestInterceptors));
      FromInterceptorsOrdered(w, b + effects, request, route, identity);
      OrderAppends(effects, FromInterceptors(w, b + effects, request, route, identity).stages, 10, 12);
  }

  lemma FromAuthenticationOrdered(w: World, b: Trace, request: Request, route: Route)
    ensures Ordered(FromAuthentication(w, b, request, route).stages, 7)
  {
    var asked := [Start(RequestAuthentication), Authenticate(route)];
    match w.authenticate(b + [Start(RequestAuthentication)], request, route)
    case Threw(Nullish) => CaughtOrdered(w, b, request, asked, 7, Nullish);
    case Threw(e) => FailureOrdered(w, b, request, asked, 7, AuthenticationError(e));
    case Returned(identity) =>
      var effects := asked + [End(RequestAuthentication)];
      ThreeInOrder(Start(RequestAuthentication), Authenticate(route), End(RequestAuthentication));
      FromAuthorizationOrdered(w, b + effects, request, route, identity);
      OrderAppends(effects, FromAuthorization(w, b + effects, request, route, identity).stages, 7, 10);
  }

  lemma FromRouteOrdered(w: World, b: Trace, request: Request, route: Option<Route>)
    ensures Ordered(FromRoute(w, b, request, route).stages, 4)
  {
    if route.Some? && w.resolvesController(b + [Start(ControllerResolver)], route.value) {
      var effects := [Start(ControllerResolver), ResolveController(route.value)] + [End(ControllerResolver)];
      ThreeInOrder(Start(ControllerResolver), ResolveController(route.value), End(ControllerResolver));
      FromAuthenticationOrdered(w, b + effects, request, route.value);
      OrderAppends(effects, FromAuthentication(w, b + effects, request, route.value).stages, 4, 7);
    }
  }

  lemma FromLookUpOrdered(w: World, b: Trace, request: Request)
    ensures Ordered(FromLookUp(w, b, request).stages, 1)
  {
    if w.cachedRoute(b, request).Some? {
      FromRouteOrdered(w, b, request, w.cachedRoute(b, request).value);
    } else {
      var effects := [Start(FindMethodRouterNode), FindRoute] + [End(FindMethodRouterNode)];
      var route := w.findRoute(b + [Start(FindMethodRouterNode)], request);
      FromRouteOrdered(w, b + effects, request, route);
      ThreeInOrder(Start(FindMethodRouterNode), FindRoute, End(FindMethodRouterNode));
      assert effects == [Start(FindMethodRouterNode), FindRoute, End(FindMethodRouterNode)];
      OrderAppends(effects, FromRoute(w, b + effects, request, route).stages, 1, 4);
    }
  }

  /** In every execution the stages follow the documented lifecycle. Each effect happens at most once, save
      the interceptors and the arguments: so the controller is called at most once, and no span ends twice or
      before it starts. No error is answered before the stages are over. */
  lemma StagesInOrder(w: World, b: Trace, request: Request)
    ensures Ordered(Executed(w, b, request).stages, 0)
  {
    var b' := b + [Start(RequestExecution)];
    FromLookUpOrdered(w, b', request);
    OrderAppends([Start(RequestExecution)], FromUrl(w, b', request).stages, 0, 1);
  }

}
