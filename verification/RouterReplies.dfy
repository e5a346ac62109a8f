/** When the promise of `execute` never settles, read off the replies alone. */
module RouterReplies {
  import opened Common
  import opened Router
  import opened RouterGates

  // Each predicate says of the stages from one on, begun after `b`, that nothing settles the promise.

  /** `undefined` or `null` is thrown by a response interceptor, or instead of the interceptors. */
  ghost predicate StuckResponding(w: World, b: Trace, request: Request, response: Response) {
    Chain(w, b, ForResponse, Outgoing(response), request).reply == Threw(Nullish)
  }

  /** By the controller, or after it has answered. */
  ghost predicate StuckCalling(w: World, b: Trace, request: Request, route: Route, arguments: seq<string>) {
    match w.call(b, route, arguments)
    case Threw(e) => e.Nullish?
    case Returned(answer) =>
      StuckResponding(w, b + [Call(route, arguments), Start(ResponseInterceptors)], request, Wrapped(answer))
  }

  ghost predicate StuckStoring(w: World, b: Trace, request: Request, route: Route, r: Request, arguments: seq<string>) {
    match w.storeArguments(b, r)
    case Some(e) => e.Nullish?
    case None => StuckCalling(w, b + [Store(r, arguments)], request, route, arguments)
  }

  /** By an argument, by the cache that takes them, or once they are there. */
  ghost predicate StuckResolving(w: World, b: Trace, request: Request, route: Route, identity: Identity, r: Request) {
    var found := Resolve(w, b, route.methodArguments, r, identity);
    match found.reply
    case Threw(e) => e.Nullish?
    case Returned(arguments) => StuckStoring(w, b + found.effects, request, route, r, arguments)
  }

  ghost predicate StuckOnArguments(w: World, b: Trace, request: Request, route: Route, identity: Identity, r: Request) {
    match w.cachedArguments(b, r)
    case Threw(e) => e.Nullish?
    case Returned(Some(arguments)) => StuckCalling(w, b + [LookUp(r)], request, route, arguments)
    case Returned(None) => StuckResolving(w, b + [LookUp(r)], request, route, identity, r)
  }

  /** Instead of the interceptors, but by none of them: what a request interceptor throws has a message by then. */
  ghost predicate StuckIntercepting(w: World, b: Trace, request: Request, route: Route, identity: Identity) {
    var c := Chain(w, b, ForRequest, Incoming(request), request);
    || w.interceptors(b) == Threw(Nullish)
    || (c.reply.Returned?
        && StuckOnArguments(w, b + (c.effects + [End(RequestInterceptors)]), request, route, identity,
                            c.reply.value.request))
  }

  /** By the authorizer, or after it has said yes. */
  ghost predicate StuckAuthorizing(w: World, b: Trace, request: Request, route: Route, identity: Identity) {
    match w.authorize(b, request, route, identity)
    case Threw(e) => e.Nullish?
    case Returned(allowed) =>
      allowed && StuckIntercepting(
        w, b + ([Authorize(route, identity)] + [Start(RequestInterceptors)]), request, route, identity)
  }

  /** By the authenticator, or after it has given an identity. */
  ghost predicate StuckAuthenticating(w: World, b: Trace, request: Request, route: Route) {
    match w.authenticate(b + [Start(RequestAuthentication)], request, route)
    case Threw(e) => e.Nullish?
    case Returned(identity) =>
      StuckAuthorizing(
        w, b + ([Start(RequestAuthentication), Authenticate(route)] + [End(RequestAuthentication)]), request, route,
        identity)
  }

  /** The controller does not resolve, or after it does. */
  ghost predicate StuckOnRoute(w: World, b: Trace, request: Request, route: Route) {
    || !w.resolvesController(b + [Start(ControllerResolver)], route)
    || StuckAuthenticating(
         w, b + ([Start(ControllerResolver), ResolveController(route)] + [End(ControllerResolver)]), request, route)
  }

  /** What has happened when the route is known. */
  ghost function TraceAtRoute(w: World, b: Trace, request: Request): Trace {
    var begun := b + [Start(RequestExecution)];
    if w.cachedRoute(begun, request).Some? then begun
    else begun + [Start(FindMethodRouterNode), FindRoute, End(FindMethodRouterNode)]
  }

  // ------------------------------------------------------------------- each stage

  lemma {:induction false} RequestLoopReplaces(
      w: World, b: Trace, list: seq<Interceptor>, m: Message, request: Request)
    requires Fits(ForRequest, m)
    ensures Fold(w, b, ForRequest, list, m, request).reply != Threw(Nullish)
  {
    if list != [] {
      RequestLoopReplaces(w, b, list[..|list| - 1], m, request);
    }
  }

  lemma StuckFromCall(w: World, b: Trace, request: Request, route: Route, arguments: seq<string>)
    ensures FromCall(w, b, request, route, arguments).outcome.Unsettled?
       <==> StuckCalling(w, b, request, route, arguments)
  {
  }

  lemma StuckFromStore(w: World, b: Trace, request: Request, route: Route, r: Request, arguments: seq<string>)
    ensures FromStore(w, b, request, route, r, arguments).outcome.Unsettled?
       <==> StuckStoring(w, b, request, route, r, arguments)
  {
    StuckFromCall(w, b + [Store(r, arguments)], request, route, arguments);
  }

  lemma StuckFromResolution(w: World, b: Trace, request: Request, route: Route, identity: Identity, r: Request)
    ensures FromResolution(w, b, request, route, identity, r).outcome.Unsettled?
       <==> StuckResolving(w, b, request, route, identity, r)
  {
    var found := Resolve(w, b, route.methodArguments, r, identity);
    if found.reply.Returned? {
      StuckFromStore(w, b + found.effects, request, route, r, found.reply.value);
    }
  }

  lemma StuckFromArguments(w: World, b: Trace, request: Request, route: Route, identity: Identity, r: Request)
    ensures FromArguments(w, b, request, route, identity, r).outcome.Unsettled?
       <==> StuckOnArguments(w, b, request, route, identity, r)
  {
    match w.cachedArguments(b, r) {
      case Threw(_) =>
      case Returned(Some(arguments)) => StuckFromCall(w, b + [LookUp(r)], request, route, arguments);
      case Returned(None) => StuckFromResolution(w, b + [LookUp(r)], request, route, identity, r);
    }
  }

  lemma StuckFromInterceptors(w: World, b: Trace, request: Request, route: Route, identity: Identity)
    ensures FromInterceptors(w, b, request, route, identity).outcome.Unsettled?
       <==> StuckIntercepting(w, b, request, route, identity)
  {
    var c := Chain(w, b, ForRequest, Incoming(request), request);
    match w.interceptors(b) {
      case Threw(_) =>
      case Returned(None) =>
      case Returned(Some(list)) =>
        RequestLoopReplaces(w, b + [Collect(ForRequest)], ByPriority(list), Incoming(request), request);
    }
    if c.reply.Returned? {
      StuckFromArguments(
        w, b + (c.effects + [End(RequestInterceptors)]), request, route, identity, c.reply.value.request);
    }
  }

  lemma StuckFromAuthorization(w: World, b: Trace, request: Request, route: Route, identity: Identity)
    ensures FromAuthorization(w, b, request, route, identity).outcome.Unsettled?
       <==> StuckAuthorizing(w, b, request, route, identity)
  {
    StuckFromInterceptors(
      w, b + ([Authorize(route, identity)] + [Start(RequestInterceptors)]), request, route, identity);
  }

  lemma StuckFromAuthentication(w: World, b: Trace, request: Request, route: Route)
    ensures FromAuthentication(w, b, request, route).outcome.Unsettled?
       <==> StuckAuthenticating(w, b, request, route)
  {
    var reply := w.authenticate(b + [Start(RequestAuthentication)], request, route);
    if reply.Returned? {
      StuckFromAuthorization(
        w, b + ([Start(RequestAuthentication), Authenticate(route)] + [End(RequestAuthentication)]), request, route,
        reply.value);
    }
  }

  lemma StuckFromRoute(w: World, b: Trace, request: Request, route: Option<Route>)
    ensures FromRoute(w, b, request, route).outcome.Unsettled?
       <==> route.Some? && StuckOnRoute(w, b, request, route.value)
  {
    if route.Some? {
      StuckFromAuthentication(
        w, b + ([Start(ControllerResolver), ResolveController(route.value)] + [End(ControllerResolver)]), request,
        route.value);
    }
  }

  /** The promise never settles exactly when the URL does not parse, or a route is found and the replies to its
      controller, its guards, its arguments and the interceptors, each as it comes, throw `undefined` or `null` or
      leave the controller unresolved. */
  lemma UnsettledByReplies(w: World, b: Trace, request: Request)
    ensures Executed(w, b, request).outcome.Unsettled? <==>
              || !w.parsesUrl(request)
              || (RouteOf(w, b, request).Some?
                  && StuckOnRoute(w, TraceAtRoute(w, b, request), request, RouteOf(w, b, request).value))
  {
    StuckFromRoute(w, TraceAtRoute(w, b, request), request, RouteOf(w, b, request));
  }
}
