/** Which response answers a request, read off the effects of its execution and the replies to them. */
module RouterAnswers {
  import opened Common
  import opened Router

  // ------------------------------------------------------------- one interceptor after the other

  /** What one interceptor makes of the message it is given: what it returns, or the message as it was if it returns
      nothing. What it throws ends the chain; thrown `undefined` or `null` has become the error of reading its message,
      unless the interceptor is one of a response. */
  ghost predicate Leaves(w: World, b: Trace, request: Request, e: Effect, reply: Reply<Message>)
    requires e.Intercept?
  {
    match (e.stage, e.message)
    case (ForRequest, Incoming(r)) =>
      (match w.interceptRequest(b, e.interceptor.id, r)
       case Returned(Some(next)) => reply == Returned(Incoming(next))
       case Returned(None) => reply == Returned(Incoming(r))
       case Threw(error) => reply == Threw(if error == Nullish then MessageOfNothing else error))
    case (ForResponse, Outgoing(r)) =>
      (match w.interceptResponse(b, e.interceptor.id, r, request)
       case Returned(Some(next)) => reply == Returned(Outgoing(next))
       case Returned(None) => reply == Returned(Outgoing(r))
       case Threw(error) => reply == Threw(error))
    case (ForError(cause), Outgoing(r)) =>
      (match w.interceptError(b, e.interceptor.id, cause, r, request)
       case Returned(Some(next)) => reply == Returned(Outgoing(next))
       case Returned(None) => reply == Returned(Outgoing(r))
       case Threw(error) => reply == Threw(if error == Nullish then MessageOfNothing else error))
    case _ => false
  }

  lemma LeavesNext(w: World, b: Trace, request: Request, e: Effect)
    requires e.Intercept? && Fits(e.stage, e.message)
    ensures Leaves(w, b, request, e, Next(w, b, e, request))
  {
  }

  ghost predicate HandsOn(w: World, b: Trace, request: Request, effects: Trace, k: int) {
    0 < k < |effects| ==>
      && effects[k - 1].Intercept? && effects[k].Intercept?
      && Leaves(w, b + effects[..k - 1], request, effects[k - 1], Returned(effects[k].message))
  }

  /** The first effect takes `first`, each other one what the one before it leaves, and the last one leaves `reply`. */
  ghost predicate PassesOn(w: World, b: Trace, request: Request, effects: Trace, first: Message, reply: Reply<Message>)
  {
    && (forall k :: HandsOn(w, b, request, effects, k))
    && if effects == [] then reply == Returned(first)
       else
         && effects[0].Intercept? && effects[0].message == first && effects[|effects| - 1].Intercept?
         && Leaves(w, b + effects[..|effects| - 1], request, effects[|effects| - 1], reply)
  }

  lemma FoldPassesOn(w: World, b: Trace, request: Request, c: Chained, first: Message)
    requires IsFold(w, b, c, first, request)
    ensures PassesOn(w, b, request, c.effects, first, c.reply)
  {
    forall k ensures HandsOn(w, b, request, c.effects, k) {
      if 0 < k < |c.effects| {
        LeavesNext(w, b + c.effects[..k - 1], request, c.effects[k - 1]);
      }
    }
    if c.effects != [] {
      LeavesNext(w, b + c.effects[..|c.effects| - 1], request, c.effects[|c.effects| - 1]);
    }
  }

  // ------------------------------------------------------------------- in which order

  /** A missing priority counts as 0. */
  ghost predicate Outranks(x: Interceptor, y: Interceptor) {
    match (x.priority, y.priority)
    case (None, None) => true
    case (Some(p), None) => p >= 0
    case (None, Some(q)) => 0 >= q
    case (Some(p), Some(q)) => p >= q
  }

  /** Non-increasing priorities, and those of one priority as they were. */
  ghost predicate Sorts(list: seq<Interceptor>, sorted: seq<Interceptor>) {
    && (forall j, k :: 0 <= j < k < |sorted| ==> Outranks(sorted[j], sorted[k]))
    && forall p :: OfPriority(sorted, p) == OfPriority(list, p)
  }

  lemma ByPrioritySorts(list: seq<Interceptor>)
    ensures Sorts(list, ByPriority(list))
  {
    PriorityOrder(list, 0);
    forall p ensures OfPriority(ByPriority(list), p) == OfPriority(list, p) {
      PriorityOrder(list, p);
    }
  }

  /** The positions of those that implement the stage. */
  ghost function Concerned(sorted: seq<Interceptor>, stage: Stage): set<nat> {
    set k: nat | k < |sorted| &&
      match stage
      case ForRequest => sorted[k].onRequest
      case ForResponse => sorted[k].onResponse
      case ForError(_) => sorted[k].onError
  }

  ghost predicate AtPicks(sorted: seq<Interceptor>, picks: seq<nat>, visited: seq<Interceptor>) {
    |visited| == |picks| && forall k :: 0 <= k < |picks| ==> picks[k] < |sorted| && visited[k] == sorted[picks[k]]
  }

  lemma {:induction false} ImplementingArePicked(sorted: seq<Interceptor>, stage: Stage, n: nat)
    requires n <= |sorted|
    ensures AtPicks(sorted, Picked(Concerned(sorted, stage), n), Implementing(sorted[..n], stage))
  {
    if n > 0 {
      ImplementingArePicked(sorted, stage, n - 1);
      assert sorted[..n][..n - 1] == sorted[..n - 1];
      assert Implements(sorted[n - 1], stage) <==> n - 1 in Concerned(sorted, stage);
    }
  }

  /** The loop over the interceptors: it asks those that implement the stage, in their order, up to one that throws. */
  ghost predicate Loops(w: World, b: Trace, request: Request, stage: Stage, sorted: seq<Interceptor>, effects: Trace,
      first: Message, reply: Reply<Message>)
  {
    && Asks(sorted, Picked(Concerned(sorted, stage), |sorted|), stage, effects, reply)
    && PassesOn(w, b, request, effects, first, reply)
  }

  ghost predicate Asks(sorted: seq<Interceptor>, picks: seq<nat>, stage: Stage, effects: Trace, reply: Reply<Message>) {
    && |effects| <= |picks| && (reply.Returned? ==> |effects| == |picks|)
    && forall k :: 0 <= k < |effects| ==>
         && effects[k].Intercept? && effects[k].stage == stage
         && picks[k] < |sorted| && effects[k].interceptor == sorted[picks[k]]
  }

  lemma FoldLoops(w: World, b: Trace, stage: Stage, list: seq<Interceptor>, first: Message, request: Request)
    requires Fits(stage, first)
    ensures var c := Fold(w, b, stage, ByPriority(list), first, request);
            Loops(w, b, request, stage, ByPriority(list), c.effects, first, c.reply)
  {
    var sorted := ByPriority(list);
    var c := Fold(w, b, stage, sorted, first, request);
    FoldVisits(w, b, stage, sorted, first, request);
    FoldThreads(w, b, stage, sorted, first, request);
    FoldPassesOn(w, b, request, c, first);
    ImplementingArePicked(sorted, stage, |sorted|);
    assert sorted[..|sorted|] == sorted;
    assert Asks(sorted, Picked(Concerned(sorted, stage), |sorted|), stage, c.effects, c.reply);
  }

  /** All that a stage does, from the message it is given to what it leaves. */
  ghost predicate Intercepts(w: World, b: Trace, request: Request, stage: Stage, effects: Trace, first: Message,
      reply: Reply<Message>)
  {
    match w.interceptors(b)
    case Threw(error) => effects == [Collect(stage)] && reply == Threw(error)
    case Returned(None) => effects == [] && reply == Returned(first)
    case Returned(Some(list)) =>
      && effects != [] && effects[0] == Collect(stage)
      && Loops(w, b + [Collect(stage)], request, stage, ByPriority(list), effects[1..], first, reply)
  }

  lemma ChainIntercepts(w: World, b: Trace, stage: Stage, first: Message, request: Request)
    requires Fits(stage, first)
    ensures var c := Chain(w, b, stage, first, request);
            Intercepts(w, b, request, stage, c.effects, first, c.reply)
  {
    if w.interceptors(b).Returned? && w.interceptors(b).value.Some? {
      var list := w.interceptors(b).value.value;
      FoldLoops(w, b + [Collect(stage)], stage, list, first, request);
      assert Chain(w, b, stage, first, request).effects[1..]
          == Fold(w, b + [Collect(stage)], stage, ByPriority(list), first, request).effects;
    }
  }

  // ------------------------------------------------------------------- without an error

  const Closing := [End(ResponseInterceptors), End(RequestExecution)]

  /** The response interceptors have made, of the response given to them, the one answered. */
  ghost predicate RespondsWith(w: World, b: Trace, request: Request, response: Response, chain: Trace,
      outcome: Outcome)
  {
    && outcome.Answered?
    && Intercepts(w, b, request, ForResponse, chain, Outgoing(response), Returned(Outgoing(outcome.response)))
  }

  lemma ResponseResponds(w: World, b: Trace, request: Request, response: Response)
    requires Chain(w, b, ForResponse, Outgoing(response), request).reply.Returned?
    ensures var c, x := Chain(w, b, ForResponse, Outgoing(response), request), FromResponse(w, b, request, response);
            && x.stages == c.effects + Closing && x.answering == []
            && RespondsWith(w, b, request, response, c.effects, x.outcome)
  {
    ChainIntercepts(w, b, ForResponse, Outgoing(response), request);
  }

  /** The controller called has returned, and what follows makes the answer of its own response, or of status 200
      with what it returned as body. */
  ghost predicate Responds(w: World, b: Trace, request: Request, call: Effect, chain: Trace, outcome: Outcome)
    requires call.Call?
  {
    var called := b + [call, Start(ResponseInterceptors)];
    match w.call(b, call.route, call.arguments)
    case Threw(_) => false
    case Returned(Full(response)) => RespondsWith(w, called, request, response, chain, outcome)
    case Returned(Body(body)) => RespondsWith(w, called, request, Response(200, body, map[], None), chain, outcome)
  }

  ghost predicate AnswersCallOf(w: World, b: Trace, request: Request, stages: Trace, outcome: Outcome, before: Trace,
      call: Effect, chain: Trace)
  {
    && call.Call?
    && stages == before + [call, Start(ResponseInterceptors)] + chain + Closing
    && Responds(w, b + before, request, call, chain, outcome)
  }

  ghost predicate AnswersCall(w: World, b: Trace, request: Request, stages: Trace, outcome: Outcome) {
    exists before, call, chain :: AnswersCallOf(w, b, request, stages, outcome, before, call, chain)
  }

  lemma CallAnswers(w: World, b: Trace, request: Request, route: Route, arguments: seq<string>, response: Response)
    requires w.call(b, route, arguments).Returned? && Wrapped(w.call(b, route, arguments).value) == response
    requires Chain(w, b + [Call(route, arguments), Start(ResponseInterceptors)], ForResponse, Outgoing(response),
                   request).reply.Returned?
    ensures var x := FromCall(w, b, request, route, arguments);
            x.answering == [] && AnswersCall(w, b, request, x.stages, x.outcome)
  {
    var call, x := Call(route, arguments), FromCall(w, b, request, route, arguments);
    var called := b + [call, Start(ResponseInterceptors)];
    var c := Chain(w, called, ForResponse, Outgoing(response), request);
    assert Responds(w, b + [], request, call, c.effects, x.outcome) by {
      ResponseResponds(w, called, request, response);
      assert b + [] == b;
    }
    assert x.stages == [] + [call, Start(ResponseInterceptors)] + c.effects + Closing;
    assert AnswersCallOf(w, b, request, x.stages, x.outcome, [], call, c.effects);
  }

  lemma Prefixed(first: Trace, before: Trace, call: Trace, chain: Trace, closing: Trace)
    ensures first + (before + call + chain + closing) == (first + before) + call + chain + closing
  {
    Associative(first, before + call + chain, closing);
    Associative(first, before + call, chain);
    Associative(first, before, call);
  }

  lemma AnswersLaterOn(w: World, b: Trace, request: Request, first: Trace, stages: Trace, outcome: Outcome)
    requires AnswersCall(w, b + first, request, stages, outcome)
    ensures AnswersCall(w, b, request, first + stages, outcome)
  {
    var before, call, chain :| AnswersCallOf(w, b + first, request, stages, outcome, before, call, chain);
    Associative(b, first, before);
    Prefixed(first, before, [call, Start(ResponseInterceptors)], chain, Closing);
    assert AnswersCallOf(w, b, request, first + stages, outcome, first + before, call, chain);
  }

  // ------------------------------------------------------------------- with an error

  /** The responder's response to the error, with the request put in. */
  ghost predicate MakesOf(w: World, request: Request, error: Error, made: Response) {
    && made.status == w.respond(error).status && made.body == w.respond(error).body
    && made.headers == w.respond(error).headers && made.request == Some(request)
  }

  /** What the error interceptors leave of the responder's response, and the response interceptors of that. */
  ghost predicate AnswersErrorBy(w: World, b: Trace, request: Request, error: Error, effects: Trace, outcome: Outcome,
      made: Response, first: Trace, left: Reply<Message>, second: Trace)
  {
    && effects == [Respond(error)] + first + second && MakesOf(w, request, error, made)
    && Intercepts(w, b + [Respond(error)], request, ForError(error), first, Outgoing(made), left)
    && match left
       case Threw(thrown) => second == [] && outcome == Rejected(thrown)
       case Returned(message) =>
         var last := b + [Respond(error)] + first;
         match outcome
         case Answered(response) =>
           Intercepts(w, last, request, ForResponse, second, message, Returned(Outgoing(response)))
         case Rejected(thrown) => Intercepts(w, last, request, ForResponse, second, message, Threw(thrown))
         case Unsettled => false
  }

  ghost predicate AnswersError(w: World, b: Trace, request: Request, error: Error, effects: Trace, outcome: Outcome) {
    exists made, first, left, second ::
      AnswersErrorBy(w, b, request, error, effects, outcome, made, first, left, second)
  }

  lemma ResponderMakes(w: World, request: Request, error: Error)
    ensures MakesOf(w, request, error, ErrorResponse(w, request, error))
  {
  }

  lemma ThrownAnswer(w: World, b: Trace, request: Request, error: Error, made: Response, first: Chained)
    requires MakesOf(w, request, error, made) && first.reply.Threw?
    requires Intercepts(w, b + [Respond(error)], request, ForError(error), first.effects, Outgoing(made), first.reply)
    ensures AnswersError(w, b, request, error, [Respond(error)] + first.effects, Rejected(first.reply.error))
  {
    assert [Respond(error)] + first.effects + [] == [Respond(error)] + first.effects;
    assert AnswersErrorBy(w, b, request, error, [Respond(error)] + first.effects, Rejected(first.reply.error), made,
                          first.effects, first.reply, []);
  }

  lemma LeftAnswer(w: World, b: Trace, request: Request, error: Error, made: Response, first: Chained, second: Chained)
    requires MakesOf(w, request, error, made) && first.reply.Returned?
    requires second.reply.Returned? ==> second.reply.value.Outgoing?
    requires Intercepts(w, b + [Respond(error)], request, ForError(error), first.effects, Outgoing(made), first.reply)
    requires Intercepts(w, b + [Respond(error)] + first.effects, request, ForResponse, second.effects,
                        first.reply.value, second.reply)
    ensures AnswersError(w, b, request, error, [Respond(error)] + first.effects + second.effects, Settled(second.reply))
  {
    assert AnswersErrorBy(w, b, request, error, [Respond(error)] + first.effects + second.effects,
                          Settled(second.reply), made, first.effects, first.reply, second.effects);
  }

  lemma ErrorsAnswer(w: World, b: Trace, request: Request, error: Error)
    ensures var c := Errors(w, b, request, error);
            AnswersError(w, b, request, error, c.effects, Settled(c.reply))
  {
    var made := ErrorResponse(w, request, error);
    var first := Chain(w, b + [Respond(error)], ForError(error), Outgoing(made), request);
    ResponderMakes(w, request, error);
    ChainIntercepts(w, b + [Respond(error)], ForError(error), Outgoing(made), request);
    if first.reply.Threw? {
      ThrownAnswer(w, b, request, error, made, first);
    } else {
      Associative(b, [Respond(error)], first.effects);
      var last := b + [Respond(error)] + first.effects;
      ChainIntercepts(w, last, ForResponse, first.reply.value, request);
      LeftAnswer(w, b, request, error, made, first, Chain(w, last, ForResponse, first.reply.value, request));
    }
  }

  // ------------------------------------------------------------------- from each stage on

  /** A response that answers no error comes from the controller. */
  ghost predicate Says(w: World, b: Trace, request: Request, x: Execution) {
    x.answering == [] && x.outcome.Answered? ==> AnswersCall(w, b, request, x.stages, x.outcome)
  }

  lemma SaysLater(w: World, b: Trace, request: Request, effects: Trace, x: Execution)
    requires Says(w, b + effects, request, x)
    ensures Says(w, b, request, After(effects, x))
  {
    if x.answering == [] && x.outcome.Answered? {
      AnswersLaterOn(w, b, request, effects, x.stages, x.outcome);
    }
  }

  lemma FailingSays(w: World, b: Trace, request: Request, effects: Trace, error: Error)
    ensures Says(w, b, request, After(effects, Failing(w, b + effects, request, error)))
    ensures Says(w, b, request, After(effects, Caught(w, b + effects, request, error)))
  {
  }

  lemma CallSays(w: World, b: Trace, request: Request, route: Route, arguments: seq<string>)
    ensures Says(w, b, request, FromCall(w, b, request, route, arguments))
  {
    match w.call(b, route, arguments) {
      case Threw(e) => FailingSays(w, b, request, [Call(route, arguments)], e);
      case Returned(answer) =>
        var called := [Call(route, arguments), Start(ResponseInterceptors)];
        var c := Chain(w, b + called, ForResponse, Outgoing(Wrapped(answer)), request);
        if c.reply.Returned? {
          CallAnswers(w, b, request, route, arguments, Wrapped(answer));
        } else {
          FailingSays(w, b + called, request, c.effects, c.reply.error);
          SaysLater(w, b, request, called, FromResponse(w, b + called, request, Wrapped(answer)));
        }
    }
  }

  lemma StoreSays(w: World, b: Trace, request: Request, route: Route, r: Request, arguments: seq<string>)
    ensures Says(w, b, request, FromStore(w, b, request, route, r, arguments))
  {
    var stored := [Store(r, arguments)];
    match w.storeArguments(b, r) {
      case Some(e) => FailingSays(w, b, request, stored, e);
      case None =>
        CallSays(w, b + stored, request, route, arguments);
        SaysLater(w, b, request, stored, FromCall(w, b + stored, request, route, arguments));
    }
  }

  lemma ResolutionSays(w: World, b: Trace, request: Request, route: Route, identity: Identity, r: Request)
    ensures Says(w, b, request, FromResolution(w, b, request, route, identity, r))
  {
    var found := Resolve(w, b, route.methodArguments, r, identity);
    match found.reply {
      case Threw(e) => FailingSays(w, b, request, found.effects, e);
      case Returned(arguments) =>
        StoreSays(w, b + found.effects, request, route, r, arguments);
        SaysLater(w, b, request, found.effects, FromStore(w, b + found.effects, request, route, r, arguments));
    }
  }

  lemma ArgumentsSay(w: World, b: Trace, request: Request, route: Route, identity: Identity, r: Request)
    ensures Says(w, b, request, FromArguments(w, b, request, route, identity, r))
  {
    var looked := [LookUp(r)];
    match w.cachedArguments(b, r) {
      case Threw(e) => FailingSays(w, b, request, looked, e);
      case Returned(Some(arguments)) =>
        CallSays(w, b + looked, request, route, arguments);
        SaysLater(w, b, request, looked, FromCall(w, b + looked, request, route, arguments));
      case Returned(None) =>
        ResolutionSays(w, b + looked, request, route, identity, r);
        SaysLater(w, b, request, looked, FromResolution(w, b + looked, request, route, identity, r));
    }
  }

  lemma InterceptorsSay(w: World, b: Trace, request: Request, route: Route, identity: Identity)
    ensures Says(w, b, request, FromInterceptors(w, b, request, route, identity))
  {
    var c := Chain(w, b, ForRequest, Incoming(request), request);
    match c.reply {
      case Threw(e) => FailingSays(w, b, request, c.effects, e);
      case Returned(m) =>
        var effects := c.effects + [End(RequestInterceptors)];
        ArgumentsSay(w, b + effects, request, route, identity, m.request);
        SaysLater(w, b, request, effects, FromArguments(w, b + effects, request, route, identity, m.request));
    }
  }

  lemma AuthorizationSays(w: World, b: Trace, request: Request, route: Route, identity: Identity)
    ensures Says(w, b, request, FromAuthorization(w, b, request, route, identity))
  {
    var asked := [Authorize(route, identity)];
    match w.authorize(b, request, route, identity) {
      case Threw(e) => FailingSays(w, b, request, asked, e);
      case Returned(false) => FailingSays(w, b, request, asked, Forbidden);
      case Returned(true) =>
        var effects := asked + [Start(RequestInterceptors)];
        InterceptorsSay(w, b + effects, request, route, identity);
        SaysLater(w, b, request, effects, FromInterceptors(w, b + effects, request, route, identity));
    }
  }

  lemma AuthenticationSays(w: World, b: Trace, request: Request, route: Route)
    ensures Says(w, b, request, FromAuthentication(w, b, request, route))
  {
    var asked := [Start(RequestAuthentication), Authenticate(route)];
    match w.authenticate(b + [Start(RequestAuthentication)], request, route) {
      case Threw(Nullish) => FailingSays(w, b, request, asked, Nullish);
      case Threw(e) => FailingSays(w, b, request, asked, AuthenticationError(e));
      case Returned(identity) =>
        var effects := asked + [End(RequestAuthentication)];
        AuthorizationSays(w, b + effects, request, route, identity);
        SaysLater(w, b, request, effects, FromAuthorization(w, b + effects, request, route, identity));
    }
  }

  lemma RouteSays(w: World, b: Trace, request: Request, route: Option<Route>)
    ensures Says(w, b, request, FromRoute(w, b, request, route))
  {
    if route.Some? {
      var asked := [Start(ControllerResolver), ResolveController(route.value)];
      if w.resolvesController(b + [Start(ControllerResolver)], route.value) {
        var effects := asked + [End(ControllerResolver)];
        AuthenticationSays(w, b + effects, request, route.value);
        SaysLater(w, b, request, effects, FromAuthentication(w, b + effects, request, route.value));
      }
    }
  }

  lemma LookUpSays(w: World, b: Trace, request: Request)
    ensures Says(w, b, request, FromLookUp(w, b, request))
  {
    match w.cachedRoute(b, request) {
      case Some(route) => RouteSays(w, b, request, route);
      case None =>
        var effects := [Start(FindMethodRouterNode), FindRoute, End(FindMethodRouterNode)];
        var route := w.findRoute(b + [Start(FindMethodRouterNode)], request);
        RouteSays(w, b + effects, request, route);
        SaysLater(w, b, request, effects, FromRoute(w, b + effects, request, route));
    }
  }

  lemma ExecutionSays(w: World, b: Trace, request: Request)
    ensures Says(w, b, request, Executed(w, b, request))
  {
    var first := [Start(RequestExecution)];
    if w.parsesUrl(request) {
      LookUpSays(w, b + first, request);
      SaysLater(w, b, request, first, FromLookUp(w, b + first, request));
    }
  }
}
