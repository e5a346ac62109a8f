/** The router: one request from its route to its answer, as the effects it has on its surroundings. */
module Router {
  import opened Common

  datatype Request = Request(httpMethod: string, path: string, headers: map<string, string>, body: string)

  datatype Response = Response(status: int, body: string, headers: map<string, string>, request: Option<Request>)

  /** Any thrown value: the three errors the router makes, `undefined` or `null`, the TypeError that reading the
      message of those throws, and everything else. */
  datatype Error =
    | NotFound(httpMethod: string, path: string)
    | Unauthorized(cause: Error)
    | Forbidden
    | Nullish
    | MessageOfNothing
    | Other(isPristine: bool, httpStatus: Option<int>, id: nat)

  type Identity = Option<nat>

  datatype Route = Route(id: nat, methodArguments: seq<nat>)

  datatype Reply<+T> = Returned(value: T) | Threw(error: Error)

  /** What a controller method returns: a response object, or anything else, taken for a body. */
  datatype Answer = Full(response: Response) | Body(body: string)

  /** An interceptor implements any of the three methods; a missing priority counts as 0. */
  datatype Interceptor = Interceptor(
    id: nat, priority: Option<int>, onRequest: bool, onResponse: bool, onError: bool)

  datatype Span =
    | RequestExecution | FindMethodRouterNode | ControllerResolver
    | RequestAuthentication | RequestInterceptors | ResponseInterceptors

  datatype Stage = ForRequest | ForResponse | ForError(error: Error)

  datatype Message = Incoming(request: Request) | Outgoing(response: Response)

  datatype Effect =
    | Start(span: Span)
    | End(span: Span)
    | FindRoute
    | ResolveController(route: Route)
    | Authenticate(route: Route)
    | Authorize(route: Route, identity: Identity)
    | Collect(stage: Stage)
    | Intercept(stage: Stage, interceptor: Interceptor, message: Message)
    | LookUp(intercepted: Request)
    | ResolveArgument(argument: nat, intercepted: Request, identity: Identity)
    | Store(intercepted: Request, arguments: seq<string>)
    | Call(route: Route, arguments: seq<string>)
    | Respond(error: Error)

  type Trace = seq<Effect>

  /** The surroundings. Each reply may depend on everything that has happened before it. */
  datatype World = World(
    parsesUrl: Request -> bool,
    cachedRoute: (Trace, Request) -> Option<Option<Route>>,
    findRoute: (Trace, Request) -> Option<Route>,
    resolvesController: (Trace, Route) -> bool,
    authenticate: (Trace, Request, Route) -> Reply<Identity>,
    authorize: (Trace, Request, Route, Identity) -> Reply<bool>,
    interceptors: Trace -> Reply<Option<seq<Interceptor>>>,
    interceptRequest: (Trace, nat, Request) -> Reply<Option<Request>>,
    interceptResponse: (Trace, nat, Response, Request) -> Reply<Option<Response>>,
    interceptError: (Trace, nat, Error, Response, Request) -> Reply<Option<Response>>,
    cachedArguments: (Trace, Request) -> Reply<Option<seq<string>>>,
    resolveArgument: (Trace, nat, Request, Identity) -> Reply<string>,
    storeArguments: (Trace, Request) -> Option<Error>,
    call: (Trace, Route, seq<string>) -> Reply<Answer>,
    respond: Error -> Response)

  // ---------------------------------------------------------------- interceptor order

  function Priority(i: Interceptor): int {
    match i.priority case None => 0 case Some(p) => p
  }

  predicate Implements(i: Interceptor, stage: Stage) {
    match stage
    case ForRequest => i.onRequest
    case ForResponse => i.onResponse
    case ForError(_) => i.onError
  }

  ghost predicate Descending(list: seq<Interceptor>) {
    forall i, j :: 0 <= i < j < |list| ==> Priority(list[i]) >= Priority(list[j])
  }

  function OfPriority(list: seq<Interceptor>, p: int): seq<Interceptor> {
    if list == [] then []
    else if Priority(list[0]) == p then [list[0]] + OfPriority(list[1..], p)
    else OfPriority(list[1..], p)
  }

  function Insert(i: Interceptor, list: seq<Interceptor>): seq<Interceptor> {
    if list == [] || Priority(i) >= Priority(list[0]) then [i] + list
    else [list[0]] + Insert(i, list[1..])
  }

  /** The library's stable sort, higher priorities first. */
  function ByPriority(list: seq<Interceptor>): seq<Interceptor> {
    if list == [] then [] else Insert(list[0], ByPriority(list[1..]))
  }

  lemma {:induction false} InsertSorts(i: Interceptor, list: seq<Interceptor>, p: int)
    requires Descending(list)
    ensures Descending(Insert(i, list))
    ensures forall x :: x in Insert(i, list) <==> x == i || x in list
    ensures OfPriority(Insert(i, list), p) == OfPriority([i] + list, p)
  {
    if list == [] || Priority(i) >= Priority(list[0]) {
    } else {
      InsertSorts(i, list[1..], p);
      assert ([i] + list)[1..] == list && ([i] + list[1..])[1..] == list[1..];
      assert Insert(i, list)[1..] == Insert(i, list[1..]);
      assert forall x :: x in Insert(i, list[1..]) ==> Priority(list[0]) >= Priority(x);
    }
  }

  /** Sorting keeps, for each priority, the interceptors of that priority in their own order. */
  lemma {:induction false} PriorityOrder(list: seq<Interceptor>, p: int)
    ensures Descending(ByPriority(list))
    ensures OfPriority(ByPriority(list), p) == OfPriority(list, p)
  {
    if list != [] {
      PriorityOrder(list[1..], p);
      InsertSorts(list[0], ByPriority(list[1..]), p);
      assert ([list[0]] + ByPriority(list[1..]))[1..] == ByPriority(list[1..]);
    }
  }

  lemma {:induction false} OfPriorityMembers(list: seq<Interceptor>, p: int)
    ensures forall x :: x in OfPriority(list, p) <==> x in list && Priority(x) == p
  {
    if list != [] {
      OfPriorityMembers(list[1..], p);
    }
  }

  /** That order is the only one: a descending sequence with the same interceptors at each priority, in the
      same order, is the sorted one. */
  lemma {:induction false} DescendingIsUnique(a: seq<Interceptor>, b: seq<Interceptor>)
    requires Descending(a) && Descending(b)
    requires forall p :: OfPriority(a, p) == OfPriority(b, p)
    ensures a == b
  {
    if a == [] {
      if b != [] {
        SameFirst(b, a);
      }
    } else {
      SameFirst(a, b);
      forall p ensures OfPriority(a[1..], p) == OfPriority(b[1..], p) {
        assert OfPriority(a, p) == OfPriority(b, p);
        if Priority(a[0]) == p {
          assert OfPriority(a, p)[1..] == OfPriority(a[1..], p);
          assert OfPriority(b, p)[1..] == OfPriority(b[1..], p);
        }
      }
      DescendingIsUnique(a[1..], b[1..]);
    }
  }

  lemma SharedMembers(a: seq<Interceptor>, b: seq<Interceptor>, x: Interceptor)
    requires OfPriority(a, Priority(x)) == OfPriority(b, Priority(x))
    ensures x in a <==> x in b
  {
    OfPriorityMembers(a, Priority(x));
    OfPriorityMembers(b, Priority(x));
  }

  lemma SameFirst(a: seq<Interceptor>, b: seq<Interceptor>)
    requires Descending(a) && Descending(b) && a != []
    requires forall p :: OfPriority(a, p) == OfPriority(b, p)
    ensures b != [] && a[0] == b[0]
  {
    SharedMembers(a, b, a[0]);
    SharedMembers(a, b, b[0]);
    var p := Priority(a[0]);
    assert OfPriority(a, p)[0] == a[0] && OfPriority(b, p)[0] == b[0];
  }

  // ---------------------------------------------------------------- one chain of interceptors

  datatype Chained = Chained(effects: Trace, reply: Reply<Message>)

  ghost predicate Fits(stage: Stage, m: Message) {
    stage.ForRequest? <==> m.Incoming?
  }

  function Lift<T>(reply: Reply<Option<T>>, wrap: T -> Message): Reply<Option<Message>> {
    match reply
    case Threw(e) => Threw(e)
    case Returned(None) => Returned(None)
    case Returned(Some(x)) => Returned(Some(wrap(x)))
  }

  function Ask(w: World, b: Trace, stage: Stage, i: Interceptor, m: Message, request: Request):
      (reply: Reply<Option<Message>>)
    requires Fits(stage, m)
    ensures reply.Returned? && reply.value.Some? ==> Fits(stage, reply.value.value)
  {
    match stage
    case ForRequest => Lift(w.interceptRequest(b, i.id, m.request), x => Incoming(x))
    case ForResponse => Lift(w.interceptResponse(b, i.id, m.response, request), x => Outgoing(x))
    case ForError(e) => Lift(w.interceptError(b, i.id, e, m.response, request), x => Outgoing(x))
  }

  /** What leaves the loop when an interceptor throws: its error, but the request and error loops read the message
      of that error to log it. */
  function Rethrown(stage: Stage, e: Error): Error {
    if e.Nullish? && !stage.ForResponse? then MessageOfNothing else e
  }

  /** An interceptor that returns nothing leaves the message as it was. */
  function Kept(stage: Stage, reply: Reply<Option<Message>>, m: Message): Reply<Message> {
    match reply
    case Threw(e) => Threw(Rethrown(stage, e))
    case Returned(None) => Returned(m)
    case Returned(Some(x)) => Returned(x)
  }

  ghost function Fold(w: World, b: Trace, stage: Stage, list: seq<Interceptor>, m: Message,
      request: Request): (c: Chained)
    requires Fits(stage, m)
    ensures c.reply.Returned? ==> Fits(stage, c.reply.value)
  {
    if list == [] then Chained([], Returned(m))
    else
      var before := Fold(w, b, stage, list[..|list| - 1], m, request);
      var i := list[|list| - 1];
      if before.reply.Threw? || !Implements(i, stage) then before
      else
        Chained(before.effects + [Intercept(stage, i, before.reply.value)],
                Kept(stage, Ask(w, b + before.effects, stage, i, before.reply.value, request), before.reply.value))
  }

  ghost function Chain(w: World, b: Trace, stage: Stage, m: Message, request: Request): (c: Chained)
    requires Fits(stage, m)
    ensures c.reply.Returned? ==> Fits(stage, c.reply.value)
  {
    match w.interceptors(b)
    case Threw(e) => Chained([Collect(stage)], Threw(e))
    case Returned(None) => Chained([], Returned(m))
    case Returned(Some(list)) =>
      var rest := Fold(w, b + [Collect(stage)], stage, ByPriority(list), m, request);
      Chained([Collect(stage)] + rest.effects, rest.reply)
  }

  function Implementing(list: seq<Interceptor>, stage: Stage): seq<Interceptor> {
    if list == [] then []
    else if Implements(list[|list| - 1], stage)
    then Implementing(list[..|list| - 1], stage) + [list[|list| - 1]]
    else Implementing(list[..|list| - 1], stage)
  }

  ghost predicate Visits(effects: Trace, stage: Stage, list: seq<Interceptor>) {
    && |effects| <= |list|
    && forall k :: 0 <= k < |effects| ==>
        && effects[k].Intercept?
        && effects[k].stage == stage
        && effects[k].interceptor == list[k]
  }

  /** A chain visits the interceptors that implement the stage, in order: all of them unless one throws,
      and then up to that one. */
  lemma {:induction false} FoldVisits(
      w: World, b: Trace, stage: Stage, list: seq<Interceptor>, m: Message, request: Request)
    requires Fits(stage, m)
    ensures var c := Fold(w, b, stage, list, m, request);
            && Visits(c.effects, stage, Implementing(list, stage))
            && (c.reply.Returned? ==> |c.effects| == |Implementing(list, stage)|)
            && (c.reply.Threw? ==> c.effects != [])
  {
    if list != [] {
      FoldVisits(w, b, stage, list[..|list| - 1], m, request);
    }
  }

  /** What the message is once this interceptor has replied. */
  ghost function Next(w: World, b: Trace, e: Effect, request: Request): Reply<Message>
    requires e.Intercept? && Fits(e.stage, e.message)
  {
    Kept(e.stage, Ask(w, b, e.stage, e.interceptor, e.message, request), e.message)
  }

  /** Every interceptor receives what the one before it left. */
  ghost predicate Threads(w: World, b: Trace, effects: Trace, m: Message, request: Request) {
    && (forall k :: 0 <= k < |effects| ==> effects[k].Intercept? && Fits(effects[k].stage, effects[k].message))
    && (effects != [] ==> effects[0].message == m)
    && forall k :: 0 < k < |effects| ==>
        Next(w, b + effects[..k - 1], effects[k - 1], request) == Returned(effects[k].message)
  }

  ghost function Left(w: World, b: Trace, effects: Trace, m: Message, request: Request): Reply<Message>
    requires forall k :: 0 <= k < |effects| ==> effects[k].Intercept? && Fits(effects[k].stage, effects[k].message)
  {
    if effects == [] then Returned(m)
    else Next(w, b + effects[..|effects| - 1], effects[|effects| - 1], request)
  }

  lemma ThreadsNext(w: World, b: Trace, effects: Trace, e: Effect, m: Message, request: Request)
    requires Threads(w, b, effects, m, request)
    requires e.Intercept? && Fits(e.stage, e.message)
    requires Left(w, b, effects, m, request) == Returned(e.message)
    ensures Threads(w, b, effects + [e], m, request)
    ensures Left(w, b, effects + [e], m, request) == Next(w, b + effects, e, request)
  {
    var all := effects + [e];
    assert all[..|effects|] == effects;
    forall k | 0 < k < |all|
      ensures Next(w, b + all[..k - 1], all[k - 1], request) == Returned(all[k].message)
    {
      assert all[..k - 1] == effects[..k - 1];
    }
  }

  ghost predicate IsFold(w: World, b: Trace, c: Chained, m: Message, request: Request) {
    Threads(w, b, c.effects, m, request) && c.reply == Left(w, b, c.effects, m, request)
  }

  lemma FoldGrows(w: World, b: Trace, before: Chained, e: Effect, m: Message, request: Request)
    requires IsFold(w, b, before, m, request)
    requires e.Intercept? && Fits(e.stage, e.message) && before.reply == Returned(e.message)
    ensures IsFold(w, b, Chained(before.effects + [e], Next(w, b + before.effects, e, request)), m, request)
  {
    ThreadsNext(w, b, before.effects, e, m, request);
  }

  /** A chain is a left fold: its message starts as the one given and ends as the last reply left it. */
  lemma {:induction false} FoldThreads(
      w: World, b: Trace, stage: Stage, list: seq<Interceptor>, m: Message, request: Request)
    requires Fits(stage, m)
    ensures IsFold(w, b, Fold(w, b, stage, list, m, request), m, request)
  {
    if list != [] {
      var before := Fold(w, b, stage, list[..|list| - 1], m, request);
      var i := list[|list| - 1];
      FoldThreads(w, b, stage, list[..|list| - 1], m, request);
      if before.reply.Returned? && Implements(i, stage) {
        FoldGrows(w, b, before, Intercept(stage, i, before.reply.value), m, request);
      }
    }
  }

  lemma {:induction false} ImplementingMembers(list: seq<Interceptor>, stage: Stage)
    ensures forall x :: x in Implementing(list, stage) <==> x in list && Implements(x, stage)
  {
    if list != [] {
      ImplementingMembers(list[..|list| - 1], stage);
      assert list == list[..|list| - 1] + [list[|list| - 1]];
    }
  }

  lemma LastIsLowest(list: seq<Interceptor>)
    requires list != [] && Descending(list)
    ensures Descending(list[..|list| - 1])
    ensures forall x :: x in list[..|list| - 1] ==> Priority(x) >= Priority(list[|list| - 1])
  {
  }

  lemma {:induction false} ImplementingKeepsOrder(list: seq<Interceptor>, stage: Stage)
    requires Descending(list)
    ensures Descending(Implementing(list, stage))
  {
    if list != [] {
      var before := list[..|list| - 1];
      LastIsLowest(list);
      ImplementingKeepsOrder(before, stage);
      ImplementingMembers(before, stage);
    }
  }

  ghost predicate DescendingVisits(effects: Trace) {
    && (forall k :: 0 <= k < |effects| ==> effects[k].Intercept?)
    && forall j, k :: 0 <= j < k < |effects| ==>
        Priority(effects[j].interceptor) >= Priority(effects[k].interceptor)
  }

  /** The chain of a stage: in non-increasing priority, each interceptor taking what the last one left, and
      every interceptor that implements the stage is reached unless one before it throws. */
  lemma ChainIsOrderedFold(w: World, b: Trace, stage: Stage, m: Message, request: Request)
    requires Fits(stage, m)
    requires w.interceptors(b).Returned? && w.interceptors(b).value.Some?
    ensures var c := Chain(w, b, stage, m, request);
            var b' := b + [Collect(stage)];
            && c.effects != [] && c.effects[0] == Collect(stage)
            && DescendingVisits(c.effects[1..])
            && Threads(w, b', c.effects[1..], m, request)
            && c.reply == Left(w, b', c.effects[1..], m, request)
            && forall x :: c.reply.Returned? && x in w.interceptors(b).value.value && Implements(x, stage) ==>
                exists k :: 1 <= k < |c.effects| && c.effects[k].Intercept? && c.effects[k].interceptor == x
  {
    var list := w.interceptors(b).value.value;
    var b' := b + [Collect(stage)];
    var rest := Fold(w, b', stage, ByPriority(list), m, request);
    var c := Chain(w, b, stage, m, request);
    assert c.effects[1..] == rest.effects;
    FoldVisits(w, b', stage, ByPriority(list), m, request);
    FoldThreads(w, b', stage, ByPriority(list), m, request);
    PriorityOrder(list, 0);
    ImplementingKeepsOrder(ByPriority(list), stage);
    ImplementingMembers(ByPriority(list), stage);
    var visited := Implementing(ByPriority(list), stage);
    forall x | c.reply.Returned? && x in list && Implements(x, stage)
      ensures exists k :: 1 <= k < |c.effects| && c.effects[k].Intercept? && c.effects[k].interceptor == x
    {
      SortKeepsMembers(list, x);
      var k :| 0 <= k < |visited| && visited[k] == x;
      assert c.effects[k + 1] == rest.effects[k];
    }
  }

  lemma SortKeepsMembers(list: seq<Interceptor>, x: Interceptor)
    ensures x in ByPriority(list) <==> x in list
  {
    PriorityOrder(list, Priority(x));
    OfPriorityMembers(list, Priority(x));
    OfPriorityMembers(ByPriority(list), Priority(x));
  }

  // ---------------------------------------------------------------- one execution

  /** How the returned promise ends: `Unsettled` is a promise that is never settled. */
  datatype Outcome = Answered(response: Response) | Rejected(error: Error) | Unsettled

  /** The effects of one execution: those of its stages, then those of answering an error, if any. */
  datatype Execution = Execution(stages: Trace, answering: Trace, outcome: Outcome)

  function Settled(reply: Reply<Message>): Outcome
    requires reply.Returned? ==> reply.value.Outgoing?
  {
    match reply case Threw(e) => Rejected(e) case Returned(m) => Answered(m.response)
  }

  ghost function After(effects: Trace, rest: Execution): Execution {
    Execution(effects + rest.stages, rest.answering, rest.outcome)
  }

  function Wrapped(answer: Answer): Response {
    match answer
    case Full(response) => response
    case Body(body) => Response(200, body, map[], None)
  }

  /** The status of the errors the router makes, and of the pristine errors it is given. */
  function StatusOf(e: Error): Option<int> {
    match e
    case NotFound(_, _) => Some(404)
    case Unauthorized(_) => Some(401)
    case Forbidden => Some(403)
    case Nullish => None
    case MessageOfNothing => None
    case Other(isPristine, status, _) => if isPristine then status else None
  }

  /** An error that is answered with a 401 or a 403. */
  ghost predicate Refuses(e: Error) {
    match e
    case Unauthorized(_) => true
    case Forbidden => true
    case Other(isPristine, status, _) => isPristine && (status == Some(401) || status == Some(403))
    case _ => false
  }

  /** An authentication failure keeps its own error if that is a 401 or a 403, and is the cause of a 401 if not. */
  function AuthenticationError(e: Error): (r: Error)
    ensures r == if Refuses(e) then e else Unauthorized(e)
    ensures StatusOf(r) == Some(401) || StatusOf(r) == Some(403)
  {
    if StatusOf(e) == Some(401) || StatusOf(e) == Some(403) then e else Unauthorized(e)
  }

  function ErrorResponse(w: World, request: Request, error: Error): Response {
    w.respond(error).(request := Some(request))
  }

  ghost function Errors(w: World, b: Trace, request: Request, error: Error): (c: Chained)
    ensures c.reply.Returned? ==> c.reply.value.Outgoing?
  {
    var first := Chain(w, b + [Respond(error)], ForError(error), Outgoing(ErrorResponse(w, request, error)), request);
    var effects := [Respond(error)] + first.effects;
    if first.reply.Threw? then Chained(effects, first.reply)
    else
      var second := Chain(w, b + effects, ForResponse, first.reply.value, request);
      Chained(effects + second.effects, second.reply)
  }

  ghost function Failing(w: World, b: Trace, request: Request, error: Error): Execution {
    var c := Errors(w, b + [End(RequestExecution)], request, error);
    Execution([End(RequestExecution)], c.effects, Settled(c.reply))
  }

  /** What a catch block does with an error: it reads the message first, so `undefined` and `null` make it throw in
      turn, outside any protected block, and nothing settles the promise. */
  ghost function Caught(w: World, b: Trace, request: Request, error: Error): Execution {
    if error.Nullish? then Execution([], [], Unsettled) else Failing(w, b, request, error)
  }

  ghost function FromResponse(w: World, b: Trace, request: Request, response: Response): Execution {
    var c := Chain(w, b, ForResponse, Outgoing(response), request);
    match c.reply
    case Threw(e) => After(c.effects, Caught(w, b + c.effects, request, e))
    case Returned(m) =>
      Execution(c.effects + [End(ResponseInterceptors), End(RequestExecution)], [], Settled(c.reply))
  }

  ghost function FromCall(w: World, b: Trace, request: Request, route: Route, arguments: seq<string>): Execution {
    match w.call(b, route, arguments)
    case Threw(e) => After([Call(route, arguments)], Caught(w, b + [Call(route, arguments)], request, e))
    case Returned(answer) =>
      var called := [Call(route, arguments), Start(ResponseInterceptors)];
      After(called, FromResponse(w, b + called, request, Wrapped(answer)))
  }

  datatype Resolved = Resolved(effects: Trace, reply: Reply<seq<string>>)

  ghost function Resolve(w: World, b: Trace, arguments: seq<nat>, r: Request, identity: Identity): Resolved {
    if arguments == [] then Resolved([], Returned([]))
    else
      var before := Resolve(w, b, arguments[..|arguments| - 1], r, identity);
      var argument := arguments[|arguments| - 1];
      if before.reply.Threw? then before
      else
        Resolved(
          before.effects + [ResolveArgument(argument, r, identity)],
          match w.resolveArgument(b + before.effects, argument, r, identity)
          case Threw(e) => Threw(e)
          case Returned(v) => Returned(before.reply.value + [v]))
  }

  ghost function FromArguments(
      w: World, b: Trace, request: Request, route: Route, identity: Identity, r: Request): Execution
  {
    var b' := b + [LookUp(r)];
    match w.cachedArguments(b, r)
    case Threw(e) => After([LookUp(r)], Caught(w, b', request, e))
    case Returned(Some(arguments)) => After([LookUp(r)], FromCall(w, b', request, route, arguments))
    case Returned(None) => After([LookUp(r)], FromResolution(w, b', request, route, identity, r))
  }

  ghost function FromResolution(
      w: World, b: Trace, request: Request, route: Route, identity: Identity, r: Request): Execution
  {
    var found := Resolve(w, b, route.methodArguments, r, identity);
    match found.reply
    case Threw(e) => After(found.effects, Caught(w, b + found.effects, request, e))
    case Returned(arguments) =>
      After(found.effects, FromStore(w, b + found.effects, request, route, r, arguments))
  }

  ghost function FromStore(
      w: World, b: Trace, request: Request, route: Route, r: Request, arguments: seq<string>): Execution
  {
    var stored := [Store(r, arguments)];
    match w.storeArguments(b, r)
    case Some(e) => After(stored, Caught(w, b + stored, request, e))
    case None => After(stored, FromCall(w, b + stored, request, route, arguments))
  }

  ghost function FromInterceptors(
      w: World, b: Trace, request: Request, route: Route, identity: Identity): Execution
  {
    var c := Chain(w, b, ForRequest, Incoming(request), request);
    match c.reply
    case Threw(e) => After(c.effects, Caught(w, b + c.effects, request, e))
    case Returned(m) =>
      var effects := c.effects + [End(RequestInterceptors)];
      After(effects, FromArguments(w, b + effects, request, route, identity, m.request))
  }

  ghost function FromAuthorization(
      w: World, b: Trace, request: Request, route: Route, identity: Identity): Execution
  {
    var asked := [Authorize(route, identity)];
    match w.authorize(b, request, route, identity)
    case Threw(e) => After(asked, Caught(w, b + asked, request, e))
    case Returned(false) => After(asked, Failing(w, b + asked, request, Forbidden))
    case Returned(true) =>
      var effects := asked + [Start(RequestInterceptors)];
      After(effects, FromInterceptors(w, b + effects, request, route, identity))
  }

  ghost function FromAuthentication(w: World, b: Trace, request: Request, route: Route): Execution {
    var asked := [Start(RequestAuthentication), Authenticate(route)];
    match w.authenticate(b + [Start(RequestAuthentication)], request, route)
    case Threw(Nullish) => After(asked, Caught(w, b + asked, request, Nullish))
    case Threw(e) => After(asked, Failing(w, b + asked, request, AuthenticationError(e)))
    case Returned(identity) =>
      var effects := asked + [End(RequestAuthentication)];
      After(effects, FromAuthorization(w, b + effects, request, route, identity))
  }

  ghost function FromController(w: World, b: Trace, request: Request, route: Route): Execution {
    var asked := [Start(ControllerResolver), ResolveController(route)];
    if !w.resolvesController(b + [Start(ControllerResolver)], route) then Execution(asked, [], Unsettled)
    else
      var effects := asked + [End(ControllerResolver)];
      After(effects, FromAuthentication(w, b + effects, request, route))
  }

  ghost function FromRoute(w: World, b: Trace, request: Request, route: Option<Route>): Execution {
    match route
    case None => Failing(w, b, request, NotFound(request.httpMethod, request.path))
    case Some(route) => FromController(w, b, request, route)
  }

  ghost function FromLookUp(w: World, b: Trace, request: Request): Execution {
    match w.cachedRoute(b, request)
    case Some(route) => FromRoute(w, b, request, route)
    case None =>
      var effects := [Start(FindMethodRouterNode), FindRoute, End(FindMethodRouterNode)];
      After(effects, FromRoute(w, b + effects, request, w.findRoute(b + [Start(FindMethodRouterNode)], request)))
  }

  /** A URL that does not parse throws before anything is looked up, outside any protected block. */
  ghost function FromUrl(w: World, b: Trace, request: Request): Execution {
    if w.parsesUrl(request) then FromLookUp(w, b, request) else Execution([], [], Unsettled)
  }

  ghost function Executed(w: World, b: Trace, request: Request): Execution {
    After([Start(RequestExecution)], FromUrl(w, b + [Start(RequestExecution)], request))
  }

  ghost function Effects(x: Execution): Trace { x.stages + x.answering }

  // ---------------------------------------------------------------- the router

  lemma {:induction false} FoldStops(
      w: World, b: Trace, stage: Stage, list: seq<Interceptor>, k: nat, m: Message, request: Request)
    requires Fits(stage, m) && k <= |list|
    requires Fold(w, b, stage, list[..k], m, request).reply.Threw?
    ensures Fold(w, b, stage, list, m, request) == Fold(w, b, stage, list[..k], m, request)
  {
    if k == |list| {
      assert list[..k] == list;
    } else {
      assert list[..|list| - 1][..k] == list[..k];
      FoldStops(w, b, stage, list[..|list| - 1], k, m, request);
    }
  }

  lemma {:induction false} ResolveStops(
      w: World, b: Trace, arguments: seq<nat>, k: nat, r: Request, identity: Identity)
    requires k <= |arguments| && Resolve(w, b, arguments[..k], r, identity).reply.Threw?
    ensures Resolve(w, b, arguments, r, identity) == Resolve(w, b, arguments[..k], r, identity)
  {
    if k == |arguments| {
      assert arguments[..k] == arguments;
    } else {
      assert arguments[..|arguments| - 1][..k] == arguments[..k];
      ResolveStops(w, b, arguments[..|arguments| - 1], k, r, identity);
    }
  }

  /** What is still to be done after `effects`, seen from before them. */
  lemma Continues(b: Trace, effects: Trace, rest: Execution)
    ensures b + effects + Effects(rest) == b + Effects(After(effects, rest))
  {
  }

  lemma FoldNext(w: World, b: Trace, stage: Stage, list: seq<Interceptor>, k: nat, m: Message, request: Request)
    requires Fits(stage, m) && k < |list|
    requires Fold(w, b, stage, list[..k], m, request).reply.Returned?
    ensures var before := Fold(w, b, stage, list[..k], m, request);
            Fold(w, b, stage, list[..k + 1], m, request)
              == if !Implements(list[k], stage) then before
                 else Chained(
                     before.effects + [Intercept(stage, list[k], before.reply.value)],
                     Kept(stage, Ask(w, b + before.effects, stage, list[k], before.reply.value, request),
                       before.reply.value))
  {
    assert list[..k + 1][..k] == list[..k];
  }

  class Router {
    const world: World
    /** Everything this router has done. */
    var trace: Trace

    constructor (world: World)
      ensures this.world == world && trace == []
    {
      this.world := world;
      trace := [];
    }

    /** The loop that the three interceptor methods share, over interceptors already sorted. */
    method RunEach(stage: Stage, list: seq<Interceptor>, message: Message, request: Request)
        returns (reply: Reply<Message>)
      requires Fits(stage, message)
      modifies this
      ensures var c := Fold(world, old(trace), stage, list, message, request);
              trace == old(trace) + c.effects && reply == c.reply
    {
      ghost var b := trace;
      var intercepted := message;
      for k := 0 to |list|
        invariant Fits(stage, intercepted)
        invariant Fold(world, b, stage, list[..k], message, request).reply == Returned(intercepted)
        invariant trace == b + Fold(world, b, stage, list[..k], message, request).effects
      {
        FoldNext(world, b, stage, list, k, message, request);
        if Implements(list[k], stage) {
          ghost var before := Fold(world, b, stage, list[..k], message, request).effects;
          Associative(b, before, [Intercept(stage, list[k], intercepted)]);
          var answer := Ask(world, trace, stage, list[k], intercepted, request);
          trace := trace + [Intercept(stage, list[k], intercepted)];
          if answer.Threw? {
            FoldStops(world, b, stage, list, k + 1, message, request);
            return Threw(Rethrown(stage, answer.error));
          }
          intercepted := if answer.value.Some? then answer.value.value else intercepted;
        }
      }
      assert list[..|list|] == list;
      reply := Returned(intercepted);
    }

    method RunInterceptors(stage: Stage, message: Message, request: Request) returns (reply: Reply<Message>)
      requires Fits(stage, message)
      modifies this
      ensures var c := Chain(world, old(trace), stage, message, request);
              trace == old(trace) + c.effects && reply == c.reply
    {
      var registered := world.interceptors(trace);
      if registered.Returned? && registered.value.None? { return Returned(message); }
      trace := trace + [Collect(stage)];
      if registered.Threw? { return Threw(registered.error); }
      ghost var rest := Fold(world, trace, stage, ByPriority(registered.value.value), message, request);
      Associative(old(trace), [Collect(stage)], rest.effects);
      reply := RunEach(stage, ByPriority(registered.value.value), message, request);
    }

    method ExecuteErrorResponseInterceptors(error: Error, request: Request) returns (reply: Reply<Message>)
      modifies this
      ensures var c := Errors(world, old(trace), request, error);
              trace == old(trace) + c.effects && reply == c.reply
    {
      ghost var b := trace;
      trace := trace + [Respond(error)];
      ghost var b' := trace;
      reply := RunInterceptors(ForError(error), Outgoing(ErrorResponse(world, request, error)), request);
      ghost var first := Chain(world, b', ForError(error), Outgoing(ErrorResponse(world, request, error)), request);
      Associative(b, [Respond(error)], first.effects);
      if reply.Returned? {
        ghost var effects := [Respond(error)] + first.effects;
        ghost var second := Chain(world, b + effects, ForResponse, reply.value, request);
        reply := RunInterceptors(ForResponse, reply.value, request);
        Associative(b, effects, second.effects);
      }
    }

    /** Ends the execution span and answers with the error. */
    method Fail(error: Error, request: Request) returns (outcome: Outcome)
      modifies this
      ensures var x := Failing(world, old(trace), request, error);
              trace == old(trace) + Effects(x) && outcome == x.outcome
    {
      ghost var c := Errors(world, trace + [End(RequestExecution)], request, error);
      Associative(trace, [End(RequestExecution)], c.effects);
      trace := trace + [End(RequestExecution)];
      var reply := ExecuteErrorResponseInterceptors(error, request);
      outcome := Settled(reply);
    }

    /** A catch block. */
    method Catch(error: Error, request: Request) returns (outcome: Outcome)
      modifies this
      ensures var x := Caught(world, old(trace), request, error);
              trace == old(trace) + Effects(x) && outcome == x.outcome
    {
      if error.Nullish? { return Unsettled; }
      outcome := Fail(error, request);
    }

    method AnswerWith(request: Request, response: Response) returns (outcome: Outcome)
      modifies this
      ensures var x := FromResponse(world, old(trace), request, response);
              trace == old(trace) + Effects(x) && outcome == x.outcome
    {
      ghost var b := trace;
      ghost var c := Chain(world, b, ForResponse, Outgoing(response), request);
      var reply := RunInterceptors(ForResponse, Outgoing(response), request);
      if reply.Threw? {
        Continues(b, c.effects, Caught(world, b + c.effects, request, reply.error));
        outcome := Catch(reply.error, request);
        return;
      }
      trace := trace + [End(ResponseInterceptors), End(RequestExecution)];
      outcome := Settled(reply);
    }

    method CallController(request: Request, route: Route, arguments: seq<string>) returns (outcome: Outcome)
      modifies this
      ensures var x := FromCall(world, old(trace), request, route, arguments);
              trace == old(trace) + Effects(x) && outcome == x.outcome
    {
      ghost var b := trace;
      var answer := world.call(trace, route, arguments);
      if answer.Threw? {
        Continues(b, [Call(route, arguments)], Caught(world, b + [Call(route, arguments)], request, answer.error));
        trace := trace + [Call(route, arguments)];
        outcome := Catch(answer.error, request);
        return;
      }
      ghost var called := [Call(route, arguments), Start(ResponseInterceptors)];
      Continues(b, called, FromResponse(world, b + called, request, Wrapped(answer.value)));
      trace := trace + [Call(route, arguments), Start(ResponseInterceptors)];
      outcome := AnswerWith(request, Wrapped(answer.value));
    }

    method ResolveArguments(route: Route, intercepted: Request, identity: Identity)
        returns (reply: Reply<seq<string>>)
      modifies this
      ensures var found := Resolve(world, old(trace), route.methodArguments, intercepted, identity);
              trace == old(trace) + found.effects && reply == found.reply
    {
      ghost var b := trace;
      var arguments := route.methodArguments;
      var resolved := [];
      for k := 0 to |arguments|
        invariant Resolve(world, b, arguments[..k], intercepted, identity).reply == Returned(resolved)
        invariant trace == b + Resolve(world, b, arguments[..k], intercepted, identity).effects
      {
        assert arguments[..k + 1][..k] == arguments[..k];
        Associative(b, Resolve(world, b, arguments[..k], intercepted, identity).effects,
               [ResolveArgument(arguments[k], intercepted, identity)]);
        var value := world.resolveArgument(trace, arguments[k], intercepted, identity);
        trace := trace + [ResolveArgument(arguments[k], intercepted, identity)];
        if value.Threw? {
          ResolveStops(world, b, arguments, k + 1, intercepted, identity);
          return Threw(value.error);
        }
        resolved := resolved + [value.value];
      }
      assert arguments[..|arguments|] == arguments;
      reply := Returned(resolved);
    }

    method StoreAndCall(request: Request, route: Route, intercepted: Request, arguments: seq<string>)
        returns (outcome: Outcome)
      modifies this
      ensures var x := FromStore(world, old(trace), request, route, intercepted, arguments);
              trace == old(trace) + Effects(x) && outcome == x.outcome
    {
      ghost var b := trace;
      ghost var done := [Store(intercepted, arguments)];
      var stored := world.storeArguments(trace, intercepted);
      trace := trace + [Store(intercepted, arguments)];
      if stored.Some? {
        Continues(b, done, Caught(world, b + done, request, stored.value));
        outcome := Catch(stored.value, request);
      } else {
        Continues(b, done, FromCall(world, b + done, request, route, arguments));
        outcome := CallController(request, route, arguments);
      }
    }

    method ResolveAndCall(request: Request, route: Route, identity: Identity, intercepted: Request)
        returns (outcome: Outcome)
      modifies this
      ensures var x := FromResolution(world, old(trace), request, route, identity, intercepted);
              trace == old(trace) + Effects(x) && outcome == x.outcome
    {
      ghost var b := trace;
      ghost var found := Resolve(world, b, route.methodArguments, intercepted, identity).effects;
      var resolved := ResolveArguments(route, intercepted, identity);
      if resolved.Threw? {
        Continues(b, found, Caught(world, b + found, request, resolved.error));
        outcome := Catch(resolved.error, request);
      } else {
        Continues(b, found, FromStore(world, b + found, request, route, intercepted, resolved.value));
        outcome := StoreAndCall(request, route, intercepted, resolved.value);
      }
    }

    method FindArgumentsAndCall(request: Request, route: Route, identity: Identity, intercepted: Request)
        returns (outcome: Outcome)
      modifies this
      ensures var x := FromArguments(world, old(trace), request, route, identity, intercepted);
              trace == old(trace) + Effects(x) && outcome == x.outcome
    {
      ghost var b := trace;
      ghost var done := [LookUp(intercepted)];
      var cached := world.cachedArguments(trace, intercepted);
      trace := trace + [LookUp(intercepted)];
      if cached.Threw? {
        Continues(b, done, Caught(world, b + done, request, cached.error));
        outcome := Catch(cached.error, request);
      } else if cached.value.Some? {
        Continues(b, done, FromCall(world, b + done, request, route, cached.value.value));
        outcome := CallController(request, route, cached.value.value);
      } else {
        Continues(b, done, FromResolution(world, b + done, request, route, identity, intercepted));
        outcome := ResolveAndCall(request, route, identity, intercepted);
      }
    }

    method InterceptAndCall(request: Request, route: Route, identity: Identity) returns (outcome: Outcome)
      modifies this
      ensures var x := FromInterceptors(world, old(trace), request, route, identity);
              trace == old(trace) + Effects(x) && outcome == x.outcome
    {
      ghost var b := trace;
      ghost var c := Chain(world, b, ForRequest, Incoming(request), request);
      var intercepted := RunInterceptors(ForRequest, Incoming(request), request);
      if intercepted.Threw? {
        Continues(b, c.effects, Caught(world, b + c.effects, request, intercepted.error));
        outcome := Catch(intercepted.error, request);
        return;
      }
      ghost var done := c.effects + [End(RequestInterceptors)];
      Associative(b, c.effects, [End(RequestInterceptors)]);
      Continues(b, done, FromArguments(world, b + done, request, route, identity, intercepted.value.request));
      trace := trace + [End(RequestInterceptors)];
      outcome := FindArgumentsAndCall(request, route, identity, intercepted.value.request);
    }

    method AuthorizeAndCall(request: Request, route: Route, identity: Identity) returns (outcome: Outcome)
      modifies this
      ensures var x := FromAuthorization(world, old(trace), request, route, identity);
              trace == old(trace) + Effects(x) && outcome == x.outcome
    {
      ghost var b := trace;
      ghost var asked := [Authorize(route, identity)];
      var allowed := world.authorize(trace, request, route, identity);
      trace := trace + [Authorize(route, identity)];
      if allowed.Threw? {
        Continues(b, asked, Caught(world, b + asked, request, allowed.error));
        outcome := Catch(allowed.error, request);
      } else if !allowed.value {
        Continues(b, asked, Failing(world, b + asked, request, Forbidden));
        outcome := Fail(Forbidden, request);
      } else {
        ghost var done := asked + [Start(RequestInterceptors)];
        Associative(b, asked, [Start(RequestInterceptors)]);
        Continues(b, done, FromInterceptors(world, b + done, request, route, identity));
        trace := trace + [Start(RequestInterceptors)];
        outcome := InterceptAndCall(request, route, identity);
      }
    }

    method AuthenticateAndCall(request: Request, route: Route) returns (outcome: Outcome)
      modifies this
      ensures var x := FromAuthentication(world, old(trace), request, route);
              trace == old(trace) + Effects(x) && outcome == x.outcome
    {
      ghost var b := trace;
      ghost var asked := [Start(RequestAuthentication), Authenticate(route)];
      var identity := world.authenticate(trace + [Start(RequestAuthentication)], request, route);
      trace := trace + [Start(RequestAuthentication), Authenticate(route)];
      if identity == Threw(Nullish) {
        Continues(b, asked, Caught(world, b + asked, request, Nullish));
        outcome := Catch(Nullish, request);
      } else if identity.Threw? {
        Continues(b, asked, Failing(world, b + asked, request, AuthenticationError(identity.error)));
        outcome := Fail(AuthenticationError(identity.error), request);
      } else {
        ghost var done := asked + [End(RequestAuthentication)];
        Associative(b, asked, [End(RequestAuthentication)]);
        Continues(b, done, FromAuthorization(world, b + done, request, route, identity.value));
        trace := trace + [End(RequestAuthentication)];
        outcome := AuthorizeAndCall(request, route, identity.value);
      }
    }

    method ExecuteRoute(request: Request, route: Option<Route>) returns (outcome: Outcome)
      modifies this
      ensures var x := FromRoute(world, old(trace), request, route);
              trace == old(trace) + Effects(x) && outcome == x.outcome
    {
      if route.None? {
        outcome := Fail(NotFound(request.httpMethod, request.path), request);
        return;
      }
      ghost var b := trace;
      ghost var asked := [Start(ControllerResolver), ResolveController(route.value)];
      var resolves := world.resolvesController(trace + [Start(ControllerResolver)], route.value);
      trace := trace + [Start(ControllerResolver), ResolveController(route.value)];
      if !resolves { return Unsettled; }
      ghost var done := asked + [End(ControllerResolver)];
      Associative(b, asked, [End(ControllerResolver)]);
      Continues(b, done, FromAuthentication(world, b + done, request, route.value));
      trace := trace + [End(ControllerResolver)];
      outcome := AuthenticateAndCall(request, route.value);
    }

    method LookUpRoute(request: Request) returns (outcome: Outcome)
      modifies this
      ensures var x := FromLookUp(world, old(trace), request);
              trace == old(trace) + Effects(x) && outcome == x.outcome
    {
      var cached := world.cachedRoute(trace, request);
      if cached.Some? {
        outcome := ExecuteRoute(request, cached.value);
        return;
      }
      ghost var b := trace;
      ghost var done := [Start(FindMethodRouterNode), FindRoute, End(FindMethodRouterNode)];
      var found := world.findRoute(trace + [Start(FindMethodRouterNode)], request);
      trace := trace + [Start(FindMethodRouterNode), FindRoute, End(FindMethodRouterNode)];
      Continues(b, done, FromRoute(world, b + done, request, found));
      outcome := ExecuteRoute(request, found);
    }

    method Execute(request: Request) returns (outcome: Outcome)
      modifies this
      ensures var x := Executed(world, old(trace), request);
              trace == old(trace) + Effects(x) && outcome == x.outcome
    {
      ghost var b := trace;
      trace := trace + [Start(RequestExecution)];
      Continues(b, [Start(RequestExecution)], FromUrl(world, b + [Start(RequestExecution)], request));
      if !world.parsesUrl(request) { return Unsettled; }
      outcome := LookUpRoute(request);
    }
  }
}
