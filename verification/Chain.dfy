/** Middlewares: the chain of `handle` calls around a handler, and the `after` hooks. A middleware may
    answer, throw, or call `next` once, and may do anything with what `next` gives. */
module Chains {

  datatype Exn = DbError(what: string) | StdException(what: string) | Foreign

  datatype Result<+T> = Ok(value: T) | Throw(exn: Exn)

  datatype Verb = Get | Head | Post | Put | Patch | Delete | Options | Other(name: string)

  datatype Request = Request(
    verb: Verb, target: string, contentType: string, body: string, pathParams: map<string, string>, userId: int)

  datatype Response = Response(status: nat, body: string, headers: map<string, string>)

  /** A handler; like every stage it may change the request it is given by reference. */
  type Handler = Request -> (Request, Result<Response>)

  /** What a middleware does first: it answers or throws without calling `next`, or calls it. */
  datatype Verdict =
    | Answer(request: Request, response: Response)
    | Fail(request: Request, exn: Exn)
    | Forward(request: Request)

  datatype Middleware = Middleware(
    before: Request -> Verdict,
    finish: (Request, Result<Response>) -> (Request, Result<Response>),
    after: (Request, Response) -> Result<Response>)

  /** What happens in a dispatch: middleware i is entered, calls `next`, the handler runs, the after
      hook of middleware i runs. */
  datatype Happening = Entered(i: nat) | Forwarded(i: nat) | Handled | Hooked(i: nat)

  datatype Reply = Reply(request: Request, result: Result<Response>, trace: seq<Happening>)

  type Next = Request -> Reply

  function Leaf(handler: Handler, r: Request): Reply {
    var (r', result) := handler(r);
    Reply(r', result, [Handled])
  }

  /** `middleware->handle(request, next)` for middleware number i. */
  function Handle(m: Middleware, i: nat, r: Request, next: Next): Reply {
    match m.before(r)
    case Answer(r', response) => Reply(r', Ok(response), [Entered(i)])
    case Fail(r', exn) => Reply(r', Throw(exn), [Entered(i)])
    case Forward(r') =>
      var inner := next(r');
      var (r'', result) := m.finish(inner.request, inner.result);
      Reply(r'', result, [Entered(i), Forwarded(i)] + inner.trace)
  }

  /** The middlewares from number i on, around the handler. */
  function Chain(ms: seq<Middleware>, i: nat, handler: Handler, r: Request): Reply
    requires i <= |ms|
    decreases |ms| - i
  {
    if i == |ms| then Leaf(handler, r)
    else Handle(ms[i], i, r, r' => Chain(ms, i + 1, handler, r'))
  }

  /** `runChain` composes one `next` from the last middleware back to the first. */
  method RunChain(request: Request, handler: Handler, ms: seq<Middleware>) returns (reply: Reply)
    ensures reply == Chain(ms, 0, handler, request)
  {
    var next: Next := r => Leaf(handler, r);
    var i := |ms|;
    while i > 0
      invariant 0 <= i <= |ms|
      invariant forall r :: next(r) == Chain(ms, i, handler, r)
    {
      var prev, m, k: nat := next, ms[i - 1], i - 1;
      next := r => Handle(m, k, r, prev);
      forall r
        ensures Handle(m, k, r, prev) == Chain(ms, k, handler, r)
      {
        SameNext(m, k, r, prev, r' => Chain(ms, k + 1, handler, r'));
      }
      i := k;
    }
    reply := next(request);
  }

  lemma SameNext(m: Middleware, i: nat, r: Request, next: Next, next': Next)
    requires forall q :: next(q) == next'(q)
    ensures Handle(m, i, r, next) == Handle(m, i, r, next')
  {
  }

  /** The after hooks from number i on: each gets the response of the one before. */
  function Hooks(ms: seq<Middleware>, i: nat, r: Request, response: Response): (Result<Response>, seq<Happening>)
    requires i <= |ms|
    decreases |ms| - i
  {
    if i == |ms| then (Ok(response), [])
    else
      var one := ms[i].after(r, response);
      match one
      case Throw(_) => (one, [Hooked(i)])
      case Ok(next) =>
        var (result, trace) := Hooks(ms, i + 1, r, next);
        (result, [Hooked(i)] + trace)
  }

  /** `runAfter`. */
  method RunAfter(request: Request, response: Response, ms: seq<Middleware>)
    returns (result: Result<Response>, trace: seq<Happening>)
    ensures (result, trace) == Hooks(ms, 0, request, response)
  {
    var current := response;
    trace := [];
    assert trace + Hooks(ms, 0, request, response).1 == Hooks(ms, 0, request, response).1;
    for i := 0 to |ms|
      invariant Hooks(ms, 0, request, response).0 == Hooks(ms, i, request, current).0
      invariant Hooks(ms, 0, request, response).1 == trace + Hooks(ms, i, request, current).1
    {
      var one := ms[i].after(request, current);
      ghost var before := trace;
      trace := trace + [Hooked(i)];
      if one.Throw? {
        return one, trace;
      }
      assert before + ([Hooked(i)] + Hooks(ms, i + 1, request, one.value).1)
          == trace + Hooks(ms, i + 1, request, one.value).1;
      current := one.value;
    }
    assert trace + [] == trace;
    result := Ok(current);
  }

  // Order

  /** Middlewares 0 to k - 1 each entered and left forward, in order. */
  function Passed(k: nat): seq<Happening> {
    if k == 0 then [] else Passed(k - 1) + [Entered(k - 1), Forwarded(k - 1)]
  }

  function HooksRun(k: nat): seq<Happening> {
    if k == 0 then [] else HooksRun(k - 1) + [Hooked(k - 1)]
  }

  /** All middlewares passed and then the handler; or some passed, and one entered that stopped. */
  ghost predicate ChainTrace(trace: seq<Happening>, n: nat) {
    trace == Passed(n) + [Handled] || exists k: nat :: k < n && trace == Passed(k) + [Entered(k)]
  }

  lemma {:induction false} ChainFromHere(ms: seq<Middleware>, i: nat, handler: Handler, r: Request)
    requires i <= |ms|
    ensures ChainTrace(Passed(i) + Chain(ms, i, handler, r).trace, |ms|)
    decreases |ms| - i
  {
    if i < |ms| {
      var v := ms[i].before(r);
      if v.Forward? {
        ChainFromHere(ms, i + 1, handler, v.request);
        var inner := Chain(ms, i + 1, handler, v.request).trace;
        assert Passed(i) + ([Entered(i), Forwarded(i)] + inner) == Passed(i + 1) + inner;
      }
    }
  }

  lemma {:induction false} PassedHasNoHandler(k: nat)
    ensures Handled !in Passed(k) && forall i :: Hooked(i) !in Passed(k)
  {
    if k > 0 {
      PassedHasNoHandler(k - 1);
    }
  }

  /** The handler runs at most once, and only after every middleware, in order, was entered and called
      `next`; otherwise some middleware stopped the request and none after it was entered. */
  lemma HandlerAfterAllMiddlewares(ms: seq<Middleware>, handler: Handler, r: Request)
    ensures var trace := Chain(ms, 0, handler, r).trace;
            && ChainTrace(trace, |ms|)
            && (Handled in trace <==> trace == Passed(|ms|) + [Handled])
            && multiset(trace)[Handled] <= 1
            && forall i :: Hooked(i) !in trace
  {
    ChainFromHere(ms, 0, handler, r);
    var trace := Chain(ms, 0, handler, r).trace;
    assert Passed(0) + trace == trace;
    PassedHasNoHandler(|ms|);
    if k: nat :| k < |ms| && trace == Passed(k) + [Entered(k)] {
      PassedHasNoHandler(k);
    }
  }

  lemma {:induction false} HooksFromHere(ms: seq<Middleware>, i: nat, r: Request, response: Response)
    requires i <= |ms|
    ensures var (result, trace) := Hooks(ms, i, r, response);
            && (result.Ok? ==> HooksRun(i) + trace == HooksRun(|ms|))
            && (result.Throw? ==> exists k: nat :: i < k <= |ms| && HooksRun(i) + trace == HooksRun(k))
    decreases |ms| - i
  {
    if i < |ms| {
      var one := ms[i].after(r, response);
      if one.Ok? {
        HooksFromHere(ms, i + 1, r, one.value);
        var trace := Hooks(ms, i + 1, r, one.value).1;
        assert HooksRun(i) + ([Hooked(i)] + trace) == HooksRun(i + 1) + trace;
      } else {
        assert HooksRun(i) + [Hooked(i)] == HooksRun(i + 1);
      }
    }
  }

  /** The hooks run in order, each once; all of them unless one throws, which is then the last. */
  lemma HooksInOrder(ms: seq<Middleware>, r: Request, response: Response)
    ensures var (result, trace) := Hooks(ms, 0, r, response);
            && (result.Ok? ==> trace == HooksRun(|ms|))
            && (result.Throw? ==> exists k: nat :: 0 < k <= |ms| && trace == HooksRun(k))
  {
    HooksFromHere(ms, 0, r, response);
    var trace := Hooks(ms, 0, r, response).1;
    assert HooksRun(0) + trace == trace;
  }
}
