/** What dispatch answers, in terms of the request and the registrations alone: which middlewares a path has,
    which refusal a request gets, and what becomes of a handler's response or exception. */
module DispatchAnswers {
  import opened Options
  import opened Chains
  import opened Routes
  import opened Dispatching
  import opened DispatchProperties
  import opened Streams
  import opened Texts

  // The path

  /** A query string is no part of the path. */
  lemma PathCutsQuery(path: string, query: string)
    requires '?' !in path
    ensures PathOf(path + "?" + query) == path && PathOf(path) == path
  {
    FindIsFirst(path + "?" + query, '?', 0, |path|);
    FindIsFirst(path, '?', 0, |path|);
  }

  // Middlewares of a path

  ghost predicate Increasing(idx: seq<nat>, n: nat) {
    (forall a, b :: 0 <= a < b < |idx| ==> idx[a] < idx[b]) && forall a :: 0 <= a < |idx| ==> idx[a] < n
  }

  function Picked(scoped: seq<Scoped>, idx: seq<nat>): seq<Middleware>
    requires forall a :: 0 <= a < |idx| ==> idx[a] < |scoped|
  {
    seq(|idx|, i requires 0 <= i < |idx| => scoped[idx[i]].middleware)
  }

  lemma PrefixIff(prefix: string, path: string)
    ensures prefix <= path <==> exists rest :: path == prefix + rest
  {
    if prefix <= path {
      assert path == prefix + path[|prefix|..];
    }
  }

  lemma {:induction false} InScopeIs(scoped: seq<Scoped>, path: string) returns (idx: seq<nat>)
    ensures Increasing(idx, |scoped|) && InScope(scoped, path) == Picked(scoped, idx)
    ensures forall j: nat :: j < |scoped| ==> (j in idx <==> exists rest :: path == scoped[j].prefix + rest)
  {
    idx := [];
    if scoped != [] {
      var n := |scoped| - 1;
      var before := InScopeIs(scoped[..n], path);
      assert Picked(scoped[..n], before) == Picked(scoped, before);
      PrefixIff(scoped[n].prefix, path);
      if scoped[n].prefix <= path {
        idx := before + [n];
        assert Picked(scoped, idx) == Picked(scoped, before) + [scoped[n].middleware];
      } else {
        idx := before;
      }
    }
  }

  /** The middlewares of a path: all global ones, then the scoped ones whose prefix the path goes on from, in
      the order they were registered. */
  lemma CollectedIs(globals: seq<Middleware>, scoped: seq<Scoped>, path: string) returns (idx: seq<nat>)
    ensures Increasing(idx, |scoped|)
    ensures forall j: nat :: j < |scoped| ==> (j in idx <==> exists rest :: path == scoped[j].prefix + rest)
    ensures Collected(globals, scoped, path) == globals + Picked(scoped, idx)
  {
    idx := InScopeIs(scoped, path);
  }

  lemma {:induction false} PassedHasAll(n: nat, i: nat)
    requires i < n
    ensures Entered(i) in Passed(n) && Forwarded(i) in Passed(n)
  {
    if i < n - 1 {
      PassedHasAll(n - 1, i);
    }
  }

  /** A middleware registered for a prefix guards every path that goes on from it, with or without a query:
      whenever the handler runs, this middleware was entered and called `next` before. */
  lemma ScopedMiddlewareGuards(env: Env, table: seq<Entry>, globals: seq<Middleware>, scoped: seq<Scoped>, r: Request,
      j: nat, rest: string, query: string, p: nat) returns (i: nat)
    requires j < |scoped| && '?' !in scoped[j].prefix + rest
    requires r.target == scoped[j].prefix + rest || r.target == scoped[j].prefix + rest + "?" + query
    requires var trace := Dispatched(env, table, globals, scoped, r).trace;
             p < |trace| && trace[p] == Handled
    ensures var ms := Collected(globals, scoped, scoped[j].prefix + rest);
            i < |ms| && ms[i] == scoped[j].middleware
    ensures var before := Dispatched(env, table, globals, scoped, r).trace[..p];
            Entered(i) in before && Forwarded(i) in before
  {
    var path := scoped[j].prefix + rest;
    PathCutsQuery(path, query);
    var idx := CollectedIs(globals, scoped, path);
    assert j in idx;
    var a :| 0 <= a < |idx| && idx[a] == j;
    i := |globals| + a;
    var ms := Collected(globals, scoped, path);
    assert ms[i] == Picked(scoped, idx)[a];
    MiddlewaresGuardHandler(env, table, globals, scoped, r);
    PassedHasAll(|ms|, i);
  }

  /** A global middleware guards every path. */
  lemma GlobalMiddlewareGuards(env: Env, table: seq<Entry>, globals: seq<Middleware>, scoped: seq<Scoped>, r: Request,
      i: nat, p: nat)
    requires i < |globals|
    requires var trace := Dispatched(env, table, globals, scoped, r).trace;
             p < |trace| && trace[p] == Handled
    ensures Collected(globals, scoped, PathOf(r.target))[..|globals|] == globals
    ensures var before := Dispatched(env, table, globals, scoped, r).trace[..p];
            Entered(i) in before && Forwarded(i) in before
  {
    var idx := CollectedIs(globals, scoped, PathOf(r.target));
    MiddlewaresGuardHandler(env, table, globals, scoped, r);
    PassedHasAll(|Collected(globals, scoped, PathOf(r.target))|, i);
  }

  // The Allow header

  function CommaList(names: seq<string>): string {
    if names == [] then ""
    else if |names| == 1 then names[0]
    else CommaList(names[..|names| - 1]) + ", " + names[|names| - 1]
  }

  lemma {:induction false} CommaListGrows(names: seq<string>, name: string)
    requires name != "" && forall i :: 0 <= i < |names| ==> names[i] != ""
    ensures CommaList(names + [name]) == (if names == [] then "" else CommaList(names) + ", ") + name
    ensures names != [] ==> CommaList(names) != ""
  {
    assert (names + [name])[..|names|] == names;
  }

  function NamesAt(pairs: seq<(Verb, string)>, idx: seq<nat>): seq<string>
    requires forall a :: 0 <= a < |idx| ==> idx[a] < |pairs|
  {
    seq(|idx|, i requires 0 <= i < |idx| => pairs[idx[i]].1)
  }

  lemma AllowGrows(methods: map<Verb, Handler>, pairs: seq<(Verb, string)>, names: seq<string>)
    requires pairs != [] && pairs[|pairs| - 1].1 != "" && forall i :: 0 <= i < |names| ==> names[i] != ""
    requires AllowHeader(methods, pairs[..|pairs| - 1]) == CommaList(names)
    ensures var last := pairs[|pairs| - 1];
            AllowHeader(methods, pairs) == CommaList(if last.0 in methods then names + [last.1] else names)
  {
    CommaListGrows(names, pairs[|pairs| - 1].1);
  }

  /** The places of the registered methods. */
  function Present(methods: map<Verb, Handler>, pairs: seq<(Verb, string)>): (idx: seq<nat>)
    ensures forall a :: 0 <= a < |idx| ==> idx[a] < |pairs|
  {
    if pairs == [] then []
    else
      var n := |pairs| - 1;
      Present(methods, pairs[..n]) + if pairs[n].0 in methods then [n] else []
  }

  lemma {:induction false} PresentIs(methods: map<Verb, Handler>, pairs: seq<(Verb, string)>)
    ensures Increasing(Present(methods, pairs), |pairs|)
    ensures forall j: nat :: j < |pairs| ==> (j in Present(methods, pairs) <==> pairs[j].0 in methods)
  {
    if pairs != [] {
      PresentIs(methods, pairs[..|pairs| - 1]);
    }
  }

  lemma {:induction false} AllowHeaderOf(methods: map<Verb, Handler>, pairs: seq<(Verb, string)>)
    requires forall i :: 0 <= i < |pairs| ==> pairs[i].1 != ""
    ensures AllowHeader(methods, pairs) == CommaList(NamesAt(pairs, Present(methods, pairs)))
  {
    if pairs != [] {
      var front := pairs[..|pairs| - 1];
      AllowHeaderOf(methods, front);
      AllowGrows(methods, pairs, NamesAt(front, Present(methods, front)));
      NamesGrow(methods, pairs);
    }
  }

  lemma NamesGrow(methods: map<Verb, Handler>, pairs: seq<(Verb, string)>)
    requires pairs != []
    ensures var front, last := pairs[..|pairs| - 1], pairs[|pairs| - 1];
            NamesAt(pairs, Present(methods, pairs))
            == if last.0 in methods then NamesAt(front, Present(methods, front)) + [last.1]
               else NamesAt(front, Present(methods, front))
  {
    var n := |pairs| - 1;
    var before := Present(methods, pairs[..n]);
    NamesOfFront(pairs, before);
    if pairs[n].0 in methods {
      assert NamesAt(pairs, before + [n]) == NamesAt(pairs, before) + [pairs[n].1];
    } else {
      assert before + [] == before;
    }
  }

  lemma NamesOfFront(pairs: seq<(Verb, string)>, idx: seq<nat>)
    requires pairs != [] && forall a :: 0 <= a < |idx| ==> idx[a] < |pairs| - 1
    ensures NamesAt(pairs, idx) == NamesAt(pairs[..|pairs| - 1], idx)
  {
  }

  /** The Allow header lists the names of exactly the registered methods, in the fixed order. */
  lemma AllowHeaderLists(methods: map<Verb, Handler>) returns (idx: seq<nat>)
    ensures Increasing(idx, 7) && |VERB_NAMES| == 7
    ensures AllowHeader(methods, VERB_NAMES) == CommaList(NamesAt(VERB_NAMES, idx))
    ensures forall j: nat :: j < 7 ==> (j in idx <==> VERB_NAMES[j].0 in methods)
  {
    idx := Present(methods, VERB_NAMES);
    PresentIs(methods, VERB_NAMES);
    AllowHeaderOf(methods, VERB_NAMES);
  }

  // Refusals

  /** The body may be sent: there is none, or nothing restricts it, or a content type names an allowed one. */
  ghost predicate BodyAllowed(e: Entry, r: Request) {
    || r.body == "" || r.verb !in e.contentTypes || e.contentTypes[r.verb] == []
    || (r.contentType != ""
        && exists t: string, a: string, b: string :: t in e.contentTypes[r.verb] && r.contentType == a + t + b)
  }

  lemma BodyAllowedIff(e: Entry, r: Request)
    requires r.verb in e.contentTypes
    ensures (exists t :: t in e.contentTypes[r.verb] && Contains(r.contentType, t))
            <==> exists t: string, a: string, b: string :: t in e.contentTypes[r.verb] && r.contentType == a + t + b
  {
    if t :| t in e.contentTypes[r.verb] && Contains(r.contentType, t) {
      ContainsIff(r.contentType, t);
    }
    if t: string, a: string, b: string :| t in e.contentTypes[r.verb] && r.contentType == a + t + b {
      ContainsIff(r.contentType, t);
    }
  }

  /** Which requests a route refuses, and how: 200 with the methods for an OPTIONS it does not have, 405 for
      another method, 415 for a body of a type it does not allow, 413 for one that is too long. */
  lemma RefusalIs(env: Env, e: Entry, r: Request)
    ensures Refusal(env, e, r).None? <==> r.verb in e.methods && BodyAllowed(e, r) && |r.body| <= env.uploadLimit
    ensures Refusal(env, e, r).Some? ==>
              var refusal := Refusal(env, e, r).value;
              && refusal.headers == map["Allow" := AllowHeader(e.methods, VERB_NAMES)]
              && refusal.status == if r.verb !in e.methods then if r.verb == Verb.Options then 200 else 405
                                   else if !BodyAllowed(e, r) then 415
                                   else 413
  {
    if r.verb in e.contentTypes {
      BodyAllowedIff(e, r);
    }
  }

  /** A refused request gets the refusal, passed through the hooks, and nothing else runs. */
  lemma RefusedGetsRefusal(env: Env, e: Entry, ms: seq<Middleware>, r: Request)
    requires !(r.verb == Head && Head !in e.methods && Get in e.methods)
    requires !(r.verb in e.methods && BodyAllowed(e, r) && |r.body| <= env.uploadLimit)
    ensures Refusal(env, e, r).Some?
    ensures var (result, trace) := Hooks(ms, 0, r, Refusal(env, e, r).value);
            AfterRouting(env, e, ms, r) == Done(result, trace)
  {
    RefusalIs(env, e, r);
  }

  /** No registered template fits: 404. */
  lemma UnknownPathIs404(env: Env, log: seq<Registration>, globals: seq<Middleware>, scoped: seq<Scoped>, r: Request)
    returns (answer: Response)
    requires SoundEngine(env.engine)
    requires forall k :: 0 <= k < |Table(log)| ==> !Fitting(Table(log)[k], PathOf(r.target))
    ensures answer.status == 404
    ensures var (result, trace) := Hooks(Collected(globals, scoped, PathOf(r.target)), 0, r, answer);
            Dispatched(env, Table(log), globals, scoped, r) == Done(result, trace)
  {
    answer := Error(404, "Not found");
    TableKeepsRegistrations(log, "", Get);
    forall k | 0 <= k < |Table(log)|
      ensures env.engine(Table(log)[k].pattern, PathOf(r.target)).None?
    {
      EngineFindsFits(env, Table(log)[k], PathOf(r.target));
    }
  }

  /** A body that its parser rejects with a message: 400 with that message. JSON is looked for first. */
  lemma MalformedBodyIs400(env: Env, e: Entry, ms: seq<Middleware>, r: Request, a: string, b: string, what: string)
    requires r.verb in e.methods && BodyAllowed(e, r) && |r.body| <= env.uploadLimit && what != ""
    requires r.contentType == a + "application/json" + b && env.parseJson(r).1 == Throw(StdException(what))
    ensures var (result, trace) := Hooks(ms, 0, env.parseJson(r).0, Response(400, what, map[]));
            AfterRouting(env, e, ms, r) == Done(result, trace)
  {
    RefusalIs(env, e, r);
    ContainsIff(r.contentType, "application/json");
  }

  lemma MalformedFormIs400(env: Env, e: Entry, ms: seq<Middleware>, r: Request, a: string, b: string, what: string)
    requires r.verb in e.methods && BodyAllowed(e, r) && |r.body| <= env.uploadLimit && what != ""
    requires r.contentType == a + "multipart/form-data" + b && !Contains(r.contentType, "application/json")
    requires env.parseMultipart(r).1 == Throw(StdException(what))
    ensures var (result, trace) := Hooks(ms, 0, env.parseMultipart(r).0, Response(400, what, map[]));
            AfterRouting(env, e, ms, r) == Done(result, trace)
  {
    RefusalIs(env, e, r);
    ContainsIff(r.contentType, "multipart/form-data");
  }

  // Answers of the handler

  /** Middlewares that forward the request and hand back what `next` gives. */
  ghost predicate Transparent(m: Middleware) {
    && (forall r: Request :: m.before(r) == Forward(r))
    && (forall r: Request, result: Result<Response> :: m.finish(r, result) == (r, result))
  }

  /** Through such middlewares the handler's own outcome comes back. */
  lemma {:induction false} TransparentChain(ms: seq<Middleware>, i: nat, handler: Handler, r: Request)
    requires i <= |ms| && forall k :: i <= k < |ms| ==> Transparent(ms[k])
    ensures var reply := Chain(ms, i, handler, r);
            (reply.request, reply.result) == handler(r)
    decreases |ms| - i
  {
    if i < |ms| {
      TransparentChain(ms, i + 1, handler, r);
      assert ms[i].before(r) == Forward(r);
    }
  }

  /** A middleware that answers is heard, and no later one and no handler matters. */
  lemma {:induction false} AnswerComesBack(ms: seq<Middleware>, i: nat, k: nat, handler: Handler, r: Request,
      q: Request, response: Response)
    requires i <= k < |ms| && ms[k].before(r) == Answer(q, response)
    requires forall j :: i <= j < k ==> Transparent(ms[j])
    ensures var reply := Chain(ms, i, handler, r);
            reply.request == q && reply.result == Ok(response)
    decreases |ms| - i
  {
    if i < k {
      AnswerComesBack(ms, i + 1, k, handler, r, q, response);
      assert ms[i].before(r) == Forward(r);
    }
  }

  lemma {:induction false} FailureComesBack(ms: seq<Middleware>, i: nat, k: nat, handler: Handler, r: Request,
      q: Request, exn: Exn)
    requires i <= k < |ms| && ms[k].before(r) == Fail(q, exn)
    requires forall j :: i <= j < k ==> Transparent(ms[j])
    ensures var reply := Chain(ms, i, handler, r);
            reply.request == q && reply.result == Throw(exn)
    decreases |ms| - i
  {
    if i < k {
      FailureComesBack(ms, i + 1, k, handler, r, q, exn);
      assert ms[i].before(r) == Forward(r);
    }
  }

  /** What the last middleware makes of the outcome is what the one before gets. */
  lemma FinishIsApplied(m: Middleware, handler: Handler, r: Request, q: Request)
    requires m.before(r) == Forward(q)
    ensures var inner := handler(q);
            var reply := Chain([m], 0, handler, r);
            (reply.request, reply.result) == m.finish(inner.0, inner.1)
  {
    assert Chain([m], 1, handler, q) == Leaf(handler, q);
  }

  /** The response of a pass over the hooks is the one the last of them gives. */
  lemma {:induction false} HooksThread(ms: seq<Middleware>, i: nat, r: Request, response: Response, current: Response)
    requires i <= |ms| && ReachesHook(ms, r, response, i) == Some(current) && Hooks(ms, i, r, current).0.Ok?
    ensures ReachesHook(ms, r, response, |ms|) == Some(Hooks(ms, i, r, current).0.value)
    decreases |ms| - i
  {
    if i < |ms| {
      HooksThread(ms, i + 1, r, response, ms[i].after(r, current).value);
    }
  }

  /** What becomes of a handler's outcome: a response passes the hooks; a standard exception becomes a 500 with
      its message, or a fixed one for an empty message; anything else is not caught. */
  lemma HandlerOutcomeIsAnswered(handler: Handler, ms: seq<Middleware>, r: Request)
    requires forall k :: 0 <= k < |ms| ==> Transparent(ms[k])
    ensures var (q, outcome) := handler(r);
            var result := RunHandler(handler, ms, r).result;
            && (outcome.Ok? && Hooks(ms, 0, q, outcome.value).0.Ok? ==> result == Hooks(ms, 0, q, outcome.value).0)
            && (outcome == Throw(Foreign) ==> result == Throw(Foreign))
            && (outcome.Throw? && !outcome.exn.Foreign? ==>
                  var fixed := if outcome.exn.DbError? then "Database error" else "Unexpected error";
                  var text := if outcome.exn.what == "" then fixed else outcome.exn.what;
                  result == Hooks(ms, 0, q, Response(500, text, map[])).0)
  {
    TransparentChain(ms, 0, handler, r);
    var (q, outcome) := handler(r);
    ReplyIsAnswered(handler, ms, r, q, outcome);
  }

  lemma ReplyIsAnswered(handler: Handler, ms: seq<Middleware>, r: Request, q: Request, outcome: Result<Response>)
    requires Chain(ms, 0, handler, r).request == q && Chain(ms, 0, handler, r).result == outcome
    ensures outcome.Ok? && Hooks(ms, 0, q, outcome.value).0.Ok? ==>
              RunHandler(handler, ms, r).result == Hooks(ms, 0, q, outcome.value).0
    ensures outcome.Throw? ==>
              RunHandler(handler, ms, r).result
              == if outcome.exn.Foreign? then outcome else Hooks(ms, 0, q, Error(500, MessageOf(outcome.exn))).0
  {
  }

  /** HEAD by the GET handler: the same status and headers, but no body, and a length of zero. */
  lemma HeadIsGetWithoutBody(env: Env, e: Entry, ms: seq<Middleware>, r: Request, response: Response)
    requires r.verb == Head && Head !in e.methods && Get in e.methods
    requires (forall k :: 0 <= k < |ms| ==> Transparent(ms[k])) && e.methods[Get](r).1 == Ok(response)
    ensures AfterRouting(env, e, ms, r).result
            == Hooks(ms, 0, e.methods[Get](r).0,
                     Response(response.status, "", response.headers["Content-Length" := "0"])).0
  {
    TransparentChain(ms, 0, e.methods[Get], r);
  }

  /** A request that is not refused reaches the handler of its method with the body parsed. */
  lemma AcceptedReachesHandler(env: Env, e: Entry, ms: seq<Middleware>, r: Request)
    requires r.verb in e.methods && BodyAllowed(e, r) && |r.body| <= env.uploadLimit
    requires !Contains(r.contentType, "application/json") && !Contains(r.contentType, "multipart/form-data")
    ensures AfterRouting(env, e, ms, r) == RunHandler(e.methods[r.verb], ms, r)
  {
    RefusalIs(env, e, r);
  }
}
