/** The router: registration, route lookup and `dispatch`, with every refusal and the middleware
    machinery of Chains. */
module Dispatching {
  import opened Options
  import opened Chains
  import opened Routes
  import opened RouteMatching
  import opened Streams
  import opened Texts

  datatype Entry = Entry(
    original: string,
    pattern: string,
    paramNames: seq<string>,
    methods: map<Verb, Handler>,
    contentTypes: map<Verb, seq<string>>)

  datatype Scoped = Scoped(prefix: string, middleware: Middleware)

  /** Code this model does not see: the regular-expression engine, the two body parsers (which may
      fill in the request), and the size limit from the configuration. */
  datatype Env = Env(
    engine: (string, string) -> Option<seq<string>>,
    parseJson: Request -> (Request, Result<()>),
    parseMultipart: Request -> (Request, Result<()>),
    uploadLimit: nat)

  // Registration

  datatype Registration = Registration(verb: Verb, path: string, handler: Handler, contentTypes: seq<string>)

  function WithMethod(e: Entry, r: Registration): Entry {
    e.(methods := e.methods[r.verb := r.handler], contentTypes := e.contentTypes[r.verb := r.contentTypes])
  }

  function NewEntry(path: string): Entry {
    Entry(path, PatternText(Template(path)), Names(Template(path)), map[], map[])
  }

  function IndexOf(table: seq<Entry>, path: string): (k: nat)
    ensures k <= |table| && (k < |table| ==> table[k].original == path)
    ensures forall j :: 0 <= j < k ==> table[j].original != path
  {
    if table == [] || table[0].original == path then 0 else 1 + IndexOf(table[1..], path)
  }

  function Registered(table: seq<Entry>, r: Registration): seq<Entry> {
    var k := IndexOf(table, r.path);
    if k < |table| then table[k := WithMethod(table[k], r)] else table + [WithMethod(NewEntry(r.path), r)]
  }

  function Table(log: seq<Registration>): seq<Entry> {
    if log == [] then [] else Registered(Table(log[..|log| - 1]), log[|log| - 1])
  }

  /** The middlewares of a path: the global ones, then those whose prefix starts the path. */
  function InScope(scoped: seq<Scoped>, path: string): seq<Middleware> {
    if scoped == [] then []
    else
      var last := scoped[|scoped| - 1];
      InScope(scoped[..|scoped| - 1], path) + if last.prefix <= path then [last.middleware] else []
  }

  function Collected(globals: seq<Middleware>, scoped: seq<Scoped>, path: string): seq<Middleware> {
    globals + InScope(scoped, path)
  }

  // Responses made by the router itself

  const VERB_NAMES: seq<(Verb, string)> :=
    [(Get, "GET"), (Head, "HEAD"), (Post, "POST"), (Put, "PUT"), (Patch, "PATCH"), (Delete, "DELETE"),
     (Options, "OPTIONS")]

  function AllowHeader(methods: map<Verb, Handler>, names: seq<(Verb, string)>): string {
    if names == [] then ""
    else
      var allow := AllowHeader(methods, names[..|names| - 1]);
      var (verb, name) := names[|names| - 1];
      if verb in methods then (if allow != "" then allow + ", " else allow) + name else allow
  }

  function Error(status: nat, text: string): Response {
    Response(status, text, map[])
  }

  function WithAllow(status: nat, text: string, methods: map<Verb, Handler>): Response {
    Response(status, text, map["Allow" := AllowHeader(methods, VERB_NAMES)])
  }

  function WithoutBody(r: Response): Response {
    r.(body := "", headers := r.headers["Content-Length" := "0"])
  }

  /** The message of a caught exception; an empty one is replaced. */
  function MessageOf(x: Exn): string
    requires !x.Foreign?
  {
    match x
    case DbError(what) => if what != "" then what else "Database error"
    case StdException(what) => if what != "" then what else "Unexpected error"
  }

  // Dispatch on values

  datatype Done = Done(result: Result<Response>, trace: seq<Happening>)

  function PathOf(target: string): string {
    target[..Find(target, '?', 0)]
  }

  /** The first entry from k on whose pattern the engine matches. */
  function Lookup(env: Env, table: seq<Entry>, path: string, k: nat): (r: Option<nat>)
    requires k <= |table|
    ensures r.Some? ==> k <= r.value < |table| && env.engine(table[r.value].pattern, path).Some?
    ensures forall j :: k <= j < (if r.Some? then r.value else |table|) ==> env.engine(table[j].pattern, path).None?
    decreases |table| - k
  {
    if k == |table| then None
    else if env.engine(table[k].pattern, path).Some? then Some(k)
    else Lookup(env, table, path, k + 1)
  }

  /** Submatches 1 to n; asking past the last one gives the empty string. */
  function Submatches(caps: seq<string>, n: nat): (r: seq<string>)
    ensures |r| == n
  {
    seq(n, i requires 0 <= i < n => if i < |caps| then caps[i] else "")
  }

  function Finish(ms: seq<Middleware>, r: Request, response: Response): Done {
    var (result, trace) := Hooks(ms, 0, r, response);
    Done(result, trace)
  }

  /** Refusals decided before any body is parsed: unknown method, content type, size. */
  function Refusal(env: Env, e: Entry, r: Request): (refusal: Option<Response>)
    ensures refusal.None? ==> r.verb in e.methods
  {
    if r.verb == Options && Options !in e.methods then Some(WithAllow(200, "", e.methods))
    else if r.verb !in e.methods then Some(WithAllow(405, "Method Not Allowed", e.methods))
    else
      var allowed := if r.verb in e.contentTypes then e.contentTypes[r.verb] else [];
      var hasBody := r.body != "";
      var refused := r.contentType == "" || forall t :: t in allowed ==> !Contains(r.contentType, t);
      if allowed != [] && hasBody && refused then
        Some(WithAllow(415, "Unsupported media type", e.methods))
      else if |r.body| > env.uploadLimit then Some(WithAllow(413, "Payload is too large", e.methods))
      else None
  }

  function ParsedBody(env: Env, r: Request): (Request, Result<()>) {
    if Contains(r.contentType, "application/json") then env.parseJson(r)
    else if Contains(r.contentType, "multipart/form-data") then env.parseMultipart(r)
    else (r, Ok(()))
  }

  predicate AutoHead(e: Entry, r: Request) {
    r.verb == Head && Head !in e.methods && Get in e.methods
  }

  /** A HEAD request answered by the GET handler: nothing is caught. */
  function HeadByGet(e: Entry, ms: seq<Middleware>, r: Request): Done
    requires Get in e.methods
  {
    var reply := Chain(ms, 0, e.methods[Get], r);
    match reply.result
    case Throw(_) => Done(reply.result, reply.trace)
    case Ok(response) =>
      var hooks := Finish(ms, reply.request, WithoutBody(response));
      Done(hooks.result, reply.trace + hooks.trace)
  }

  /** The handler's outcome is rendered and passed to the hooks; a standard exception from the chain or
      from a hook becomes a 500, which goes through the hooks again. */
  function RunHandler(handler: Handler, ms: seq<Middleware>, r: Request): Done {
    var reply := Chain(ms, 0, handler, r);
    var first := match reply.result
      case Throw(_) => Done(reply.result, reply.trace)
      case Ok(response) =>
        var hooks := Finish(ms, reply.request, response);
        Done(hooks.result, reply.trace + hooks.trace);
    if first.result.Ok? || first.result.exn.Foreign? then first
    else
      var again := Finish(ms, reply.request, Error(500, MessageOf(first.result.exn)));
      Done(again.result, first.trace + again.trace)
  }

  function AfterRouting(env: Env, e: Entry, ms: seq<Middleware>, r: Request): Done {
    if AutoHead(e, r) then HeadByGet(e, ms, r)
    else
      var refusal := Refusal(env, e, r);
      if refusal.Some? then Finish(ms, r, refusal.value)
      else
        var (r', parsed) := ParsedBody(env, r);
        if parsed.Throw? && parsed.exn.Foreign? then Done(Throw(Foreign), [])
        else if parsed.Throw? && parsed.exn.what != "" then Finish(ms, r', Error(400, parsed.exn.what))
        else RunHandler(e.methods[r.verb], ms, r')
  }

  function Routed(env: Env, table: seq<Entry>, k: nat, r: Request): Request
    requires k < |table| && env.engine(table[k].pattern, PathOf(r.target)).Some?
  {
    var caps := env.engine(table[k].pattern, PathOf(r.target)).value;
    r.(pathParams := Bind(table[k].paramNames, Submatches(caps, |table[k].paramNames|)))
  }

  function Dispatched(env: Env, table: seq<Entry>, globals: seq<Middleware>, scoped: seq<Scoped>, r: Request): Done {
    var path := PathOf(r.target);
    var ms := Collected(globals, scoped, path);
    var found := Lookup(env, table, path, 0);
    if found.None? then Finish(ms, r, Error(404, "Not found"))
    else AfterRouting(env, table[found.value], ms, Routed(env, table, found.value, r))
  }

  // The imperative router

  class Router {
    var table: seq<Entry>
    var globals: seq<Middleware>
    var scoped: seq<Scoped>

    constructor ()
      ensures table == [] && globals == [] && scoped == []
    {
      table, globals, scoped := [], [], [];
    }

    method Add(r: Registration)
      modifies this`table
      ensures table == Registered(old(table), r)
    {
      var k := 0;
      while k < |table| && table[k].original != r.path
        invariant k <= |table|
        invariant IndexOf(table, r.path) == k + IndexOf(table[k..], r.path)
      {
        assert table[k..][1..] == table[k + 1..];
        k := k + 1;
      }
      if k < |table| {
        table := table[k := WithMethod(table[k], r)];
        return;
      }
      var pattern, params := CompileRoute(r.path);
      table := table + [WithMethod(Entry(r.path, pattern, params, map[], map[]), r)];
    }

    method Use(m: Middleware)
      modifies this`globals
      ensures globals == old(globals) + [m]
    {
      globals := globals + [m];
    }

    method UseScoped(prefix: string, m: Middleware)
      modifies this`scoped
      ensures scoped == old(scoped) + [Scoped(prefix, m)]
    {
      scoped := scoped + [Scoped(prefix, m)];
    }

    method CollectMiddlewaresFor(path: string) returns (out: seq<Middleware>)
      ensures out == Collected(globals, scoped, path)
    {
      out := globals;
      for i := 0 to |scoped|
        invariant out == globals + InScope(scoped[..i], path)
      {
        assert scoped[..i + 1][..i] == scoped[..i];
        if scoped[i].prefix <= path {
          out := out + [scoped[i].middleware];
        }
      }
      assert scoped[..|scoped|] == scoped;
    }

    method BuildAllowHeader(methods: map<Verb, Handler>) returns (allow: string)
      ensures allow == AllowHeader(methods, VERB_NAMES)
    {
      allow := "";
      for i := 0 to |VERB_NAMES|
        invariant allow == AllowHeader(methods, VERB_NAMES[..i])
      {
        assert VERB_NAMES[..i + 1][..i] == VERB_NAMES[..i];
        var (verb, name) := VERB_NAMES[i];
        if verb in methods {
          if allow != "" {
            allow := allow + ", ";
          }
          allow := allow + name;
        }
      }
      assert VERB_NAMES[..|VERB_NAMES|] == VERB_NAMES;
    }

    method Dispatch(env: Env, request: Request) returns (result: Result<Response>, trace: seq<Happening>)
      ensures Done(result, trace) == Dispatched(env, table, globals, scoped, request)
    {
      var path := request.target[..Find(request.target, '?', 0)];
      var middlewares := CollectMiddlewaresFor(path);
      var k := 0;
      while k < |table| && env.engine(table[k].pattern, path).None?
        invariant k <= |table|
        invariant Lookup(env, table, path, 0) == Lookup(env, table, path, k)
      {
        k := k + 1;
      }
      if k == |table| {
        result, trace := RunAfter(request, Error(404, "Not found"), middlewares);
        return;
      }
      var entry := table[k];
      var caps := env.engine(entry.pattern, path).value;
      var params := BindParams(entry.paramNames, Submatches(caps, |entry.paramNames|));
      result, trace := Serve(env, entry, middlewares, request.(pathParams := params));
    }

    static method Refuse(env: Env, e: Entry, r: Request) returns (refusal: Option<Response>)
      ensures refusal == Refusal(env, e, r)
    {
      if r.verb == Options && Options !in e.methods {
        return Some(WithAllow(200, "", e.methods));
      }
      if r.verb !in e.methods {
        return Some(WithAllow(405, "Method Not Allowed", e.methods));
      }
      var allowed := [];
      if r.verb in e.contentTypes {
        allowed := e.contentTypes[r.verb];
      }
      var hasBody := r.body != "";
      if allowed != [] && r.contentType == "" && hasBody {
        return Some(WithAllow(415, "Unsupported media type", e.methods));
      }
      if allowed != [] && hasBody {
        var ok, i := false, 0;
        while i < |allowed| && !ok
          invariant 0 <= i <= |allowed|
          invariant ok <==> exists t :: t in allowed[..i] && Contains(r.contentType, t)
        {
          ok := Contains(r.contentType, allowed[i]);
          assert allowed[..i + 1] == allowed[..i] + [allowed[i]];
          i := i + 1;
        }
        assert !ok ==> allowed[..i] == allowed;
        if !ok {
          return Some(WithAllow(415, "Unsupported media type", e.methods));
        }
        assert exists t :: t in allowed && Contains(r.contentType, t);
      }
      if |r.body| > env.uploadLimit {
        return Some(WithAllow(413, "Payload is too large", e.methods));
      }
      return None;
    }

    static method Serve(env: Env, e: Entry, ms: seq<Middleware>, r: Request)
      returns (result: Result<Response>, trace: seq<Happening>)
      ensures Done(result, trace) == AfterRouting(env, e, ms, r)
    {
      var request := r;
      if r.verb == Head && Head !in e.methods && Get in e.methods {
        var reply := RunChain(request, e.methods[Get], ms);
        if reply.result.Throw? {
          return reply.result, reply.trace;
        }
        result, trace := RunAfter(reply.request, WithoutBody(reply.result.value), ms);
        trace := reply.trace + trace;
        return;
      }
      var refusal := Refuse(env, e, request);
      if refusal.Some? {
        result, trace := RunAfter(request, refusal.value, ms);
        return;
      }
      var (parsedRequest, parsed) := ParsedBody(env, request);
      request := parsedRequest;
      if parsed.Throw? {
        if parsed.exn.Foreign? {
          return Throw(Foreign), [];
        }
        if parsed.exn.what != "" {
          result, trace := RunAfter(request, Error(400, parsed.exn.what), ms);
          return;
        }
      }
      var reply := RunChain(request, e.methods[r.verb], ms);
      result, trace := reply.result, reply.trace;
      if reply.result.Ok? {
        var hooks;
        result, hooks := RunAfter(reply.request, reply.result.value, ms);
        trace := trace + hooks;
      }
      if result.Throw? && !result.exn.Foreign? {
        var hooks;
        result, hooks := RunAfter(reply.request, Error(500, MessageOf(result.exn)), ms);
        trace := trace + hooks;
      }
    }
  }
}
