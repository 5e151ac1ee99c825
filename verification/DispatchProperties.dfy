/** What dispatch promises for any router and any request: which route and handler are chosen, and in
    what order middlewares, handler and hooks run. */
module DispatchProperties {
  import opened Options
  import opened Chains
  import opened Regexes
  import opened Routes
  import opened RouteMatching
  import opened Dispatching

  // Registration: first come fixes the order, last come fixes the handler

  function LastHandler(log: seq<Registration>, path: string, verb: Verb): Option<Handler> {
    if log == [] then None
    else
      var last := log[|log| - 1];
      if last.path == path && last.verb == verb then Some(last.handler)
      else LastHandler(log[..|log| - 1], path, verb)
  }

  function LastContentTypes(log: seq<Registration>, path: string, verb: Verb): Option<seq<string>> {
    if log == [] then None
    else
      var last := log[|log| - 1];
      if last.path == path && last.verb == verb then Some(last.contentTypes)
      else LastContentTypes(log[..|log| - 1], path, verb)
  }

  function FirstPaths(log: seq<Registration>): seq<string> {
    if log == [] then []
    else
      var before := FirstPaths(log[..|log| - 1]);
      var path := log[|log| - 1].path;
      if path in before then before else before + [path]
  }

  function HandlerIn(table: seq<Entry>, path: string, verb: Verb): Option<Handler> {
    var k := IndexOf(table, path);
    if k < |table| && verb in table[k].methods then Some(table[k].methods[verb]) else None
  }

  function ContentTypesIn(table: seq<Entry>, path: string, verb: Verb): Option<seq<string>> {
    var k := IndexOf(table, path);
    if k < |table| && verb in table[k].contentTypes then Some(table[k].contentTypes[verb]) else None
  }

  ghost predicate Compiled(table: seq<Entry>) {
    forall k :: 0 <= k < |table| ==>
      table[k].pattern == PatternText(Template(table[k].original))
          && table[k].paramNames == Names(Template(table[k].original))
  }

  lemma {:induction false} IndexIsFirst(table: seq<Entry>, path: string, k: nat)
    requires k <= |table|
    requires forall j :: 0 <= j < k ==> table[j].original != path
    requires k < |table| ==> table[k].original == path
    ensures IndexOf(table, path) == k
  {
    if k > 0 {
      IndexIsFirst(table[1..], path, k - 1);
    }
  }

  lemma RegisteredHandler(table: seq<Entry>, r: Registration, path: string, verb: Verb)
    ensures HandlerIn(Registered(table, r), path, verb)
            == if path == r.path && verb == r.verb then Some(r.handler) else HandlerIn(table, path, verb)
    ensures ContentTypesIn(Registered(table, r), path, verb)
            == if path == r.path && verb == r.verb then Some(r.contentTypes) else ContentTypesIn(table, path, verb)
  {
    var t := Registered(table, r);
    RegisteredIndex(table, r, path);
    var i := IndexOf(table, path);
    if path != r.path && i < |table| {
      assert t[i].methods == table[i].methods && t[i].contentTypes == table[i].contentTypes;
    }
  }

  lemma RegisteredIndex(table: seq<Entry>, r: Registration, path: string)
    ensures var t := Registered(table, r);
            IndexOf(t, path) == if path == r.path || IndexOf(table, path) < |table| then IndexOf(table, path) else |t|
  {
    var k, t := IndexOf(table, r.path), Registered(table, r);
    var i := IndexOf(table, path);
    if path == r.path {
      IndexIsFirst(t, path, k);
    } else if i < |table| {
      IndexIsFirst(t, path, i);
    } else {
      IndexIsFirst(t, path, |t|);
    }
  }

  /** The table lists the templates of the log, each compiled. */
  ghost predicate Lists(table: seq<Entry>, paths: seq<string>) {
    |table| == |paths| && Compiled(table) && forall k :: 0 <= k < |table| ==> table[k].original == paths[k]
  }

  lemma RegisteredLists(table: seq<Entry>, r: Registration, paths: seq<string>)
    requires Lists(table, paths)
    ensures Lists(Registered(table, r), if r.path in paths then paths else paths + [r.path])
  {
    var k := IndexOf(table, r.path);
    if k < |table| {
      assert paths[k] == r.path;
    }
  }

  /** After any registrations the table lists the templates once each in the order they first appeared,
      each compiled, and holds for every template and method the handler and the allowed content types
      registered last. */
  lemma {:induction false} TableKeepsRegistrations(log: seq<Registration>, path: string, verb: Verb)
    ensures Lists(Table(log), FirstPaths(log))
    ensures HandlerIn(Table(log), path, verb) == LastHandler(log, path, verb)
    ensures ContentTypesIn(Table(log), path, verb) == LastContentTypes(log, path, verb)
  {
    if log != [] {
      var before, last := log[..|log| - 1], log[|log| - 1];
      TableKeepsRegistrations(before, path, verb);
      RegisteredHandler(Table(before), last, path, verb);
      RegisteredLists(Table(before), last, FirstPaths(before));
    }
  }

  // Route choice

  /** The engine finds a match with its captures exactly when there is one. */
  ghost predicate SoundEngine(engine: (string, string) -> Option<seq<string>>) {
    forall pattern, s ::
      && (engine(pattern, s).Some? ==> Matches(pattern, s, engine(pattern, s).value))
      && (engine(pattern, s).None? ==> forall caps :: !Matches(pattern, s, caps))
  }

  /** There is such an engine. */
  lemma SoundEngineExists()
    ensures exists engine :: SoundEngine(engine)
  {
    var engine := (pattern: string, s: string) => AnyMatch(pattern, s);
    assert SoundEngine(engine);
  }

  ghost function AnyMatch(pattern: string, s: string): (found: Option<seq<string>>)
    ensures if found.Some? then Matches(pattern, s, found.value) else forall caps :: !Matches(pattern, s, caps)
  {
    if exists caps :: Matches(pattern, s, caps) then
      var caps :| Matches(pattern, s, caps);
      Some(caps)
    else None
  }

  ghost predicate Fitting(e: Entry, path: string) {
    exists pieces, caps :: FitsPath(Template(e.original), pieces, path, caps)
  }

  lemma EngineFindsFits(env: Env, e: Entry, path: string)
    requires SoundEngine(env.engine) && e.pattern == PatternText(Template(e.original))
    ensures env.engine(e.pattern, path).Some? <==> Fitting(e, path)
    ensures env.engine(e.pattern, path).Some? ==>
              var caps := env.engine(e.pattern, path).value;
              |caps| == |Names(Template(e.original))|
              && exists pieces :: FitsPath(Template(e.original), pieces, path, caps)
  {
    var found := env.engine(e.pattern, path);
    if found.Some? {
      PatternMeansSegments(e.original, path, found.value);
      CapturesAreUnique(e.original, path, found.value, found.value);
    } else if pieces, caps :| FitsPath(Template(e.original), pieces, path, caps) {
      PatternMeansSegments(e.original, path, caps);
    }
  }

  /** A compiled entry that the engine matches yields the pieces of the path as its submatches. */
  lemma SubmatchesArePieces(env: Env, e: Entry, path: string) returns (pieces: seq<string>)
    requires SoundEngine(env.engine) && env.engine(e.pattern, path).Some?
    requires e.pattern == PatternText(Template(e.original)) && e.paramNames == Names(Template(e.original))
    ensures var segs := Template(e.original);
            && |pieces| == |segs| && FitsPath(segs, pieces, path, Captured(segs, pieces))
            && |Names(segs)| == |Captured(segs, pieces)|
            && Submatches(env.engine(e.pattern, path).value, |e.paramNames|) == Captured(segs, pieces)
  {
    EngineFindsFits(env, e, path);
    var caps := env.engine(e.pattern, path).value;
    pieces :| FitsPath(Template(e.original), pieces, path, caps);
    assert Submatches(caps, |e.paramNames|) == caps;
  }

  /** The chosen route is the first registered template that the path fits, segment by segment, and the
      request's parameters are its pieces; no route is chosen when none fits. */
  lemma FirstFittingRoute(env: Env, log: seq<Registration>, r: Request)
    requires SoundEngine(env.engine)
    ensures var table := Table(log);
            var path := PathOf(r.target);
            match Lookup(env, table, path, 0)
            case None => forall k :: 0 <= k < |table| ==> !Fitting(table[k], path)
            case Some(k) =>
              && (forall j :: 0 <= j < k ==> !Fitting(table[j], path))
              && exists pieces ::
                var segs := Template(table[k].original);
                && |pieces| == |segs| && |Names(segs)| == |Captured(segs, pieces)|
                && FitsPath(segs, pieces, path, Captured(segs, pieces))
                && Routed(env, table, k, r) == r.(pathParams := Bind(Names(segs), Captured(segs, pieces)))
  {
    var table, path := Table(log), PathOf(r.target);
    TableKeepsRegistrations(log, "", Get);
    forall k | 0 <= k < |table|
      ensures env.engine(table[k].pattern, path).Some? <==> Fitting(table[k], path)
    {
      EngineFindsFits(env, table[k], path);
    }
    var found := Lookup(env, table, path, 0);
    if found.Some? {
      var pieces := SubmatchesArePieces(env, table[found.value], path);
    }
  }

  // Order of middlewares, handler and hooks

  /** A dispatch trace: perhaps a chain, then a pass over the hooks cut short by a hook that threw
      (k of them ran), then the last pass (n of them ran). */
  ghost predicate Shape(trace: seq<Happening>, ms: seq<Middleware>, chain: seq<Happening>, k: nat, n: nat) {
    && (chain == [] || ChainTrace(chain, |ms|))
    && k <= |ms| && n <= |ms|
    && trace == chain + HooksRun(k) + HooksRun(n)
  }

  ghost predicate HooksNeverThrow(ms: seq<Middleware>) {
    forall i, r, response :: 0 <= i < |ms| ==> ms[i].after(r, response).Ok?
  }

  lemma {:induction false} QuietHooks(ms: seq<Middleware>, i: nat, r: Request, response: Response)
    requires i <= |ms| && HooksNeverThrow(ms)
    ensures Hooks(ms, i, r, response).0.Ok?
    decreases |ms| - i
  {
    if i < |ms| {
      QuietHooks(ms, i + 1, r, ms[i].after(r, response).value);
    }
  }

  lemma FinishShape(ms: seq<Middleware>, r: Request, response: Response) returns (n: nat)
    ensures n <= |ms| && Finish(ms, r, response).trace == HooksRun(n)
    ensures Finish(ms, r, response).result.Ok? ==> n == |ms|
    ensures HooksNeverThrow(ms) ==> Finish(ms, r, response).result.Ok?
  {
    HooksInOrder(ms, r, response);
    var (result, trace) := Hooks(ms, 0, r, response);
    if result.Ok? {
      n := |ms|;
    } else {
      n :| 0 < n <= |ms| && trace == HooksRun(n);
    }
    if HooksNeverThrow(ms) {
      QuietHooks(ms, 0, r, response);
    }
  }

  lemma RunHandlerShape(handler: Handler, ms: seq<Middleware>, r: Request)
    returns (chain: seq<Happening>, k: nat, n: nat)
    ensures var d := RunHandler(handler, ms, r);
            && Shape(d.trace, ms, chain, k, n)
            && (d.result.Ok? ==> n == |ms|) && (HooksNeverThrow(ms) ==> k == 0)
  {
    var reply := Chain(ms, 0, handler, r);
    HandlerAfterAllMiddlewares(ms, handler, r);
    chain, k, n := reply.trace, 0, 0;
    var first := Done(reply.result, reply.trace);
    if reply.result.Ok? {
      n := FinishShape(ms, reply.request, reply.result.value);
      var hooks := Finish(ms, reply.request, reply.result.value);
      first := Done(hooks.result, reply.trace + hooks.trace);
    }
    assert chain + HooksRun(0) == chain;
    assert first.trace == chain + HooksRun(0) + HooksRun(n);
    if first.result.Throw? && !first.result.exn.Foreign? {
      k := n;
      n := FinishShape(ms, reply.request, Error(500, MessageOf(first.result.exn)));
      assert first.trace == chain + HooksRun(k);
    }
  }

  lemma HeadShape(e: Entry, ms: seq<Middleware>, r: Request) returns (chain: seq<Happening>, n: nat)
    requires Get in e.methods
    ensures var d := HeadByGet(e, ms, r);
            Shape(d.trace, ms, chain, 0, n) && (d.result.Ok? ==> n == |ms|)
  {
    var reply := Chain(ms, 0, e.methods[Get], r);
    HandlerAfterAllMiddlewares(ms, e.methods[Get], r);
    chain, n := reply.trace, 0;
    assert chain + HooksRun(0) == chain;
    if reply.result.Ok? {
      n := FinishShape(ms, reply.request, WithoutBody(reply.result.value));
    }
  }

  lemma DispatchShape(env: Env, table: seq<Entry>, globals: seq<Middleware>, scoped: seq<Scoped>, r: Request)
    returns (chain: seq<Happening>, k: nat, n: nat)
    ensures var d := Dispatched(env, table, globals, scoped, r);
            var ms := Collected(globals, scoped, PathOf(r.target));
            && Shape(d.trace, ms, chain, k, n)
            && (d.result.Ok? ==> n == |ms|) && (HooksNeverThrow(ms) ==> k == 0)
  {
    var ms := Collected(globals, scoped, PathOf(r.target));
    var found := Lookup(env, table, PathOf(r.target), 0);
    chain, k, n := [], 0, 0;
    if found.None? {
      n := FinishShape(ms, r, Error(404, "Not found"));
      NoChain(n);
    } else {
      chain, k, n := AfterRoutingShape(env, table[found.value], ms, Routed(env, table, found.value, r));
    }
  }

  lemma NoChain(n: nat)
    ensures HooksRun(n) == [] + HooksRun(0) + HooksRun(n)
  {
  }

  lemma AfterRoutingShape(env: Env, e: Entry, ms: seq<Middleware>, r: Request)
    returns (chain: seq<Happening>, k: nat, n: nat)
    ensures var d := AfterRouting(env, e, ms, r);
            && Shape(d.trace, ms, chain, k, n)
            && (d.result.Ok? ==> n == |ms|) && (HooksNeverThrow(ms) ==> k == 0)
  {
    chain, k, n := [], 0, 0;
    if AutoHead(e, r) {
      chain, n := HeadShape(e, ms, r);
    } else if Refusal(env, e, r).Some? {
      n := FinishShape(ms, r, Refusal(env, e, r).value);
      NoChain(n);
    } else {
      var (r', parsed) := ParsedBody(env, r);
      if parsed.Throw? && parsed.exn.Foreign? {
        NoChain(0);
      } else if parsed.Throw? && parsed.exn.what != "" {
        n := FinishShape(ms, r', Error(400, parsed.exn.what));
        NoChain(n);
      } else {
        chain, k, n := RunHandlerShape(e.methods[r.verb], ms, r');
      }
    }
  }

  lemma {:induction false} HooksAreHooked(n: nat)
    ensures forall q :: 0 <= q < |HooksRun(n)| ==> HooksRun(n)[q].Hooked?
  {
    if n > 0 {
      HooksAreHooked(n - 1);
    }
  }

  lemma {:induction false} HooksOnly(n: nat)
    ensures forall h :: h in HooksRun(n) ==> h.Hooked? && h.i < n
    ensures forall i: nat :: i < n ==> multiset(HooksRun(n))[Hooked(i)] == 1
  {
    if n > 0 {
      HooksOnly(n - 1);
      forall i: nat | i < n
        ensures multiset(HooksRun(n))[Hooked(i)] == 1
      {
        assert multiset(HooksRun(n)) == multiset(HooksRun(n - 1)) + multiset{Hooked(n - 1)};
      }
    }
  }

  /** For any router and any request: whenever the handler runs, everything before is exactly every
      collected middleware, in order, entered and calling `next`; so it runs at most once. */
  lemma MiddlewaresGuardHandler(env: Env, table: seq<Entry>, globals: seq<Middleware>, scoped: seq<Scoped>, r: Request)
    ensures var trace := Dispatched(env, table, globals, scoped, r).trace;
            var ms := Collected(globals, scoped, PathOf(r.target));
            && (forall p :: 0 <= p < |trace| && trace[p] == Handled ==> trace[..p] == Passed(|ms|))
            && (forall p, q :: 0 <= p < q < |trace| ==> trace[p] != Handled || trace[q] != Handled)
  {
    var ms := Collected(globals, scoped, PathOf(r.target));
    var trace := Dispatched(env, table, globals, scoped, r).trace;
    var chain, k, n := DispatchShape(env, table, globals, scoped, r);
    forall p | 0 <= p < |trace| && trace[p] == Handled
      ensures trace[..p] == Passed(|ms|) && p == |Passed(|ms|)|
    {
      GuardedByShape(trace, ms, chain, k, n, p);
    }
  }

  lemma ChainGuards(chain: seq<Happening>, n: nat)
    requires chain == [] || ChainTrace(chain, n)
    ensures Handled in chain ==> chain == Passed(n) + [Handled]
    ensures forall i :: Hooked(i) !in chain
  {
    PassedHasNoHandler(n);
    if j: nat :| j < n && chain == Passed(j) + [Entered(j)] {
      PassedHasNoHandler(j);
    }
  }

  lemma HandledIsLast(chain: seq<Happening>, n: nat, p: nat)
    requires chain == [] || ChainTrace(chain, n)
    requires p < |chain| && chain[p] == Handled
    ensures chain[..p] == Passed(n)
  {
    ChainGuards(chain, n);
    PassedHasNoHandler(n);
    assert chain[p] in chain;
  }

  lemma HandledInChain(chain: seq<Happening>, hooks: seq<Happening>, p: nat)
    requires forall q :: 0 <= q < |hooks| ==> hooks[q].Hooked?
    requires p < |chain + hooks| && (chain + hooks)[p] == Handled
    ensures p < |chain| && chain[p] == Handled && (chain + hooks)[..p] == chain[..p]
  {
    assert forall q :: |chain| <= q < |chain + hooks| ==> (chain + hooks)[q] == hooks[q - |chain|];
  }

  lemma GuardedByShape(trace: seq<Happening>, ms: seq<Middleware>, chain: seq<Happening>, k: nat, n: nat, p: nat)
    requires Shape(trace, ms, chain, k, n)
    requires p < |trace| && trace[p] == Handled
    ensures trace[..p] == Passed(|ms|)
  {
    HooksAreHooked(k);
    HooksAreHooked(n);
    TraceSplits(chain, HooksRun(k), HooksRun(n));
    HandledInChain(chain, HooksRun(k) + HooksRun(n), p);
    HandledIsLast(chain, |ms|, p);
  }

  lemma TraceSplits(a: seq<Happening>, b: seq<Happening>, c: seq<Happening>)
    ensures (a + b) + c == a + (b + c)
  {
  }

  /** On a normal return the trace ends with a full pass over the hooks, in middleware order; when no
      hook throws it is the only one, so each hook runs exactly once. */
  lemma HooksRunOnce(env: Env, table: seq<Entry>, globals: seq<Middleware>, scoped: seq<Scoped>, r: Request)
    returns (chain: seq<Happening>, k: nat)
    requires Dispatched(env, table, globals, scoped, r).result.Ok?
    ensures var trace := Dispatched(env, table, globals, scoped, r).trace;
            var ms := Collected(globals, scoped, PathOf(r.target));
            && trace == chain + HooksRun(k) + HooksRun(|ms|)
            && (forall i :: Hooked(i) !in chain)
            && (HooksNeverThrow(ms) ==> k == 0 && forall i: nat :: i < |ms| ==> multiset(trace)[Hooked(i)] == 1)
  {
    var ms := Collected(globals, scoped, PathOf(r.target));
    var n;
    chain, k, n := DispatchShape(env, table, globals, scoped, r);
    ChainGuards(chain, |ms|);
    if HooksNeverThrow(ms) {
      OnePass(chain, |ms|);
    }
  }

  lemma OnePass(chain: seq<Happening>, n: nat)
    requires forall i :: Hooked(i) !in chain
    ensures forall i: nat :: i < n ==> multiset(chain + HooksRun(0) + HooksRun(n))[Hooked(i)] == 1
  {
    HooksOnly(n);
    assert chain + HooksRun(0) + HooksRun(n) == chain + HooksRun(n);
    assert multiset(chain + HooksRun(n)) == multiset(chain) + multiset(HooksRun(n));
  }

  // Exactly when hooks run twice

  /** The response that reaches hook k, if no hook before it throws. */
  function ReachesHook(ms: seq<Middleware>, r: Request, response: Response, k: nat): Option<Response>
    requires k <= |ms|
  {
    if k == 0 then Some(response)
    else
      var before := ReachesHook(ms, r, response, k - 1);
      if before.None? then None
      else
        match ms[k - 1].after(r, before.value)
        case Ok(next) => Some(next)
        case Throw(_) => None
  }

  predicate ThrowsAt(ms: seq<Middleware>, r: Request, response: Response, k: nat) {
    k < |ms| && ReachesHook(ms, r, response, k).Some? && ms[k].after(r, ReachesHook(ms, r, response, k).value).Throw?
  }

  lemma {:induction false} LastHookThrows(ms: seq<Middleware>, i: nat, r: Request, response: Response,
          current: Response)
    requires i <= |ms| && ReachesHook(ms, r, response, i) == Some(current) && Hooks(ms, i, r, current).0.Throw?
    ensures var n := |Hooks(ms, i, r, current).1|;
            n >= 1 && ThrowsAt(ms, r, response, i + n - 1)
    decreases |ms| - i
  {
    var one := ms[i].after(r, current);
    if one.Ok? {
      LastHookThrows(ms, i + 1, r, response, one.value);
    }
  }

  /** How many hooks a first pass over the handler's response runs that ends in a hook's exception. */
  function CutPass(handler: Handler, ms: seq<Middleware>, r: Request): nat {
    var reply := Chain(ms, 0, handler, r);
    if reply.result.Throw? then 0
    else
      var (result, trace) := Hooks(ms, 0, reply.request, reply.result.value);
      if result.Ok? then 0 else |trace|
  }

  function CutPassOfEntry(env: Env, e: Entry, ms: seq<Middleware>, r: Request): nat {
    if AutoHead(e, r) || Refusal(env, e, r).Some? then 0
    else
      var (r', parsed) := ParsedBody(env, r);
      if parsed.Throw? && (parsed.exn.Foreign? || parsed.exn.what != "") then 0 else CutPass(e.methods[r.verb], ms, r')
  }

  function CutPassOfDispatch(env: Env, table: seq<Entry>, globals: seq<Middleware>, scoped: seq<Scoped>,
          r: Request): nat {
    var path := PathOf(r.target);
    var found := Lookup(env, table, path, 0);
    if found.None? then 0
    else CutPassOfEntry(env, table[found.value], Collected(globals, scoped, path), Routed(env, table, found.value, r))
  }

  lemma {:induction false} HooksRunLength(n: nat)
    ensures |HooksRun(n)| == n
  {
    if n > 0 {
      HooksRunLength(n - 1);
    }
  }

  lemma CutPassRuns(handler: Handler, ms: seq<Middleware>, r: Request)
    ensures var reply, k := Chain(ms, 0, handler, r), CutPass(handler, ms, r);
            && k <= |ms|
            && (k > 0 <==> reply.result.Ok? && Hooks(ms, 0, reply.request, reply.result.value).0.Throw?)
            && (k > 0 ==> Hooks(ms, 0, reply.request, reply.result.value).1 == HooksRun(k)
                          && ThrowsAt(ms, reply.request, reply.result.value, k - 1))
  {
    var reply := Chain(ms, 0, handler, r);
    if reply.result.Ok? {
      var response := reply.result.value;
      HooksInOrder(ms, reply.request, response);
      var (result, trace) := Hooks(ms, 0, reply.request, response);
      if result.Throw? {
        var k: nat :| 0 < k <= |ms| && trace == HooksRun(k);
        HooksRunLength(k);
        LastHookThrows(ms, 0, reply.request, response, response);
      }
    }
  }

  /** The whole trace of a handler's run that returns normally. */
  lemma HandlerTrace(handler: Handler, ms: seq<Middleware>, r: Request)
    requires RunHandler(handler, ms, r).result.Ok?
    ensures RunHandler(handler, ms, r).trace
            == Chain(ms, 0, handler, r).trace + HooksRun(CutPass(handler, ms, r)) + HooksRun(|ms|)
  {
    var reply := Chain(ms, 0, handler, r);
    CutPassRuns(handler, ms, r);
    assert reply.trace + HooksRun(0) == reply.trace;
    if reply.result.Throw? {
      HooksInOrder(ms, reply.request, Error(500, MessageOf(reply.result.exn)));
    } else {
      HooksInOrder(ms, reply.request, reply.result.value);
      var (result, trace) := Hooks(ms, 0, reply.request, reply.result.value);
      if result.Throw? {
        HooksInOrder(ms, reply.request, Error(500, MessageOf(result.exn)));
      }
    }
  }

  lemma TwoPasses(chain: seq<Happening>, k: nat, n: nat)
    requires (forall i :: Hooked(i) !in chain) && k <= n
    ensures forall i: nat :: i < n ==> multiset(chain + HooksRun(k) + HooksRun(n))[Hooked(i)] == if i < k then 2 else 1
  {
    HooksOnly(k);
    HooksOnly(n);
    forall i: nat | i < n
      ensures multiset(chain + HooksRun(k) + HooksRun(n))[Hooked(i)] == if i < k then 2 else 1
    {
      assert multiset(chain + HooksRun(k) + HooksRun(n))
          == multiset(chain) + multiset(HooksRun(k)) + multiset(HooksRun(n));
      assert Hooked(i) !in chain;
      assert i >= k ==> Hooked(i) !in HooksRun(k);
    }
  }

  /** How often hooks run when the handler's route returns normally: twice up to the hook that threw on
      the handler's response, and once otherwise; so all run once iff none threw there. */
  lemma HandlerHooksIff(handler: Handler, ms: seq<Middleware>, r: Request)
    requires RunHandler(handler, ms, r).result.Ok?
    ensures var trace := RunHandler(handler, ms, r).trace;
            var reply := Chain(ms, 0, handler, r);
            && (forall i: nat :: i < |ms| ==>
                  multiset(trace)[Hooked(i)] == if i < CutPass(handler, ms, r) then 2 else 1)
            && ((forall i: nat :: i < |ms| ==> multiset(trace)[Hooked(i)] == 1)
                <==> !(reply.result.Ok? && Hooks(ms, 0, reply.request, reply.result.value).0.Throw?))
  {
    var k := CutPass(handler, ms, r);
    var trace := RunHandler(handler, ms, r).trace;
    HandlerTrace(handler, ms, r);
    CutPassRuns(handler, ms, r);
    HandlerAfterAllMiddlewares(ms, handler, r);
    ChainGuards(Chain(ms, 0, handler, r).trace, |ms|);
    TwoPasses(Chain(ms, 0, handler, r).trace, k, |ms|);
    assert k > 0 ==> multiset(trace)[Hooked(0)] == 2;
  }

  /** The same of any dispatch that returns normally: hook i runs twice when it lies in a cut pass, else
      once; so every hook runs exactly once iff no hook threw on the handler's response. */
  lemma DispatchHooksIff(env: Env, table: seq<Entry>, globals: seq<Middleware>, scoped: seq<Scoped>, r: Request)
    requires Dispatched(env, table, globals, scoped, r).result.Ok?
    ensures var trace := Dispatched(env, table, globals, scoped, r).trace;
            var ms := Collected(globals, scoped, PathOf(r.target));
            var k := CutPassOfDispatch(env, table, globals, scoped, r);
            && k <= |ms|
            && (forall i: nat :: i < |ms| ==> multiset(trace)[Hooked(i)] == if i < k then 2 else 1)
            && ((forall i: nat :: i < |ms| ==> multiset(trace)[Hooked(i)] == 1) <==> k == 0)
  {
    var ms := Collected(globals, scoped, PathOf(r.target));
    var found := Lookup(env, table, PathOf(r.target), 0);
    if found.None? {
      PassCounts(ms, r, Error(404, "Not found"));
    } else {
      EntryHooks(env, table[found.value], ms, Routed(env, table, found.value, r));
    }
    var trace := Dispatched(env, table, globals, scoped, r).trace;
    var k := CutPassOfDispatch(env, table, globals, scoped, r);
    assert k > 0 ==> multiset(trace)[Hooked(0)] == 2;
  }

  lemma PassCounts(ms: seq<Middleware>, r: Request, response: Response)
    requires Finish(ms, r, response).result.Ok?
    ensures forall i: nat :: i < |ms| ==> multiset(Finish(ms, r, response).trace)[Hooked(i)] == 1
  {
    HooksInOrder(ms, r, response);
    HooksOnly(|ms|);
  }

  lemma EntryHooks(env: Env, e: Entry, ms: seq<Middleware>, r: Request)
    requires AfterRouting(env, e, ms, r).result.Ok?
    ensures var trace, k := AfterRouting(env, e, ms, r).trace, CutPassOfEntry(env, e, ms, r);
            k <= |ms| && forall i: nat :: i < |ms| ==> multiset(trace)[Hooked(i)] == if i < k then 2 else 1
  {
    if AutoHead(e, r) {
      HeadHooks(e, ms, r);
    } else if Refusal(env, e, r).Some? {
      PassCounts(ms, r, Refusal(env, e, r).value);
    } else {
      var (r', parsed) := ParsedBody(env, r);
      if parsed.Throw? && parsed.exn.what != "" {
        PassCounts(ms, r', Error(400, parsed.exn.what));
      } else {
        HandlerHooksIff(e.methods[r.verb], ms, r');
        CutPassRuns(e.methods[r.verb], ms, r');
      }
    }
  }

  lemma HeadHooks(e: Entry, ms: seq<Middleware>, r: Request)
    requires Get in e.methods && HeadByGet(e, ms, r).result.Ok?
    ensures forall i: nat :: i < |ms| ==> multiset(HeadByGet(e, ms, r).trace)[Hooked(i)] == 1
  {
    var reply := Chain(ms, 0, e.methods[Get], r);
    HandlerAfterAllMiddlewares(ms, e.methods[Get], r);
    ChainGuards(reply.trace, |ms|);
    HooksInOrder(ms, reply.request, WithoutBody(reply.result.value));
    OnePass(reply.trace, |ms|);
    assert reply.trace + HooksRun(0) == reply.trace;
  }

  /** A witness: a hook that throws on a normal response and accepts the 500 runs twice, and the dispatch
      still returns normally. */
  lemma ThrowingHookRunsTwice(handler: Handler, r: Request, ok: Response)
    requires handler(r) == (r, Ok(ok)) && ok.status != 500
    ensures var m := Middleware(q => Forward(q), (q, result) => (q, result),
                                (q, response: Response) =>
                                  if response.status == 500 then Ok(response) else Throw(StdException("")));
            RunHandler(handler, [m], r)
            == Done(Ok(Error(500, "Unexpected error")), [Entered(0), Forwarded(0), Handled, Hooked(0), Hooked(0)])
  {
    var m := Middleware(q => Forward(q), (q, result) => (q, result),
                        (q, response: Response) =>
                          if response.status == 500 then Ok(response) else Throw(StdException("")));
    var ms := [m];
    assert Chain(ms, 1, handler, r) == Reply(r, Ok(ok), [Handled]);
    assert Chain(ms, 0, handler, r) == Reply(r, Ok(ok), [Entered(0), Forwarded(0)] + [Handled]);
    assert Hooks(ms, 0, r, ok) == (Throw(StdException("")), [Hooked(0)]);
    var five := Error(500, "Unexpected error");
    assert Hooks(ms, 1, r, five) == (Ok(five), []);
    assert Hooks(ms, 0, r, five) == (Ok(five), [Hooked(0)] + []);
  }
}
