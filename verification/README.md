# Verification of the Beast API server core

This project models the parts of the server that carry real protocols or real algorithms and proves
what they keep:

- the PostgreSQL **connection pool** with its **circuit breaker**, as a machine whose events are the
  pieces of code between two awaits (one thread runs the event loop), proved over every run;
- **`async_offload`**, a handler raced for by a blocking task and any number of cancellations, as steps of
  two threads in any interleaving, with the relaxed flag free to be read stale;
- the **router**: `compileRoute` as a compiler from templates to regular-expression text, whose meaning is
  shown to be segment-wise matching, and `dispatch` with its middleware chain and hooks;
- the **query pipeline**: filter parsing, the SQL builder, and the users repository, down to what the
  rendered SQL means when it is read back and run on a table;
- the **prepared-statement cache**, the **header-parameter parser** and the **timestamp conversion**.

Code that changes fields step by step is written as classes and loops whose contracts tie the new state to
a function of the old one (`View() == Step(old(View()), …)`, `View() == After(old(View()), …)`); the theorems
are lemmas about these functions over all logs, runs, tables or texts.

`dafny verify dfyconfig.toml` checks the whole project.

| file | part |
|---|---|
| `CircuitBreaker.dfy` | the breaker and the laws of its logs |
| `Pool.dfy`, `PoolProperties.dfy`, `PoolRuns.dfy`, `PoolBreaker.dfy` | the pool: machine and class; invariants; capacity and queueing; the breaker inside the pool and the ledger of leases |
| `PoolQuery.dfy` | `query` with its exceptions, and how its ways out are events of the pool |
| `PoolLiveness.dfy` | exactly when the pool never admits, never leases or never serves again, and runs into such states |
| `Offload.dfy` | `async_offload` |
| `Regex.dfy`, `Routes.dfy`, `RouteMatching.dfy` | regular expressions; the route compiler; what compiled routes match |
| `Chain.dfy`, `Dispatch.dfy`, `DispatchProperties.dfy`, `DispatchAnswers.dfy` | middleware chain and hooks; the router; its theorems on order and counts; what it answers, in terms of the request and the registrations |
| `Texts.dfy`, `Streams.dfy`, `Decimals.dfy`, `Options.dfy` | searching and trimming, `getline`, decimal numerals, optional values |
| `Filters.dfy` | `parseIds`, `parseStrings` |
| `SqlBuilder.dfy`, `SqlText.dfy` | the builder and its placeholders; SQL text and its reader |
| `PgArrays.dfy`, `ArrayLiterals.dfy`, `ArrayNames.dfy` | how the server reads array constants; what it makes of lists of strings; which lists survive |
| `Users.dfy`, `UserQueries.dfy`, `UserTheorems.dfy`, `UserRows.dfy` | the repository; the meaning of its statements; its theorems; from result rows to users |
| `Connection.dfy` | connection, prepared statements, result draining |
| `HeaderParams.dfy` | Content-Disposition parameters |
| `Timestamps.dfy` | `parse_pg_timestamp`, `to_iso_string` |

## Where the code does not do what one would expect

Each of these follows the code and is a theorem, with its exact condition or a witness:

- The pool can exceed its size: with at most k connects in flight by k - 1 (`OvershootIsBounded`), and this is
  reached for every size and k (`OvershootIsReached`).
- Every query that ends in an exception has closed its connection, so its release drops it and wakes nobody
  (`FailedQueryWakesNobody`). Clients that wait are stranded until somebody else acquires exactly when nothing
  connects, is handed over or leased, and no open connection is queued for release (`StrandedIff`); DbErrors
  alone lead there from the empty pool of any size (`StrandingIsReached`).
- A failed BEGIN drops its lease without release, and `size` of them starve the pool (`FailedBeginsStarve`). No
  client ever gets a lease again before shutdown exactly when the pool is starved, or locked with nothing on
  its way to a waiter (`NoMoreLeasesIff`).
- A healthy connection goes to the channel's buffer, where it is not reused until the pool is full
  (`GrowsBeforeReuse`).
- Shutdown closes the idle connections, but those the channel holds stay open until the pool is destroyed
  (`ShutdownDrains`).
- A half-open probe that reuses a connection and ends in a `DbError` can lock the pool for ever
  (`DbErrorLocksIff`, `DbErrorOfLastProbeLocks`, `LockIsReached`); so does a transaction as the probe, even a
  successful one (`TransactionProbeLocks`). `NeverAdmitsIff` says exactly when a half-open pool is lost.
- `query` releases its lease once unless the release in its try block throws: then it reports a failure after
  the success and releases again (`ReleasesOnceIff`).
- A template of slashes only, such as `/`, matches the empty path only, not `/` (`RootMatchesEmptyPathOnly`).
- When a hook throws on the handler's response and the dispatch still returns normally, exactly the hooks up to
  that one run twice; all run once iff none threw there (`HandlerHooksIff`, `DispatchHooksIff`).
- After an invalid-statement error the retry in `execPrepared` can not succeed, because the failed query has
  closed the connection (`RetryFails`).
- `username__in` finds the rows of the given names, whatever they are, exactly when none of them is empty, the
  word null, blank at an end, or contains a comma, brace, quote, backslash or NUL (`NamesFilterIff`). Names that
  come in quotes are looked up without them (`QuotedListReadsBack`).
- A user without an email is listed with an empty one, a user without a picture without one (`RowsBecomeUsers`).
- Parameters end at a NUL character. A filter by a username means itself iff it has none (`UsernameFilterIff`,
  `EmailFilterIff`), and an update or insert stores its fields as given iff they have none
  (`UpdateStoresGivenIff`, `CutKeepsIff`).
- A quoted `;` is legal in a Content-Disposition header and splits the value; `RoundTripIff` says exactly when
  that does no harm, repeated keys included (`RoundTripIffNoSemicolon` for distinct ones).
- `parse_pg_timestamp` rejects every text that `to_iso_string` prints (`IsoTextIsRejected`), although the user
  serializer parses its fields with it (src/serializers/users/UserSerializer.h:38). Dates that do not exist,
  leap seconds, fractions before 1970, and instants outside the clock's range are accepted but not kept
  (`ConversionKeepsIff`); on the nanosecond clock of the build every date from 2263 on is among
  them (`LaterYearsAreLost`). A text may end after any number: a date alone is midnight (`DateAloneIsMidnight`),
  a month alone is the last day before it. The offset that the server prints is not looked at, so the instant
  is the one denoted exactly when the offset is zero (`OffsetIsLost`).

## Model

| member | source | states |
|---|---|---|
| `CircuitBreakers.CircuitBreaker.constructor` | src/core/db/postgres/interfaces/PgPool.h:20-28 | a new breaker is Closed with no failures, threshold 5 and 3 seconds |
| `CircuitBreakers.CircuitBreaker.Allow` | src/core/db/postgres/interfaces/PgPool.h:30-44 | admits when Closed, when Open and the time has come (then becoming HalfOpen with its probe out), else refuses and changes nothing |
| `CircuitBreakers.CircuitBreaker.OnSuccess` | src/core/db/postgres/interfaces/PgPool.h:46-50 | the breaker closes, its counter and probe flag reset, all else unchanged |
| `CircuitBreakers.CircuitBreaker.OnFailure` | src/core/db/postgres/interfaces/PgPool.h:52-69 | a failed probe reopens; otherwise the 64-bit counter moves and opens the breaker at the threshold |
| `CircuitBreakers.PhaseCountsFailures` | src/core/db/postgres/interfaces/PgPool.h:20-69 | after any log: not Closed iff the failures since the last success reach the threshold; the probe flag iff HalfOpen |
| `CircuitBreakers.AdmissionsAreSpaced` | src/core/db/postgres/interfaces/PgPool.h:30-69 | once opened and until the next success, the i-th and j-th admissions are at least (j - i) open durations apart, whatever late failures come between |
| `CircuitBreakers.OpenRefusesUntil` | src/core/db/postgres/interfaces/PgPool.h:30-68 | after any log that leaves the breaker open, with the last failure at t, an ask is admitted iff it comes at t + open duration or later; failures while it was open already count |
| `CircuitBreakers.SpacingIsTight` | src/core/db/postgres/interfaces/PgPool.h:30-69 | two admissions exactly one open duration apart do occur |
| `CircuitBreakers.HalfOpenKeepsRefusing` | src/core/db/postgres/interfaces/PgPool.h:40-43 | any number of requests at any times leave a HalfOpen breaker as it is, all refused |
| `Pools.PgPool.constructor` | src/core/db/postgres/PgPool.cpp:12-17 | an empty pool, channel capacity `size` or 1 |
| `Pools.PgPool.MakeOrWait` | src/core/db/postgres/PgPool.cpp:72-112 | the new pool and which of the seven ways the acquire takes: shutting down, refused, idle connection, connecting, buffered connection, closed channel, waiting |
| `Pools.PgPool.Connected` | src/core/db/postgres/PgPool.cpp:97-100 | the connect's end: counter, breaker success and the lease of a fresh connection |
| `Pools.PgPool.ConnectFailed` | src/core/db/postgres/PgPool.cpp:101-105 | a breaker failure, the counter untouched |
| `Pools.PgPool.Resumed` | src/core/db/postgres/PgPool.cpp:109-111 | the receiver that was handed a connection now holds its lease |
| `Pools.PgPool.QuerySucceeded` | src/core/db/postgres/PgPool.cpp:52-56 | breaker success and one queued release of an open connection |
| `Pools.PgPool.QueryRaisedDbError` | src/core/db/postgres/PgPool.cpp:57-61 | one queued release of a closed connection, the breaker untouched |
| `Pools.PgPool.QueryRaisedOther` | src/core/db/postgres/PgPool.cpp:62-68 | breaker failure and one queued release of a closed connection |
| `Pools.PgPool.BeginFailed` | src/core/db/postgres/Transaction.cpp:3-11 | the lease is gone and nothing is released |
| `Pools.PgPool.Release` | src/core/db/postgres/PgPool.cpp:114-132 | drop with guarded decrement when stopping or unhealthy, else the first waiter, else the buffer, else the idle list |
| `Pools.PgPool.TrySend` | src/core/db/postgres/PgPool.cpp:127-129 | succeeds iff open and a receiver waits or the buffer has room, and where the value goes |
| `Pools.PgPool.Stop` | src/core/db/postgres/PgPool.cpp:33-44 | channel closed, waiters and idle connections gone, counter zero |
| `PoolProperties.StepConserves` | src/core/db/postgres/PgPool.cpp:72-132 | for every event and connection: places after + lost = places before + opened |
| `PoolProperties.StepCounts` | src/core/db/postgres/PgPool.cpp:97-125 | the counter keeps step with the live connections: every guarded decrement is a real one |
| `PoolProperties.StepKeepsConserved` | src/core/db/postgres/PgPool.cpp:72-132 | no connection gets into two places, none is made up, and the counter stays exact, in every step |
| `PoolProperties.StepKeepsOrdered` | src/core/db/postgres/PgPool.cpp:84-131 | a waiter implies an empty idle list and an empty buffer; an idle connection implies a full buffer; kept by every step |
| `PoolProperties.RunKeepsInvariant` | src/core/db/postgres/PgPool.cpp:72-132 | both invariants hold after every run |
| `PoolRuns.ConnectionsAreCounted` | src/core/db/postgres/PgPool.cpp:72-132 | on every run from the empty pool each opened connection is in exactly one place or was dropped exactly once, and before shutdown the counter is the live connections plus the dropped leases, so it never underflows |
| `PoolRuns.LeakedCountsDrops` | src/core/db/postgres/Transaction.cpp:4-5 | the surplus of the counter is the number of failed BEGINs |
| `PoolRuns.OvershootIsBounded` | src/core/db/postgres/PgPool.cpp:92-100 | with at most k connects in flight the counter and the connects in flight stay within size + k - 1 |
| `PoolRuns.OvershootIsReached` | src/core/db/postgres/PgPool.cpp:92-100 | for every size and k >= 1 a run in which the counter is size + k - 1 |
| `PoolRuns.IdleIsOvershoot` | src/core/db/postgres/PgPool.cpp:114-131 | with at most k connects in flight fewer than k connections are idle; none for k = 1 |
| `PoolRuns.ParksOnlyAboveSize` | src/core/db/postgres/PgPool.cpp:127-130 | a release that parks its connection does so with the counter above the size |
| `PoolRuns.GrowsBeforeReuse` | src/core/db/postgres/PgPool.cpp:84-109 | with serialised connects, below the size an admitted acquire opens a connection and leaves the buffer alone |
| `PoolRuns.WaitersAreServedInOrder` | src/core/db/postgres/PgPool.cpp:109-128 | the queue at the start and those who joined it are those served, in order, followed by those still waiting |
| `PoolRuns.HealthyReleasesServeWaiters` | src/core/db/postgres/PgPool.cpp:114-129 | n healthy releases serve exactly the first n waiters, in order |
| `PoolRuns.LastParkedIsReusedFirst` | src/core/db/postgres/PgPool.cpp:84-130 | idle connections are a stack over any run: the one parked last is the next that an acquire gets, whatever was parked and reused on top of it in between |
| `PoolRuns.BufferIsQueue` | src/core/db/postgres/PgPool.cpp:109-131 | on every run, shutdown included, the connections taken from the channel are, in order, the first of those that went there |
| `PoolRuns.ShutdownDrains` | src/core/db/postgres/PgPool.cpp:33-45 | whatever happens after shutdown, no connect begins, the clients left take a bounded number of steps, and then no connection is anywhere but those the channel held |
| `PoolRuns.StoppedPoolMoves` | src/core/db/postgres/PgPool.cpp:33-45 | until then a step other than an acquire is possible |
| `PoolLiveness.FailedQueryWakesNobody` | src/core/db/postgres/PgPool.cpp:57-69 | the release of a query that ended in an exception finds its connection unhealthy: it only drops it and decrements |
| `PoolLiveness.StrandedIff` | src/core/db/postgres/PgPool.cpp:109-131 | in every reachable state with waiters before shutdown: no run without a further acquire ever serves one iff nothing connects, is handed over or leased, and no open connection is queued for release |
| `PoolLiveness.StrandingIsReached` | src/core/db/postgres/PgPool.cpp:122-126 | for every size a run from the empty pool by DbErrors alone, after which one client waits, the pool is empty, and only an acquire or shutdown can happen |
| `PoolLiveness.StarvedForever` | src/core/db/postgres/PgPool.cpp:92-111 | with no usable connection and as many dropped leases as places, no run before shutdown ever grants a lease |
| `PoolLiveness.NoMoreLeasesIff` | src/core/db/postgres/PgPool.cpp:72-132 | in every reachable state before shutdown: no run ever grants a lease iff the pool is starved, or locked with no client handed a connection or waiting for one that could still come |
| `PoolLiveness.FailedBeginsStarve` | src/core/db/postgres/Transaction.cpp:3-11 | `size` failed BEGINs bring any pool there |
| `PoolBreaker.PoolDrivesBreaker` | src/core/db/postgres/PgPool.cpp:46-106 | the pool's breaker is the breaker run on the log of the pool's calls, and its admissions are the acquires let through |
| `PoolBreaker.AcquiresAreSpaced` | src/core/db/postgres/PgPool.cpp:79-82 | the rate limit of the breaker, for every run of the whole pool |
| `PoolBreaker.OpenPoolRefusesUntil` | src/core/db/postgres/PgPool.cpp:79-82 | the same for the acquires of the pool, on every run: t is the last failure reported to its breaker |
| `PoolBreaker.ProbeResolution` | src/core/db/postgres/PgPool.cpp:46-69 | HalfOpen is left only by a connect's or query's success (to Closed) or infrastructure error (to Open until then + duration); acquires, DbErrors and transactions change nothing of it |
| `PoolLiveness.LockedForever` | src/core/db/postgres/PgPool.cpp:79-82 | a HalfOpen pool without a query left that could report an outcome refuses every acquire on every run |
| `PoolLiveness.NeverAdmitsIff` | src/core/db/postgres/PgPool.cpp:46-132 | in every reachable HalfOpen state before shutdown: no run ever admits an acquire again iff nothing connects, no query has or is handed a lease, and no query waits that a lease or an open connection could still serve |
| `PoolLiveness.DbErrorLocksIff` | src/core/db/postgres/PgPool.cpp:57-61 | which DbErrors lock a HalfOpen pool, in terms of the state before: no other query under way, and no query waiting that an open connection could still serve |
| `PoolLiveness.DbErrorOfLastProbeLocks` | src/core/db/postgres/PgPool.cpp:57-61 | a DbError of the probe, when it is the only work, locks the pool on every run, with clients waiting or not |
| `PoolLiveness.TransactionProbeLocks` | src/core/db/postgres/Transaction.cpp:3-28 | a transaction that is admitted as the probe and reuses a connection locks the pool at once, when no query is under way |
| `PoolLiveness.LockIsReached` | src/core/db/postgres/PgPool.cpp:46-111 | a run of a pool of size 1 into the lock |
| `PoolBreaker.LeasesBalance` | src/core/db/postgres/PgPool.cpp:46-69 | over every run and for every client: leases held before plus got = given back plus dropped plus held after, and releases queued = releases run plus those still queued |
| `PoolQueries.Query` | src/core/db/postgres/PgPool.cpp:46-69 | acquire, `execParams`, and the try block with its two handlers: the result, the state of the connection, and the log of reports and releases |
| `PoolQueries.ReleasesOnceIff` | src/core/db/postgres/PgPool.cpp:51-68 | on every way out after acquire there is a release, and exactly one iff the statement failed or the release after it did not throw |
| `PoolQueries.OpenIffReturned` | src/core/db/postgres/PgConnection.cpp:145-180 | after `execParams` the connection is open iff it returned rows |
| `PoolQueries.ExitIsEvent` | src/core/db/postgres/PgPool.cpp:51-68 | whatever `execParams` gives on whatever connection, the reports and the release of the way out, with the connection as it then is, are one event of the pool: success, DbError or infrastructure error |
| `PoolQueries.QueryOutcome` | src/core/db/postgres/PgPool.cpp:46-69 | success is reported iff the statement gave rows, failure iff connecting failed or the error is no DbError; the caller gets the rows or the error of the statement itself |
| `Offloading.OffloadState.constructor` | src/core/helpers/Offload.h:55-81 | handler stored, nothing cancelled or completed, task queued |
| `Offloading.OffloadState.Cancel` | src/core/helpers/Offload.h:126-143 | sets the flag and posts an attempt to complete, if the state is still alive |
| `Offloading.OffloadState.Start` | src/core/helpers/Offload.h:147-152 | whether `func` is to run, for a possibly stale read of the flag; else the aborted exception is stored |
| `Offloading.OffloadState.Exchange` | src/core/helpers/Offload.h:133-134 | returns the old flag and sets it |
| `Offloading.OffloadState.CompleteCancelled` | src/core/helpers/Offload.h:132-141 | delivers the aborted exception unless completed; the handler is moved out first |
| `Offloading.OffloadState.CompleteFinal` | src/core/helpers/Offload.h:157-168 | delivers the stored exception and result unless completed |
| `Offloading.AtMostOneDelivery` | src/core/helpers/Offload.h:55-103 | on every interleaving, closures that outlive their work included, at most one call; no empty handler dereferenced; completed iff the handler is gone iff it was called; an expired weak pointer means it was |
| `Offloading.ExactlyOneDelivery` | src/core/helpers/Offload.h:120-169 | every run can go on until all posted work has run, takes at most 6 steps plus 3 a cancellation, and then the handler has been called once |
| `Offloading.DeliveryIsOutcome` | src/core/helpers/Offload.h:146-175 | a null exception comes with the value `func` produced, an exception is `func`'s own or the abort of a cancelled request; `func` runs at most once |
| `Offloading.UncancelledGetsOutcome` | src/core/helpers/Offload.h:146-175 | without a signal the caller gets `func`'s outcome |
| `Offloading.CancellationDelivers` | src/core/helpers/Offload.h:126-143 | on every run: a signal on a connected slot before any delivery, and then the queued completions alone, in any order, give exactly one delivery, the abort unless the final completion was queued before |
| `Offloading.SeenSignalSkipsFunc` | src/core/helpers/Offload.h:146-152 | a signal before the load can be seen by it, and when it is seen `func` never runs on any continuation |
| `Offloading.NothingAfterTheEnd` | src/core/helpers/Offload.h:126-129 | once every closure is gone no further event, a late signal included, changes anything |
| `Offloading.ReadsAfterWrites` | src/core/helpers/Offload.h:146-168 | the only step that reads `ep` and `result` finds the blocking task finished, and no later step changes them |
| `Regexes.RunFirst` | src/core/routers/Router.cpp:205 | how a greedy or any other engine may match `([^/]+)` before the rest: a non-empty slash-free run and what follows it |
| `Routes.CompileRoute` | src/core/routers/Router.cpp:179-214 | the loop over the template gives the pattern text of its segments and its parameter names, in order |
| `Routes.EscapeSegment` | src/core/routers/Router.cpp:181-189 | every special character behind a backslash, the others as they are |
| `Routes.PatternParses` | src/core/routers/Router.cpp:181-213 | whatever the template, the pattern text is a well-formed expression and reads as the segments meant |
| `RouteMatching.PatternMeansSegments` | src/core/routers/Router.cpp:179-214 | the compiled pattern matches a path with some captures iff the path is one slash-prefixed piece for each non-empty segment, equal for literals, non-empty and slash-free for parameters, which are the captures |
| `RouteMatching.TemplateReadsWritten` | src/core/routers/Router.cpp:197-213 | a list of parameters (in braces) and literals (not in braces), written with slashes, is read as that list |
| `RouteMatching.WrittenRouteMatches` | src/core/routers/Router.cpp:197-213 | the compiled route of a written list matches exactly the paths with one fitting piece a segment |
| `RouteMatching.ParameterRoute` | src/core/routers/Router.cpp:202-207 | a route such as `/users/{id}` matches any non-empty slash-free value there and binds it to the name |
| `RouteMatching.CapturesAreUnique` | src/core/routers/Router.cpp:228-243 | a path has one list of captures, and it has as many as there are names |
| `RouteMatching.RootMatchesEmptyPathOnly` | src/core/routers/Router.cpp:197-213 | any template of slashes only matches exactly the empty path, without captures |
| `RouteMatching.BindParams` | src/core/routers/Router.cpp:232-236 | the loop gives the map in which later names win |
| `RouteMatching.LastOfNameIsBound` | src/core/routers/Router.cpp:232-236 | each name, and nothing else, is bound, to the capture of its last parameter |
| `RouteMatching.FillThenMatch` | src/core/routers/Router.cpp:179-243 | substituting values for distinct parameters gives a path that matches, and every match gives the values back |
| `Chains.RunChain` | src/core/routers/Router.cpp:133-149 | the loop from the last middleware to the first builds the nested chain |
| `Chains.RunAfter` | src/core/routers/Router.cpp:151-157 | the hooks in order, each on the response of the one before, stopping at an exception |
| `Chains.HandlerAfterAllMiddlewares` | src/core/routers/Router.cpp:133-149 | the handler runs at most once, only after every middleware in order called `next`; otherwise one of them stopped the request and none after it was entered |
| `Chains.HooksInOrder` | src/core/routers/Router.cpp:151-157 | all hooks once in order, or those up to and including the first that throws |
| `Dispatching.Router.Add` | src/core/routers/Router.cpp:11-32 | the table after registering: the entry of the same template changed, or a compiled one appended |
| `Dispatching.Router.Use` | src/core/routers/Router.cpp:34-37 | the middleware is the last global one |
| `Dispatching.Router.UseScoped` | src/core/routers/Router.cpp:39-42 | the middleware is the last scoped one |
| `Dispatching.Router.CollectMiddlewaresFor` | src/core/routers/Router.cpp:44-52 | the globals, then the scoped ones whose prefix the path has, in registration order |
| `Dispatching.Router.BuildAllowHeader` | src/core/routers/Router.cpp:54-73 | the names of the registered methods, in the fixed order, separated by commas |
| `Dispatching.Router.Dispatch` | src/core/routers/Router.cpp:216-357 | route choice, parameters, and the response and trace of the chosen branch |
| `Dispatching.Router.Refuse` | src/core/routers/Router.cpp:260-312 | which refusal comes first: automatic OPTIONS, 405, 415 without or with a wrong content type, 413, or none |
| `Dispatching.Router.Serve` | src/core/routers/Router.cpp:248-356 | automatic HEAD, refusals, body parsing with 400, the handler's chain, and 500 for its exceptions |
| `DispatchProperties.TableKeepsRegistrations` | src/core/routers/Router.cpp:11-32 | after any registrations: each template once, in order of first appearance, compiled, with the handler and the allowed content types registered last for every method |
| `DispatchProperties.FirstFittingRoute` | src/core/routers/Router.cpp:228-246 | the chosen route is the first registered template that the path fits, with the pieces as parameters; none is chosen iff none fits |
| `DispatchProperties.DispatchShape` | src/core/routers/Router.cpp:216-357 | every dispatch is at most one chain, a pass over the hooks cut short by a throwing one, and a last pass |
| `DispatchProperties.MiddlewaresGuardHandler` | src/core/routers/Router.cpp:133-149 | for every router and request: when the handler runs, everything before is every collected middleware in order calling `next`, so it runs once at most |
| `DispatchProperties.HooksRunOnce` | src/core/routers/Router.cpp:151-157 | on a normal return the trace ends with a full pass over the hooks; when none throws it is the only one |
| `DispatchProperties.CutPassRuns` | src/core/routers/Router.cpp:341-350 | a first pass over the hooks is cut iff the chain answered and a hook threw on the answer; it is the hooks up to the one that threw |
| `DispatchProperties.HandlerHooksIff` | src/core/routers/Router.cpp:341-356 | when the handler's route returns normally: hooks of the cut pass run twice, the others once; all run once iff not (the chain answered and a hook threw on the answer) |
| `DispatchProperties.DispatchHooksIff` | src/core/routers/Router.cpp:216-357 | the same for every dispatch that returns normally |
| `DispatchProperties.ThrowingHookRunsTwice` | src/core/routers/Router.cpp:341-356 | a hook that throws on the answer and accepts the 500 runs twice |
| `DispatchAnswers.CollectedIs` | src/core/routers/Router.cpp:44-52 | the globals, then, by increasing registration, exactly the scoped middlewares whose prefix the path goes on from |
| `DispatchAnswers.ScopedMiddlewareGuards` | src/core/routers/Router.cpp:44-52 | whenever a handler runs for a path that goes on from a registered prefix, that middleware was entered and called `next` before |
| `DispatchAnswers.GlobalMiddlewareGuards` | src/core/routers/Router.cpp:44-45 | the same for every global middleware and every path |
| `DispatchAnswers.AllowHeaderLists` | src/core/routers/Router.cpp:54-73 | the comma-separated names of exactly the registered methods, in the fixed order |
| `DispatchAnswers.RefusalIs` | src/core/routers/Router.cpp:260-312 | refused iff the method is not registered, a restricted body has no allowed type, or it is too long; with 200 or 405, 415, 413 in this order, and an Allow header |
| `DispatchAnswers.RefusedGetsRefusal` | src/core/routers/Router.cpp:260-312 | such a request gets the refusal through the hooks and runs nothing else |
| `DispatchAnswers.AcceptedReachesHandler` | src/core/routers/Router.cpp:314-345 | any other request without a parsed body reaches the handler of its method |
| `DispatchAnswers.UnknownPathIs404` | src/core/routers/Router.cpp:245-246 | 404 through the hooks when no registered template fits |
| `DispatchAnswers.MalformedBodyIs400` | src/core/routers/Router.cpp:314-339 | a JSON body that its parser rejects gives 400 with the message of the parser |
| `DispatchAnswers.MalformedFormIs400` | src/core/routers/Router.cpp:314-339 | the same for a form, when the type does not name JSON as well |
| `DispatchAnswers.HandlerOutcomeIsAnswered` | src/core/routers/Router.cpp:341-356 | behind forwarding middlewares: a response passes the hooks, a standard exception becomes a 500 with its message or a fixed one, anything else goes through |
| `DispatchAnswers.HeadIsGetWithoutBody` | src/core/routers/Router.cpp:248-258 | the status and headers of GET, no body, length zero |
| `DispatchAnswers.HooksThread` | src/core/routers/Router.cpp:151-157 | the response of a full pass is what the hooks make of it one after the other |
| `DispatchAnswers.AnswerComesBack` | src/core/routers/Router.cpp:133-149 | the first middleware that answers decides the response |
| `DispatchAnswers.FailureComesBack` | src/core/routers/Router.cpp:133-149 | the same for the first that throws |
| `Streams.StringStream.GetLine` | src/core/filters/BaseFilter.cpp:7-9 | one token of the remaining text and the rest; it fails exactly at the end |
| `Streams.TokensOfJoin` | src/core/filters/BaseFilter.cpp:19-31 | reading tokens inverts joining non-empty delimiter-free pieces |
| `Filters.ParseIds` | src/core/filters/BaseFilter.cpp:5-17 | the numbers of the tokens that can be read, in order, as signed 64-bit values |
| `Filters.ParseStrings` | src/core/filters/BaseFilter.cpp:19-31 | the non-empty tokens, in order |
| `Filters.StoullOfShow` | src/core/filters/BaseFilter.cpp:12 | a printed 64-bit number, -2^63 included, is read back through the unsigned wrap and the signed conversion |
| `Filters.StoullReads` | src/core/filters/BaseFilter.cpp:12 | which number any token of blanks, sign, digits and rest is; none from 2^64 on |
| `Filters.StoullRefuses` | src/core/filters/BaseFilter.cpp:12 | no number without a digit after blanks and sign |
| `Filters.JunkIsSkipped` | src/core/filters/BaseFilter.cpp:5-17 | a token that is no number changes nothing about the others |
| `Filters.ParseIdsInvertsPrinting` | src/core/filters/BaseFilter.cpp:5-17 | parsing the inside of the array text of any 64-bit list gives the list |
| `Filters.ParseStringsInvertsJoin` | src/core/filters/BaseFilter.cpp:19-31 | parsing inverts comma-joining of non-empty comma-free strings |
| `Filters.SplitJoinSplit` | src/core/filters/BaseFilter.cpp:19-31 | for every input: splitting, joining and splitting again is splitting |
| `SqlBuilders.SQLBuilder.Select` | src/core/db/postgres/builder/SQLBuilder.h:12-19 | the text added, `*` for no fields |
| `SqlBuilders.SQLBuilder.Exists` | src/core/db/postgres/builder/SQLBuilder.h:21-23 | the SQL wrapped |
| `SqlBuilders.SQLBuilder.Insert` | src/core/db/postgres/builder/SQLBuilder.h:25-38 | the text with the next placeholders in order; an error without change for no fields |
| `SqlBuilders.SQLBuilder.Update` | src/core/db/postgres/builder/SQLBuilder.h:40-54 | each field set to the next placeholder; an error without change for no fields |
| `SqlBuilders.SQLBuilder.Where` | src/core/db/postgres/builder/SQLBuilder.h:65-74 | WHERE or AND, the next placeholder, and its value pushed |
| `SqlBuilders.SQLBuilder.WhereAny` | src/core/db/postgres/builder/SQLBuilder.h:76-86 | nothing for an empty list, else the condition and the array text pushed |
| `SqlBuilders.SQLBuilder.Limit` | src/core/db/postgres/builder/SQLBuilder.h:88-92 | nothing or the next placeholder with its value |
| `SqlBuilders.SQLBuilder.Offset` | src/core/db/postgres/builder/SQLBuilder.h:94-98 | nothing or the next placeholder with its value |
| `SqlBuilders.SQLBuilder.ArrayToPg` | src/core/db/postgres/builder/SQLBuilder.h:131-140 | the braces around the comma-joined values |
| `SqlBuilders.PlaceholdersConcat` | src/core/db/postgres/builder/SQLBuilder.h:25-98 | the placeholders of two texts are those of their concatenation, unless a digit follows the first |
| `SqlBuilders.PlaceholdersAreNumbered` | src/core/db/postgres/builder/SQLBuilder.h:25-98 | for any calls with one select, insert, update or remove first: the `$` numbers in the SQL are 1 to n once each in order, n the insert or update fields plus the parameters |
| `SqlTexts.ReadInvertsText` | src/core/db/postgres/builder/SQLBuilder.h:12-102 | the text of every well-formed select, update and insert of the builder's form is read back as that statement |
| `ArrayNames.ArrayTextReadsBack` | src/core/db/postgres/builder/SQLBuilder.h:131-140 | a list of any strings is read back from its array text iff all its strings are plain |
| `ArrayNames.FoundNamesArePlain` | src/core/db/postgres/builder/SQLBuilder.h:131-140 | when every string of a list is found among the elements its array text is read as, in any order, nested or not, all are plain |
| `ArrayLiterals.PlainListReadsBack` | src/core/db/postgres/builder/SQLBuilder.h:131-140 | a list of plain strings is read back unchanged |
| `ArrayLiterals.QuotedListReadsBack` | src/core/db/postgres/builder/SQLBuilder.h:131-140 | a list of strings in quotes, escaped inside, is read as the strings without them |
| `ArrayLiterals.NullWordIsLost` | src/core/db/postgres/builder/SQLBuilder.h:131-140 | the list of the word null is read as a list of no string |
| `Users.GetList` | src/repositories/users/UsersRepository.cpp:8-41 | drives the builder to the text and the parameters of the list query |
| `Users.ListBuilderIsQuery` | src/repositories/users/UsersRepository.cpp:8-41 | the builder's SQL is the text of one select with the given filters as conditions, and its parameters are in placeholder order |
| `Users.UpdateUser` | src/repositories/users/UsersRepository.cpp:138-188 | fails for no given field, else the text of the update statement and the values of its fields in order, the id last |
| `Users.CollectChanges` | src/repositories/users/UsersRepository.cpp:146-168 | the two vectors grow side by side: fields and values of the given non-empty fields |
| `Users.NothingToUpdateIff` | src/repositories/users/UsersRepository.cpp:146-172 | the update is refused iff every field is absent or empty |
| `Users.CreateUser` | src/repositories/users/UsersRepository.cpp:111-131 | the text of the insert statement and the three values in field order |
| `UserTheorems.ListReturnsPage` | src/repositories/users/UsersRepository.cpp:8-41 | for any filters and any table with unique ids the SQL is read as the list query, and running it gives the rows satisfying all filters as the server gets them, which for sendable filters are the filters themselves, by increasing id, after offset and limit; an unreadable list of names or a count outside int4 is an error |
| `UserTheorems.ListingIsUnique` | src/repositories/users/UsersRepository.cpp:28 | the filtered list ordered by id is determined by filters and table |
| `UserTheorems.PagesConcatenate` | src/repositories/users/UsersRepository.cpp:8-41 | the results of the list query for pages 0 to n - 1 of any size, each by its own limit and offset, put together are the first n * size rows of the filtered list, so all of it once they reach its end |
| `UserRows.ReadUsers` | src/repositories/users/UsersRepository.cpp:43-59 | the loop over the rows by column position, with the first exception of a number or a date |
| `UserRows.StollOfShow` | src/repositories/users/UsersRepository.cpp:48 | every printed 64-bit id is read back |
| `UserRows.RowsBecomeUsers` | src/repositories/users/UsersRepository.cpp:8-59 | the columns the query selects by name end in the fields of their names, one user a row, and it throws iff a date can not be read |
| `UserRows.ListReturnsUsers` | src/repositories/users/UsersRepository.cpp:8-61 | from filters to users: those of the page of the filtered listing, in order, each with its own columns |
| `UserTheorems.NamesFilterIff` | src/repositories/users/UsersRepository.cpp:18-20 | for any names: the condition holds of exactly the rows with one of them iff all names are plain |
| `UserTheorems.UsernameFilterIff` | src/repositories/users/UsersRepository.cpp:21-23 | for any name: the condition holds of exactly the rows of that name iff it has no NUL character |
| `UserTheorems.EmailFilterIff` | src/repositories/users/UsersRepository.cpp:24-26 | for any address: the condition holds of exactly the rows of that address, up to case, iff cutting it at a NUL character makes no difference up to case |
| `UserTheorems.UpdateChangesOneRow` | src/repositories/users/UsersRepository.cpp:138-188 | for any given fields the SQL is read as the update statement, and running it with the vector passed changes the row of the id, each given field to its own value as a parameter, and no other row |
| `UserTheorems.UpdateStoresGivenIff` | src/repositories/users/UsersRepository.cpp:146-168 | the update stores the fields as given iff none has a NUL character |
| `UserTheorems.CreateStoresFields` | src/repositories/users/UsersRepository.cpp:111-131 | the SQL is read as the insert statement, which stores each field as a parameter under its own column |
| `Connections.PgConnection.Close` | src/core/db/postgres/PgConnection.cpp:289-300 | the session is gone, the cache stays |
| `Connections.PgConnection.EnsureConnected` | src/core/db/postgres/PgConnection.cpp:282-287 | nothing on a healthy connection, else a fresh session with an empty cache, or what the failed connect leaves |
| `Connections.PgConnection.RunQueryWithTimeout` | src/core/db/postgres/PgConnection.cpp:377-458 | the outcome; every failure closes the connection |
| `Connections.PgConnection.PrepareOnce` | src/core/db/postgres/PgConnection.cpp:194-220 | nothing when cached; cached after success or an already-exists error |
| `Connections.PgConnection.ExecPrepared` | src/core/db/postgres/PgConnection.cpp:182-280 | connect, prepare, execute, and the retry after an invalid-statement error |
| `Connections.PgConnection.ExecParams` | src/core/db/postgres/PgConnection.cpp:145-180 | connect and run once |
| `Connections.CacheStaysSound` | src/core/db/postgres/PgConnection.cpp:74-300 | over every sequence of uses: while connected, every cached name is prepared on that very session |
| `Connections.RetryFails` | src/core/db/postgres/PgConnection.cpp:273-277 | the retry never returns rows |
| `Connections.ReturnsOnlyOnFirstExecution` | src/core/db/postgres/PgConnection.cpp:182-280 | rows are returned iff connecting, preparing (or the cache) and the first execution succeed |
| `Connections.ExecParamsGives` | src/core/db/postgres/PgConnection.cpp:145-180 | the rows or the error of the statement, of its own class, when healthy or connected, else the error of connecting |
| `Connections.ExecPreparedRaises` | src/core/db/postgres/PgConnection.cpp:182-280 | which error comes out in every case: of connecting, of preparing, of the execution, or of the closed connection |
| `Connections.NextExecutionSkipsPrepare` | src/core/db/postgres/PgConnection.cpp:194-220 | after a success the next execution of the statement depends on no prepare |
| `Connections.UnknownStatementIsForgotten` | src/core/db/postgres/PgConnection.cpp:262-277 | a statement the server does not know leaves a closed connection and a cache without it |
| `Connections.MessagesAreSearched` | src/core/db/postgres/PgConnection.cpp:16-32 | the messages that count as an existing or an unknown statement |
| `Connections.ExecutesPreparedStatement` | src/core/db/postgres/PgConnection.cpp:182-280 | in every reachable state a successful execution ran a statement prepared on its session |
| `Connections.Drain` | src/core/db/postgres/PgConnection.cpp:404-452 | the last rows among the results before the first error, or that error with its code |
| `HeaderParams.TrimCopy` | src/core/multipart/adapters/POCOMultipartAdapter.cpp:88-93 | blanks dropped at both ends |
| `HeaderParams.UnquoteCopy` | src/core/multipart/adapters/POCOMultipartAdapter.cpp:95-105 | trimmed, and one pair of equal quotes dropped |
| `HeaderParams.UnquoteIs` | src/core/multipart/adapters/POCOMultipartAdapter.cpp:95-105 | a value between any blanks loses the blanks and one pair of equal quotes, and nothing else |
| `HeaderParams.ParseHeaderParams` | src/core/multipart/adapters/POCOMultipartAdapter.cpp:107-136 | the cursor loop, whose cursor grows in every turn, gives the parameters of the pieces between semicolons |
| `HeaderParams.ParseInvertsPrinting` | src/core/multipart/adapters/POCOMultipartAdapter.cpp:107-136 | printing any pairs of good keys and semicolon-free values and parsing gives exactly the last-wins map |
| `HeaderParams.ParsedValuesAreFree` | src/core/multipart/adapters/POCOMultipartAdapter.cpp:112-118 | no header at all gives a value with a semicolon |
| `HeaderParams.ParsesAsRead` | src/core/multipart/adapters/POCOMultipartAdapter.cpp:107-136 | for any pairs at all, parsing what is printed gives what the pieces between their semicolons assign |
| `HeaderParams.TakesBarePair` | src/core/multipart/adapters/POCOMultipartAdapter.cpp:120-133 | an unquoted value with blanks anywhere around key and value is taken as it is |
| `HeaderParams.IgnoredPieces` | src/core/multipart/adapters/POCOMultipartAdapter.cpp:120-128 | blank pieces, pieces without an equals sign, and the first one that is not blank assign nothing |
| `HeaderParams.NoKeyNoPair` | src/core/multipart/adapters/POCOMultipartAdapter.cpp:128-133 | neither does a piece without a key |
| `HeaderParams.RoundTripIff` | src/core/multipart/adapters/POCOMultipartAdapter.cpp:107-136 | for any good keys, repeated or not, parsing gives the printed map back iff every value that wins for its key has no semicolon and each stray assignment after one is overwritten or assigns what wins |
| `HeaderParams.RoundTripIffNoSemicolon` | src/core/multipart/adapters/POCOMultipartAdapter.cpp:107-136 | for distinct good keys parsing gives the printed map back iff no value contains a semicolon |
| `Timestamps.ParsePgTimestamp` | src/helpers/DatetimeConverter.h:11-49 | an error iff the fields can not be read, else the clock's tick for their second and the microseconds of the fraction, wrapping around beyond 64 bits |
| `Timestamps.FullTextIsReadIff` | src/helpers/DatetimeConverter.h:16-20 | a full-width text is read iff its fields are in the ranges of the format, and as these fields |
| `Timestamps.ReadFraction` | src/helpers/DatetimeConverter.h:23-37 | the loops collect, cut and fill the digits of the fraction |
| `Timestamps.SixDigitsAreFloor` | src/helpers/DatetimeConverter.h:27-36 | cutting and filling to six digits gives floor(fraction * 10^6) for any number of digits |
| `Timestamps.YearStep` | src/helpers/DatetimeConverter.h:44 | the POSIX day count of a year grows by its own number of days |
| `Timestamps.GmtimeInvertsTimegm` | src/helpers/DatetimeConverter.h:39-60 | turning a valid date into seconds and back gives the date, for every year |
| `Timestamps.SecondsAreUnique` | src/helpers/DatetimeConverter.h:39-45 | no two valid dates and times are the same second |
| `Timestamps.PartsOfInstant` | src/helpers/DatetimeConverter.h:55-56 | the truncating casts on a clock that represents the instant: before 1970 a fraction shows as none, at the next second |
| `Timestamps.ShownFits` | src/helpers/DatetimeConverter.h:46-56 | a tick that shows an instant is that instant's own: the instant fits the clock |
| `Timestamps.IsoTextIsUnique` | src/helpers/DatetimeConverter.h:65-73 | a printed text determines its fields and its fraction |
| `Timestamps.IsoLayout` | src/helpers/DatetimeConverter.h:65-73 | the marks, the widths and the values of the numerals in a printed text |
| `Timestamps.ConversionKeepsIff` | src/helpers/DatetimeConverter.h:11-74 | for every accepted text, those that end early included, and every 64-bit clock the conversion shows its fields and microseconds iff the date exists, the second is below 60, the fraction is zero or the year 1970 or later, and the clock can represent the instant |
| `Timestamps.RoundTripWithFraction` | src/helpers/DatetimeConverter.h:11-74 | valid dates from 1970 to 2261 on the nanosecond clock, and to 9999 on a clock of at most ten ticks a microsecond, with a fraction of any length keep their fields and show floor(fraction * 10^6), in six digits or left out |
| `Timestamps.RoundTripWithoutFraction` | src/helpers/DatetimeConverter.h:11-74 | the same without a fraction, whatever follows the seconds |
| `Timestamps.DateAloneIsMidnight` | src/helpers/DatetimeConverter.h:16-20 | a valid date without a time is accepted and shown as midnight |
| `Timestamps.OffsetIsLost` | src/helpers/DatetimeConverter.h:39-48 | for a text with any offset from UTC the tick is that of the instant denoted iff the offset is zero |
| `Timestamps.LaterYearsAreLost` | src/helpers/DatetimeConverter.h:46-47 | on the nanosecond clock a valid date from 2263 to 9999 is accepted and never shown as itself |
| `Timestamps.IsoTextIsRejected` | src/helpers/DatetimeConverter.h:16-20 | no text that the printer prints, for any tick of any clock, is accepted by the parser |
| `Timestamps.ClockRange` | src/helpers/DatetimeConverter.h:46-47 | the nanosecond clock represents every instant of 1678 to 2261 and none before 1677 or after 2262 |

## Left out

- `Pools.PgPool.MakeOrWait`: the hop onto the strand and what follows up to the next await are one step; the cancellation of a waiting receive is not modelled.
- `PoolProperties.RunKeepsInvariant`: a lease is given back at most once, as a client that releases twice is not excluded by the code but by its callers; a connection handed to a receiver that has not resumed yet is a place of its own.
- `PoolRuns.LeakedCountsDrops`: a COMMIT that throws and is not followed by a rollback drops its lease like a failed BEGIN and is the same event; what a transaction runs in between is not modelled, and its connection may be open or closed when it ends.
- `PoolQueries.ExitIsEvent`: a release that throws is in `Query` and `ReleasesOnceIff`, not in the pool's events.
- `PoolRuns.OvershootIsBounded`: the counter is unbounded; 2^64 connections are not considered.
- `CircuitBreakers.AdmissionsAreSpaced`: clock readings and their sums with the open duration do not overflow.
- `Offloading.ReadsAfterWrites`: the memory model is that of posted work happening in order after its post, and of a relaxed load that may return any earlier value; the executors' own queues are assumed to run each task once.
- `Dispatching.Router.Dispatch`: the regular-expression engine and the body parsers are parameters, the engine one that finds a match iff there is one (`SoundEngineExists`); results in JSON and responses are one type; logging is left out.
- `Chains.HandlerAfterAllMiddlewares`: a middleware calls `next` at most once, as the interface intends; hooks and handlers are functions of the request and response.
- `Routes.CompileRoute`: only the regular expressions the compiler can write are parsed and given a meaning.
- `SqlTexts.ReadInvertsText`: the reader knows the statements of the builder's form with plain names, not the whole of SQL; selecting `*`, DELETE and EXISTS are built and numbered but not given a meaning.
- `ArrayNames.ArrayTextReadsBack`: the reader is that of the PostgreSQL 16 server the repository is deployed with, two passes over braces, quotes and escapes; explicit bounds before the braces, which `arrayToPg` never writes, and limits on the size of values are left out.
- `UserTheorems.ListReturnsPage`: ids are of the 64-bit type the filters have; how the case-insensitive type folds email addresses is a parameter; the timestamp columns are texts that belong to a row (`UserRows`), not columns a filter can name.
- `UserTheorems.UsernameFilterIff`: texts are strings of characters, valid in the server's encoding; bytes that are not are an error of the server.
- `UserTheorems.EmailFilterIff`: the same.
- `UserTheorems.UpdateStoresGivenIff`: the same.
- `UserTheorems.UpdateChangesOneRow`: constraint violations, which are errors of the server, and the trigger that sets `updated_at` are not modelled.
- `Connections.CacheStaysSound`: statements of a session are not deallocated by other SQL; the name the empty string is a name like others; descriptor waits, timers and libpq are outcomes.
- `Timestamps.ParsePgTimestamp`: the overflow of the clock is undefined in C++ and is taken to wrap around; `std::get_time` is that of libstdc++ from GCC 12 on. The full-width texts that PostgreSQL prints are read alike by every standard library; shorter ones are not.
- `getOne`, `exists` and `remove` of the repository: clients of the same builder calls with nothing further to say.
- Query-string parsing into a filter object (`UserListFilter`): one conversion a field.
- Sockets, HTTP sessions, the listener, JWT, password hashing, file type detection, JSON, file storage, OpenAPI and logging: foreign code, the operating system, or wiring.
