/** Theorems about whole runs of the pool, built on the invariants of PoolProperties. */
module PoolRuns {
  import opened CircuitBreakers
  import opened Pools
  import opened PoolProperties

  lemma {:induction false} RunConcat(s: Pool, first: seq<Event>, second: seq<Event>)
    requires Legal(s, first) && Legal(Run(s, first), second)
    ensures Legal(s, first + second) && Run(s, first + second) == Run(Run(s, first), second)
    decreases |first|
  {
    if first == [] {
      assert first + second == second;
    } else {
      assert (first + second)[1..] == first[1..] + second;
      RunConcat(Step(s, first[0]), first[1..], second);
    }
  }

  function DroppedLeases(es: seq<Event>): nat {
    if es == [] then 0 else If(es[0].BeginFails?) + DroppedLeases(es[1..])
  }

  lemma {:induction false} LeakedCountsDrops(s: Pool, es: seq<Event>)
    requires Legal(s, es)
    ensures Run(s, es).leaked == s.leaked + DroppedLeases(es)
    decreases |es|
  {
    if es != [] {
      LeakedCountsDrops(Step(s, es[0]), es[1..]);
    }
  }

  /** How often a run drops connection c. */
  function Losses(s: Pool, es: seq<Event>, c: Conn): nat
    requires Legal(s, es)
    decreases |es|
  {
    if es == [] then 0 else Lost(s, es[0], c) + Losses(Step(s, es[0]), es[1..], c)
  }

  lemma {:induction false} PlacesAddUp(s: Pool, es: seq<Event>, c: Conn)
    requires Legal(s, es) && Places(s, c) <= If(c < s.nextConn)
    ensures var t := Run(s, es);
            && s.nextConn <= t.nextConn
            && Places(t, c) + Losses(s, es, c) == Places(s, c) + If(s.nextConn <= c < t.nextConn)
    decreases |es|
  {
    if es != [] {
      StepConserves(s, es[0], c);
      PlacesAddUp(Step(s, es[0]), es[1..], c);
    }
  }

  /** On every run from an empty pool each connection that was opened is in exactly one place, or was
      dropped exactly once; before shutdown `created_at_` counts the live connections and the leases
      dropped by failed BEGINs, so a release handler never finds it at zero. */
  lemma ConnectionsAreCounted(size: nat, b: Breaker, es: seq<Event>)
    requires Legal(Empty(size, b), es)
    ensures var s := Run(Empty(size, b), es);
            && (forall c: Conn :: Places(s, c) + Losses(Empty(size, b), es, c) == If(c < s.nextConn))
            && (!s.stopping ==> s.createdAt == Live(s) + DroppedLeases(es))
            && (!s.stopping && s.releasing != [] ==> s.createdAt > 0)
  {
    RunKeepsInvariant(Empty(size, b), es);
    LeakedCountsDrops(Empty(size, b), es);
    forall c: Conn
      ensures Places(Run(Empty(size, b), es), c) + Losses(Empty(size, b), es, c)
              == If(c < Run(Empty(size, b), es).nextConn)
    {
      PlacesAddUp(Empty(size, b), es, c);
    }
  }

  // The capacity check and the increment straddle an await

  /** At most k connects are in flight in every state of the run. */
  predicate ConnectsAtMost(s: Pool, es: seq<Event>, k: nat)
    requires Legal(s, es)
    decreases |es|
  {
    |s.connecting| <= k && (es == [] || ConnectsAtMost(Step(s, es[0]), es[1..], k))
  }

  lemma {:induction false} ConnectsAtMostConcat(s: Pool, first: seq<Event>, second: seq<Event>, k: nat)
    requires Legal(s, first) && Legal(Run(s, first), second)
    requires ConnectsAtMost(s, first, k) && ConnectsAtMost(Run(s, first), second, k)
    ensures Legal(s, first + second) && ConnectsAtMost(s, first + second, k)
    decreases |first|
  {
    RunConcat(s, first, second);
    if first == [] {
      assert first + second == second;
    } else {
      assert (first + second)[1..] == first[1..] + second;
      ConnectsAtMostConcat(Step(s, first[0]), first[1..], second, k);
    }
  }

  /** With at most k connects in flight together the pool exceeds its size by at most k - 1. */
  lemma {:induction false} OvershootIsBounded(s: Pool, es: seq<Event>, k: nat)
    requires 1 <= k && Legal(s, es) && ConnectsAtMost(s, es, k)
    requires s.createdAt + |s.connecting| <= s.size + k - 1
    ensures var t := Run(s, es);
            t.size == s.size && t.createdAt + |t.connecting| <= s.size + k - 1
    decreases |es|
  {
    if es != [] {
      OvershootIsBounded(Step(s, es[0]), es[1..], k);
    }
  }

  /** A release parks its connection in the idle list only above the intended size; with at most
      k connects in flight fewer than k connections are ever idle, so none with serialised connects. */
  lemma IdleIsOvershoot(size: nat, b: Breaker, es: seq<Event>, k: nat)
    requires 1 <= k && Legal(Empty(size, b), es) && ConnectsAtMost(Empty(size, b), es, k)
    ensures |Run(Empty(size, b), es).idle| <= k - 1
  {
    RunKeepsInvariant(Empty(size, b), es);
    OvershootIsBounded(Empty(size, b), es, k);
  }

  lemma ParksOnlyAboveSize(size: nat, b: Breaker, es: seq<Event>, i: nat, healthy: bool)
    requires Legal(Empty(size, b), es)
    requires var s := Run(Empty(size, b), es);
             Enabled(s, RunRelease(i, healthy)) && Step(s, RunRelease(i, healthy)).idle != s.idle
    ensures Run(Empty(size, b), es).createdAt > size
  {
    var s := Run(Empty(size, b), es);
    RunKeepsInvariant(Empty(size, b), es);
    SizeIsConstant(Empty(size, b), es);
  }

  lemma {:induction false} SizeIsConstant(s: Pool, es: seq<Event>)
    requires Legal(s, es)
    ensures Run(s, es).size == s.size
    decreases |es|
  {
    if es != [] {
      SizeIsConstant(Step(s, es[0]), es[1..]);
    }
  }

  function OpenOneByOne(n: nat): seq<Event> {
    if n == 0 then [] else [Acquire(ForQuery(n), 0), ConnectOk(0)] + OpenOneByOne(n - 1)
  }

  function AskTogether(n: nat): seq<Event> {
    if n == 0 then [] else [Acquire(ForQuery(n), 0)] + AskTogether(n - 1)
  }

  function FinishAll(n: nat): seq<Event> {
    if n == 0 then [] else [ConnectOk(0)] + FinishAll(n - 1)
  }

  ghost predicate Quiet(s: Pool) {
    !s.stopping && s.breaker.phase == Closed && s.idle == []
  }

  lemma {:induction false} OneByOneRun(s: Pool, n: nat, k: nat)
    requires Quiet(s) && s.connecting == [] && s.createdAt + n <= s.size && 1 <= k
    ensures var es := OpenOneByOne(n);
            && Legal(s, es) && ConnectsAtMost(s, es, k)
            && var t := Run(s, es);
               Quiet(t) && t.connecting == [] && t.createdAt == s.createdAt + n && t.size == s.size
    decreases n
  {
    if n > 0 {
      var es := OpenOneByOne(n);
      var mid := Step(s, es[0]);
      assert mid.connecting == [ForQuery(n)];
      var next := Step(mid, es[1]);
      assert es[1..][0] == ConnectOk(0) && es[1..][1..] == OpenOneByOne(n - 1);
      OneByOneRun(next, n - 1, k);
      assert Legal(mid, es[1..]) && ConnectsAtMost(mid, es[1..], k);
    }
  }

  lemma {:induction false} TogetherRun(s: Pool, n: nat, k: nat)
    requires Quiet(s) && s.createdAt < s.size && |s.connecting| + n <= k
    ensures var es := AskTogether(n);
            && Legal(s, es) && ConnectsAtMost(s, es, k)
            && var t := Run(s, es);
               Quiet(t) && |t.connecting| == |s.connecting| + n && t.createdAt == s.createdAt && t.size == s.size
    decreases n
  {
    if n > 0 {
      var es := AskTogether(n);
      assert es[1..] == AskTogether(n - 1);
      TogetherRun(Step(s, es[0]), n - 1, k);
    }
  }

  lemma {:induction false} FinishRun(s: Pool, n: nat, k: nat)
    requires |s.connecting| == n && n <= k
    ensures var es := FinishAll(n);
            && Legal(s, es) && ConnectsAtMost(s, es, k)
            && var t := Run(s, es);
               t.connecting == [] && t.createdAt == s.createdAt + n && t.size == s.size
    decreases n
  {
    if n > 0 {
      var es := FinishAll(n);
      var t := Step(s, es[0]);
      assert es[1..] == FinishAll(n - 1);
      assert |t.connecting| == n - 1 && t.createdAt == s.createdAt + 1 && t.size == s.size;
      FinishRun(t, n - 1, k);
    }
  }

  /** The bound is met for every size and every k: the pool fills up to size - 1, then k clients
      pass the capacity check before any of their connects completes. */
  lemma OvershootIsReached(size: nat, b: Breaker, k: nat) returns (es: seq<Event>)
    requires 1 <= size && 1 <= k && b.phase == Closed
    ensures Legal(Empty(size, b), es) && ConnectsAtMost(Empty(size, b), es, k)
    ensures Run(Empty(size, b), es).createdAt == size + k - 1
  {
    var s0 := Empty(size, b);
    OneByOneRun(s0, size - 1, k);
    var s1 := Run(s0, OpenOneByOne(size - 1));
    TogetherRun(s1, k, k);
    var s2 := Run(s1, AskTogether(k));
    FinishRun(s2, k, k);
    ConnectsAtMostConcat(s1, AskTogether(k), FinishAll(k), k);
    RunConcat(s1, AskTogether(k), FinishAll(k));
    ConnectsAtMostConcat(s0, OpenOneByOne(size - 1), AskTogether(k) + FinishAll(k), k);
    RunConcat(s0, OpenOneByOne(size - 1), AskTogether(k) + FinishAll(k));
    es := OpenOneByOne(size - 1) + (AskTogether(k) + FinishAll(k));
  }

  /** With serialised connects an existing connection is reused only once the pool is full: until
      then every admitted acquire opens a new one, even over a non-empty buffer. */
  lemma GrowsBeforeReuse(size: nat, b: Breaker, es: seq<Event>, client: Client, now: int)
    requires Legal(Empty(size, b), es) && ConnectsAtMost(Empty(size, b), es, 1)
    requires var s := Run(Empty(size, b), es);
             !s.stopping && Admits(s.breaker, now) && s.createdAt < size
    ensures var s := Run(Empty(size, b), es);
            var t := Step(s, Acquire(client, now));
            && t.connecting == s.connecting + [client]
            && t.channel == s.channel && t.leases == s.leases && t.handoff == s.handoff
  {
    IdleIsOvershoot(size, b, es, 1);
    SizeIsConstant(Empty(size, b), es);
  }

  // Waiters

  function Joins(s: Pool, e: Event): seq<Client>
    requires Enabled(s, e)
  {
    if e.Acquire? && |Step(s, e).channel.waiters| > |s.channel.waiters| then [e.client] else []
  }

  function Serves(s: Pool, e: Event): seq<Client>
    requires Enabled(s, e)
  {
    var t := Step(s, e);
    if e.RunRelease? && |t.handoff| > |s.handoff| then [t.handoff[|t.handoff| - 1].client] else []
  }

  function Joined(s: Pool, es: seq<Event>): seq<Client>
    requires Legal(s, es)
    decreases |es|
  {
    if es == [] then [] else Joins(s, es[0]) + Joined(Step(s, es[0]), es[1..])
  }

  function Served(s: Pool, es: seq<Event>): seq<Client>
    requires Legal(s, es)
    decreases |es|
  {
    if es == [] then [] else Serves(s, es[0]) + Served(Step(s, es[0]), es[1..])
  }

  lemma StepServesFirst(s: Pool, e: Event)
    requires Enabled(s, e) && e != Shutdown
    ensures s.channel.waiters + Joins(s, e) == Serves(s, e) + Step(s, e).channel.waiters
  {
  }

  /** First come, first served: on every run before shutdown the clients served by releases are,
      in order, exactly the first of those who queued. */
  lemma {:induction false} WaitersAreServedInOrder(s: Pool, es: seq<Event>)
    requires Legal(s, es) && Shutdown !in es
    ensures s.channel.waiters + Joined(s, es) == Served(s, es) + Run(s, es).channel.waiters
    decreases |es|
  {
    if es != [] {
      var t := Step(s, es[0]);
      var w, w', end := s.channel.waiters, t.channel.waiters, Run(t, es[1..]).channel.waiters;
      StepServesFirst(s, es[0]);
      WaitersAreServedInOrder(t, es[1..]);
      Regroup(w, Joins(s, es[0]), Joined(t, es[1..]), Serves(s, es[0]), w', Served(t, es[1..]), end);
    }
  }

  lemma Regroup<T>(w: seq<T>, j: seq<T>, js: seq<T>, v: seq<T>, w': seq<T>, vs: seq<T>, end: seq<T>)
    requires w + j == v + w' && w' + js == vs + end
    ensures w + (j + js) == (v + vs) + end
  {
    assert w + (j + js) == (w + j) + js;
    assert (v + w') + js == v + (w' + js);
    assert v + (vs + end) == (v + vs) + end;
  }

  /** n healthy releases in a row serve the first n waiters, in queue order. */
  lemma {:induction false} HealthyReleasesServeWaiters(s: Pool, es: seq<Event>)
    requires Legal(s, es) && !s.stopping && Ordered(s) && |es| <= |s.channel.waiters|
    requires forall k :: 0 <= k < |es| ==> es[k].RunRelease? && es[k].healthy
    ensures Served(s, es) == s.channel.waiters[..|es|]
    ensures Run(s, es).channel.waiters == s.channel.waiters[|es|..]
    ensures Run(s, es).idle == s.idle && Run(s, es).channel.buffer == s.channel.buffer
    decreases |es|
  {
    if es != [] {
      var t := Step(s, es[0]);
      assert t.channel.waiters == s.channel.waiters[1..];
      StepKeepsOrdered(s, es[0]);
      HealthyReleasesServeWaiters(t, es[1..]);
      assert s.channel.waiters[..|es|] == [s.channel.waiters[0]] + t.channel.waiters[..|es| - 1];
    }
  }

  // Idle connections are a stack, buffered ones a queue

  /** The run never has fewer than n idle connections. */
  predicate IdleAtLeast(s: Pool, es: seq<Event>, n: nat)
    requires Legal(s, es)
    decreases |es|
  {
    |s.idle| >= n && (es == [] || IdleAtLeast(Step(s, es[0]), es[1..], n))
  }

  lemma {:induction false} DeepIdleStays(s: Pool, es: seq<Event>, n: nat)
    requires Legal(s, es) && IdleAtLeast(s, es, n)
    ensures |Run(s, es).idle| >= n && Run(s, es).idle[..n] == s.idle[..n]
    decreases |es|
  {
    if es != [] {
      DeepIdleStays(Step(s, es[0]), es[1..], n);
    }
  }

  /** The connection parked last is the one an acquire gets next, without connecting or waiting, however
      many others were parked and reused on top of it in between. */
  lemma LastParkedIsReusedFirst(s: Pool, i: nat, es: seq<Event>, client: Client, now: int)
    requires var park := RunRelease(i, true);
             && Enabled(s, park) && Step(s, park).idle != s.idle
             && var t := Step(s, park);
                && Legal(t, es) && IdleAtLeast(t, es, |s.idle| + 1)
                && var u := Run(t, es);
                   |u.idle| == |s.idle| + 1 && !u.stopping && Admits(u.breaker, now)
    ensures var u := Run(Step(s, RunRelease(i, true)), es);
            var v := Step(u, Acquire(client, now));
            && v.leases == u.leases + [Lease(client, s.releasing[i].conn)] && v.idle == s.idle
            && v.connecting == u.connecting && v.handoff == u.handoff && v.channel == u.channel
  {
    var t := Step(s, RunRelease(i, true));
    DeepIdleStays(t, es, |s.idle| + 1);
    var u := Run(t, es);
    assert t.idle == s.idle + [s.releasing[i].conn];
    assert u.idle[..|s.idle| + 1] == u.idle && t.idle[..|s.idle| + 1] == t.idle;
  }

  /** A released connection that went to the buffer, and one that a receiver took from it. */
  function Buffers(s: Pool, e: Event): seq<Conn>
    requires Enabled(s, e)
  {
    if e.RunRelease? && |Step(s, e).channel.buffer| > |s.channel.buffer| then [s.releasing[e.i].conn] else []
  }

  function Takes(s: Pool, e: Event): seq<Conn>
    requires Enabled(s, e)
  {
    var t := Step(s, e);
    if e.Acquire? && |t.handoff| > |s.handoff| then [t.handoff[|t.handoff| - 1].conn] else []
  }

  function Buffered(s: Pool, es: seq<Event>): seq<Conn>
    requires Legal(s, es)
    decreases |es|
  {
    if es == [] then [] else Buffers(s, es[0]) + Buffered(Step(s, es[0]), es[1..])
  }

  function Taken(s: Pool, es: seq<Event>): seq<Conn>
    requires Legal(s, es)
    decreases |es|
  {
    if es == [] then [] else Takes(s, es[0]) + Taken(Step(s, es[0]), es[1..])
  }

  lemma StepTakesFirst(s: Pool, e: Event)
    requires Enabled(s, e)
    ensures s.channel.buffer + Buffers(s, e) == Takes(s, e) + Step(s, e).channel.buffer
  {
  }

  /** On every run, shutdown included, the connections taken from the buffer are, in order, exactly the
      first of those that went there. */
  lemma {:induction false} BufferIsQueue(s: Pool, es: seq<Event>)
    requires Legal(s, es)
    ensures s.channel.buffer + Buffered(s, es) == Taken(s, es) + Run(s, es).channel.buffer
    decreases |es|
  {
    if es != [] {
      var t := Step(s, es[0]);
      var w, w', end := s.channel.buffer, t.channel.buffer, Run(t, es[1..]).channel.buffer;
      StepTakesFirst(s, es[0]);
      BufferIsQueue(t, es[1..]);
      Regroup(w, Buffers(s, es[0]), Buffered(t, es[1..]), Takes(s, es[0]), w', Taken(t, es[1..]), end);
    }
  }

  // Shutdown

  /** The steps the coroutines and handlers of a stopped pool can still take. */
  function Unfinished(s: Pool): nat {
    3 * |s.connecting| + 3 * |s.handoff| + 2 * |s.leases| + |s.releasing|
  }

  function Moves(es: seq<Event>): nat {
    if es == [] then 0 else If(!es[0].Acquire? && es[0] != Shutdown) + Moves(es[1..])
  }

  lemma StoppedStep(s: Pool, e: Event)
    requires s.stopping && Ordered(s) && Enabled(s, e)
    ensures var t := Step(s, e);
            && t.stopping && t.channel.buffer == s.channel.buffer && |t.connecting| <= |s.connecting|
            && Unfinished(t) + If(!e.Acquire? && e != Shutdown) <= Unfinished(s)
            && (e.Acquire? ==> t == s)
  {
    match e
    case ConnectOk(i) => assert |Without(s.connecting, i)| == |s.connecting| - 1;
    case ConnectFail(i, _) => assert |Without(s.connecting, i)| == |s.connecting| - 1;
    case Resume(i) => assert |Without(s.handoff, i)| == |s.handoff| - 1;
    case QueryOk(i) => GiveBackCounts(s, i, true);
    case QueryInfra(i, _) => GiveBackCounts(s, i, false);
    case QueryDbError(i) => GiveBackCounts(s, i, false);
    case TransactionEnds(i, open) => GiveBackCounts(s, i, open);
    case BeginFails(i) => assert |Without(s.leases, i)| == |s.leases| - 1;
    case RunRelease(i, healthy) => assert |Without(s.releasing, i)| == |s.releasing| - 1;
    case _ =>
  }

  /** A stopped pool drains: whatever arrives, its clients take a bounded number of steps, no connect
      begins and no connection is parked or buffered; once no step is left each connection is gone, but for
      those the channel held at shutdown. */
  lemma {:induction false} ShutdownDrains(s: Pool, es: seq<Event>)
    requires s.stopping && Ordered(s) && Legal(s, es)
    ensures var t := Run(s, es);
            && t.stopping && Ordered(t) && t.channel.buffer == s.channel.buffer
            && Moves(es) + Unfinished(t) <= Unfinished(s) && |t.connecting| <= |s.connecting|
            && (Unfinished(t) == 0 ==> forall c: Conn :: Places(t, c) == Occurs(s.channel.buffer, c))
    decreases |es|
  {
    if es != [] {
      StoppedStep(s, es[0]);
      StepKeepsOrdered(s, es[0]);
      ShutdownDrains(Step(s, es[0]), es[1..]);
    }
  }

  /** As long as steps are left one can be taken, so that the longest run has them all taken. */
  lemma StoppedPoolMoves(s: Pool)
    requires Unfinished(s) > 0
    ensures exists e :: Enabled(s, e) && !e.Acquire? && e != Shutdown
  {
    if s.connecting != [] {
      assert Enabled(s, ConnectFail(0, 0));
    } else if s.handoff != [] {
      assert Enabled(s, Resume(0));
    } else if s.leases != [] {
      if s.leases[0].client.ForQuery? {
        assert Enabled(s, QueryOk(0));
      } else {
        assert Enabled(s, TransactionEnds(0, true));
      }
    } else {
      assert Enabled(s, RunRelease(0, false));
    }
  }
}
