/** When the pool is lost: exactly which states never admit an acquire, never give out a lease, or never
    serve a waiter again, and runs that lead into them. */
module PoolLiveness {
  import opened CircuitBreakers
  import opened Pools
  import opened PoolProperties
  import opened PoolRuns
  import opened PoolBreaker

  // What a state holds

  predicate HasOpen(rs: seq<Return>) {
    exists i :: 0 <= i < |rs| && rs[i].open
  }

  predicate QueryAmong(ls: seq<Lease>) {
    exists i :: 0 <= i < |ls| && ls[i].client.ForQuery?
  }

  predicate QueryWaits(cs: seq<Client>) {
    exists i :: 0 <= i < |cs| && cs[i].ForQuery?
  }

  predicate Probing(s: Pool) {
    s.breaker.phase == HalfOpen && s.breaker.probeInflight
  }

  /** In every reachable state a half-open breaker has its probe out. */
  lemma ProbeIsOut(size: nat, threshold: nat, duration: nat, es: seq<Event>)
    requires threshold < COUNTER_MODULUS && Legal(Empty(size, Fresh(threshold, duration)), es)
    ensures var b := Run(Empty(size, Fresh(threshold, duration)), es).breaker;
            b.phase == HalfOpen ==> b.probeInflight
  {
    PoolDrivesBreaker(Empty(size, Fresh(threshold, duration)), es);
    PhaseCountsFailures(threshold, duration, BreakerLog(Empty(size, Fresh(threshold, duration)), es));
  }

  // A failed statement closes its connection

  /** After a query that ended in an exception, of either kind, the release handler of its connection can
      only find it unhealthy: it drops the connection and wakes nobody. */
  lemma FailedQueryWakesNobody(s: Pool, e: Event, healthy: bool)
    requires Enabled(s, e) && (e.QueryDbError? || e.QueryInfra?)
    requires Enabled(Step(s, e), RunRelease(|s.releasing|, healthy))
    ensures var t := Step(s, e);
            var u := Step(t, RunRelease(|s.releasing|, healthy));
            && !healthy && u == t.(releasing := s.releasing, createdAt := Decrement(s.createdAt))
  {
    assert Without(Step(s, e).releasing, |s.releasing|) == s.releasing;
  }

  lemma OneStep(s: Pool, e: Event)
    requires Enabled(s, e)
    ensures Legal(s, [e]) && Run(s, [e]) == Step(s, e) && Granted(s, [e]) == Grants(s, e)
  {
    assert [e][1..] == [];
    assert Legal(Step(s, e), [e][1..]) && Run(Step(s, e), [e][1..]) == Step(s, e);
    assert Granted(s, [e]) == Grants(s, e) + [];
  }

  // Never admitting again

  /** The probe is out, and no query is left or can be resumed whose outcome could reach the breaker:
      nothing connects, no query holds a lease or is about to, and no query waits that a release could
      serve. Transactions never report to the breaker. */
  predicate Locked(s: Pool) {
    && Probing(s)
    && s.connecting == [] && !QueryAmong(s.leases) && !QueryAmong(s.handoff)
    && (!QueryWaits(s.channel.waiters) || (s.leases == [] && s.handoff == [] && !HasOpen(s.releasing)))
  }

  lemma StepKeepsLocked(s: Pool, e: Event)
    requires Locked(s) && Enabled(s, e)
    ensures Locked(Step(s, e)) && (e.Acquire? ==> Step(s, e) == s)
  {
  }

  /** A locked pool refuses every acquire at every later time, whatever else happens. */
  lemma {:induction false} LockedForever(s: Pool, es: seq<Event>)
    requires Locked(s) && Legal(s, es)
    ensures Locked(Run(s, es)) && AdmittedAcquires(s, es) == []
    decreases |es|
  {
    if es != [] {
      StepKeepsLocked(s, es[0]);
      LockedForever(Step(s, es[0]), es[1..]);
    }
  }

  lemma Prepend(s: Pool, e: Event, es: seq<Event>)
    requires Enabled(s, e) && Legal(Step(s, e), es)
    ensures Legal(s, [e] + es) && Run(s, [e] + es) == Run(Step(s, e), es)
    ensures AdmittedAcquires(Step(s, e), es) != [] ==> AdmittedAcquires(s, [e] + es) != []
    ensures Granted(s, [e] + es) == Grants(s, e) + Granted(Step(s, e), es)
    ensures Served(s, [e] + es) == Serves(s, e) + Served(Step(s, e), es)
  {
    assert ([e] + es)[1..] == es;
  }

  lemma AfterSuccess(s: Pool, e: Event) returns (es: seq<Event>)
    requires Enabled(s, e) && (e.ConnectOk? || e.QueryOk?) && !s.stopping
    ensures Legal(s, es) && AdmittedAcquires(s, es) != []
  {
    var ask := Acquire(ForQuery(0), 0);
    var t := Step(s, e);
    OneStep(t, ask);
    assert [ask][1..] == [];
    assert AdmittedAcquires(t, [ask]) == [0] + AdmittedAcquires(Step(t, ask), []);
    Prepend(s, e, [ask]);
    es := [e] + [ask];
  }

  lemma AfterQueryResumes(s: Pool, i: nat) returns (es: seq<Event>)
    requires !s.stopping && i < |s.handoff| && s.handoff[i].client.ForQuery?
    ensures Legal(s, es) && AdmittedAcquires(s, es) != []
  {
    es := AfterSuccess(Step(s, Resume(i)), QueryOk(|s.leases|));
    Prepend(s, Resume(i), es);
    es := [Resume(i)] + es;
  }

  /** How far lease or connection is from serving a waiter. */
  function Stage(s: Pool): nat {
    if HasOpen(s.releasing) then 0 else if s.leases != [] then 1 else if s.handoff != [] then 2 else 3
  }

  /** What ends the first lease well. */
  function EndsWell(s: Pool): Event
    requires s.leases != []
  {
    if s.leases[0].client.ForQuery? then QueryOk(0) else TransactionEnds(0, true)
  }

  lemma EndsWellOpens(s: Pool)
    requires s.leases != []
    ensures var t := Step(s, EndsWell(s));
            Enabled(s, EndsWell(s)) && t.releasing == s.releasing + [Return(s.leases[0].conn, true)]
                && HasOpen(t.releasing)
            && t.channel == s.channel && t.handoff == s.handoff && t.stopping == s.stopping
  {
    assert (s.releasing + [Return(s.leases[0].conn, true)])[|s.releasing|].open;
  }

  /** A query that waits gets its turn, through any number of transactions before it. */
  lemma AfterQueryWaits(s: Pool) returns (es: seq<Event>)
    requires !s.stopping && !s.channel.closed && QueryWaits(s.channel.waiters)
    requires HasOpen(s.releasing) || s.leases != [] || s.handoff != []
    ensures Legal(s, es) && AdmittedAcquires(s, es) != []
    decreases |s.channel.waiters|, Stage(s)
  {
    var e: Event;
    if HasOpen(s.releasing) {
      var i :| 0 <= i < |s.releasing| && s.releasing[i].open;
      e := RunRelease(i, true);
      var t := Step(s, e);
      var w := s.channel.waiters;
      assert t.channel.waiters == w[1..] && t.handoff == s.handoff + [Lease(w[0], s.releasing[i].conn)];
      if w[0].ForQuery? {
        es := AfterQueryResumes(t, |s.handoff|);
      } else {
        var k :| 0 <= k < |w| && w[k].ForQuery?;
        assert w[1..][k - 1].ForQuery?;
        es := AfterQueryWaits(t);
      }
    } else if s.leases != [] {
      e := EndsWell(s);
      EndsWellOpens(s);
      es := AfterQueryWaits(Step(s, e));
    } else {
      e := Resume(0);
      es := AfterQueryWaits(Step(s, e));
    }
    Prepend(s, e, es);
    es := [e] + es;
  }

  lemma WayOut(s: Pool) returns (es: seq<Event>)
    requires !s.stopping && !s.channel.closed && Probing(s) && !Locked(s)
    ensures Legal(s, es) && AdmittedAcquires(s, es) != []
  {
    if s.connecting != [] {
      es := AfterSuccess(s, ConnectOk(0));
    } else if QueryAmong(s.leases) {
      var i :| 0 <= i < |s.leases| && s.leases[i].client.ForQuery?;
      es := AfterSuccess(s, QueryOk(i));
    } else if QueryAmong(s.handoff) {
      var i :| 0 <= i < |s.handoff| && s.handoff[i].client.ForQuery?;
      es := AfterQueryResumes(s, i);
    } else {
      es := AfterQueryWaits(s);
    }
  }

  /** Exactly when a half-open pool never admits an acquire again, on any run: when it is locked. */
  lemma NeverAdmitsIff(size: nat, threshold: nat, duration: nat, earlier: seq<Event>)
    requires threshold < COUNTER_MODULUS && Legal(Empty(size, Fresh(threshold, duration)), earlier)
    requires var s := Run(Empty(size, Fresh(threshold, duration)), earlier);
             !s.stopping && s.breaker.phase == HalfOpen
    ensures var s := Run(Empty(size, Fresh(threshold, duration)), earlier);
            (forall es :: Legal(s, es) ==> AdmittedAcquires(s, es) == []) <==> Locked(s)
  {
    var s := Run(Empty(size, Fresh(threshold, duration)), earlier);
    RunKeepsInvariant(Empty(size, Fresh(threshold, duration)), earlier);
    ProbeIsOut(size, threshold, duration, earlier);
    if Locked(s) {
      forall es | Legal(s, es)
        ensures AdmittedAcquires(s, es) == []
      {
        LockedForever(s, es);
      }
    } else {
      var es := WayOut(s);
    }
  }

  /** Exactly when a DbError of a query locks a half-open pool: when no other query has a lease or is
      about to, and no query waits that an open connection could still serve. */
  lemma DbErrorLocksIff(s: Pool, i: nat)
    requires Probing(s) && Enabled(s, QueryDbError(i))
    ensures Locked(Step(s, QueryDbError(i)))
            <==> && s.connecting == [] && !QueryAmong(s.handoff)
                 && (forall j :: 0 <= j < |s.leases| && j != i ==> s.leases[j].client.ForTransaction?)
                 && (!QueryWaits(s.channel.waiters) || (|s.leases| == 1 && s.handoff == [] && !HasOpen(s.releasing)))
  {
    var t := Step(s, QueryDbError(i));
    OthersRemain(s.leases, i);
    assert forall j :: 0 <= j < |s.releasing| ==> t.releasing[j] == s.releasing[j];
    assert HasOpen(t.releasing) <==> HasOpen(s.releasing);
  }

  lemma OthersRemain(ls: seq<Lease>, i: nat)
    requires i < |ls|
    ensures QueryAmong(Without(ls, i)) <==> exists j :: 0 <= j < |ls| && j != i && ls[j].client.ForQuery?
    ensures Without(ls, i) == [] <==> |ls| == 1
  {
    var rest := Without(ls, i);
    if QueryAmong(rest) {
      var k :| 0 <= k < |rest| && rest[k].client.ForQuery?;
      assert rest[k] == ls[if k < i then k else k + 1];
    }
    if j :| 0 <= j < |ls| && j != i && ls[j].client.ForQuery? {
      assert rest[if j < i then j else j - 1] == ls[j];
    }
  }

  /** When the probe is the only work, its DbError locks the pool for ever, even if clients wait. */
  lemma DbErrorOfLastProbeLocks(s: Pool, es: seq<Event>)
    requires Probing(s) && |s.leases| == 1 && s.leases[0].client.ForQuery?
    requires s.connecting == [] && s.handoff == [] && !HasOpen(s.releasing)
    requires Legal(Step(s, QueryDbError(0)), es)
    ensures var t := Step(s, QueryDbError(0));
            Locked(t) && Locked(Run(t, es)) && AdmittedAcquires(t, es) == []
  {
    DbErrorLocksIff(s, 0);
    LockedForever(Step(s, QueryDbError(0)), es);
  }

  /** A transaction as the probe locks the pool at once, when it reuses a connection and no query is under
      way: whether it then succeeds or not, nobody reports to the breaker. */
  lemma TransactionProbeLocks(s: Pool, id: nat, now: int)
    requires !s.stopping && s.breaker.phase == Open && Admits(s.breaker, now)
    requires s.connecting == [] && !QueryAmong(s.leases) && !QueryAmong(s.handoff) && !QueryWaits(s.channel.waiters)
    requires s.idle != [] || s.size <= s.createdAt
    ensures Locked(Step(s, Acquire(ForTransaction(id), now)))
  {
  }

  // Never giving out a lease again

  /** The clients that get a lease. */
  function Grants(s: Pool, e: Event): seq<Client>
    requires Enabled(s, e)
  {
    var t := Step(s, e);
    if |t.leases| > |s.leases| then [t.leases[|t.leases| - 1].client] else []
  }

  function Granted(s: Pool, es: seq<Event>): seq<Client>
    requires Legal(s, es)
    decreases |es|
  {
    if es == [] then [] else Grants(s, es[0]) + Granted(Step(s, es[0]), es[1..])
  }

  /** Nobody has, opens or can hand on an open connection. */
  predicate NothingUsable(s: Pool) {
    && s.idle == [] && s.channel.buffer == [] && s.connecting == [] && s.handoff == [] && s.leases == []
    && !HasOpen(s.releasing)
  }

  /** No usable connection, and as many dropped leases as the pool has places. */
  predicate Starved(s: Pool) {
    NothingUsable(s) && s.size <= s.leaked
  }

  /** Locked, and no client is handed a connection or waits for one that could still come. */
  predicate Sealed(s: Pool) {
    && Locked(s) && s.handoff == []
    && (s.channel.waiters == [] || (s.leases == [] && !HasOpen(s.releasing)))
  }

  lemma StepKeepsSealed(s: Pool, e: Event)
    requires Sealed(s) && Enabled(s, e) && e != Shutdown
    ensures Sealed(Step(s, e)) && Grants(s, e) == []
  {
    StepKeepsLocked(s, e);
  }

  lemma StepKeepsStarved(s: Pool, e: Event)
    requires Starved(s) && Counted(s) && Ordered(s) && !s.stopping && Enabled(s, e) && e != Shutdown
    ensures Starved(Step(s, e)) && !Step(s, e).stopping && Grants(s, e) == []
  {
  }

  lemma {:induction false} SealedForever(s: Pool, es: seq<Event>)
    requires Sealed(s) && Legal(s, es) && Shutdown !in es
    ensures Granted(s, es) == []
    decreases |es|
  {
    if es != [] {
      StepKeepsSealed(s, es[0]);
      SealedForever(Step(s, es[0]), es[1..]);
    }
  }

  /** Once as many leases were dropped as the pool has places and no usable connection is left, no client
      gets a lease again before shutdown: every admitted acquire waits for ever. */
  lemma {:induction false} StarvedForever(s: Pool, es: seq<Event>)
    requires Starved(s) && Counted(s) && Ordered(s) && !s.stopping && Legal(s, es) && Shutdown !in es
    ensures Granted(s, es) == [] && Starved(Run(s, es))
    decreases |es|
  {
    if es != [] {
      StepKeepsStarved(s, es[0]);
      StepCounts(s, es[0]);
      StepKeepsOrdered(s, es[0]);
      StarvedForever(Step(s, es[0]), es[1..]);
    }
  }

  /** Neither an acquire nor shutdown. */
  predicate OnlyOldWork(es: seq<Event>) {
    forall e :: e in es ==> !e.Acquire? && !e.Shutdown?
  }

  /** A waiter gets a connection and its lease, without any further acquire. */
  lemma ServesWaiter(s: Pool) returns (es: seq<Event>)
    requires !s.stopping && !s.channel.closed && s.channel.waiters != []
    requires HasOpen(s.releasing) || s.leases != [] || s.handoff != [] || s.connecting != []
    ensures Legal(s, es) && OnlyOldWork(es) && Served(s, es) != [] && Granted(s, es) != []
    decreases Stage(s)
  {
    var e: Event;
    if HasOpen(s.releasing) {
      var i :| 0 <= i < |s.releasing| && s.releasing[i].open;
      e := RunRelease(i, true);
      var t := Step(s, e);
      assert t.handoff == s.handoff + [Lease(s.channel.waiters[0], s.releasing[i].conn)];
      OneStep(t, Resume(|s.handoff|));
      es := [Resume(|s.handoff|)];
    } else if s.leases != [] {
      e := EndsWell(s);
      EndsWellOpens(s);
      es := ServesWaiter(Step(s, e));
    } else if s.handoff != [] {
      e := Resume(0);
      es := ServesWaiter(Step(s, e));
    } else {
      e := ConnectOk(0);
      es := ServesWaiter(Step(s, e));
    }
    Prepend(s, e, es);
    es := [e] + es;
  }

  /** From a pool without usable connections that has room: the queued releases, then a new connection. */
  lemma FreshAfterDrops(s: Pool) returns (es: seq<Event>)
    requires !s.stopping && Counted(s) && Ordered(s) && s.breaker.phase != HalfOpen
    requires NothingUsable(s) && s.leaked < s.size
    ensures Legal(s, es) && Shutdown !in es && Granted(s, es) != []
    decreases |s.releasing|
  {
    var e: Event;
    if s.releasing != [] {
      e := RunRelease(0, false);
      StepCounts(s, e);
      StepKeepsOrdered(s, e);
      es := FreshAfterDrops(Step(s, e));
    } else {
      e := Acquire(ForQuery(0), s.breaker.openUntil);
      OneStep(Step(s, e), ConnectOk(0));
      es := [ConnectOk(0)];
    }
    Prepend(s, e, es);
    es := [e] + es;
  }

  lemma AdmittedGetsLease(s: Pool) returns (es: seq<Event>)
    requires !s.stopping && Counted(s) && Ordered(s) && s.breaker.phase != HalfOpen && !Starved(s)
    requires s.connecting == [] && s.handoff == []
    requires s.channel.waiters == [] || (s.leases == [] && !HasOpen(s.releasing))
    ensures Legal(s, es) && Shutdown !in es && Granted(s, es) != []
  {
    if NothingUsable(s) {
      es := FreshAfterDrops(s);
      return;
    }
    var e := Acquire(ForQuery(0), s.breaker.openUntil);
    var t := Step(s, e);
    if s.idle != [] {
      OneStep(s, e);
      return [e];
    }
    if s.createdAt < s.size {
      OneStep(t, ConnectOk(0));
      es := [ConnectOk(0)];
    } else if s.channel.buffer != [] {
      OneStep(t, Resume(0));
      es := [Resume(0)];
    } else {
      es := ServesWaiter(t);
    }
    Prepend(s, e, es);
    es := [e] + es;
  }

  lemma SomebodyGetsLease(s: Pool) returns (es: seq<Event>)
    requires !s.stopping && Counted(s) && Ordered(s) && (s.breaker.phase == HalfOpen ==> s.breaker.probeInflight)
    requires !Starved(s) && !Sealed(s)
    ensures Legal(s, es) && Shutdown !in es && Granted(s, es) != []
  {
    if s.connecting != [] {
      OneStep(s, ConnectOk(0));
      es := [ConnectOk(0)];
    } else if s.handoff != [] {
      OneStep(s, Resume(0));
      es := [Resume(0)];
    } else if s.channel.waiters != [] && (s.leases != [] || HasOpen(s.releasing)) {
      es := ServesWaiter(s);
    } else if !Probing(s) {
      es := AdmittedGetsLease(s);
    } else {
      var i :| 0 <= i < |s.leases| && s.leases[i].client.ForQuery?;
      var e := QueryOk(i);
      var t := Step(s, e);
      assert t.releasing[|s.releasing|].open;
      StepCounts(s, e);
      StepKeepsOrdered(s, e);
      es := AdmittedGetsLease(t);
      Prepend(s, e, es);
      es := [e] + es;
    }
  }

  /** Exactly when no client ever gets a lease again before shutdown, whatever happens: when the pool is
      starved, or locked with nothing on its way to a waiter. */
  lemma NoMoreLeasesIff(size: nat, threshold: nat, duration: nat, earlier: seq<Event>)
    requires threshold < COUNTER_MODULUS && Legal(Empty(size, Fresh(threshold, duration)), earlier)
    requires !Run(Empty(size, Fresh(threshold, duration)), earlier).stopping
    ensures var s := Run(Empty(size, Fresh(threshold, duration)), earlier);
            (forall es :: Legal(s, es) && Shutdown !in es ==> Granted(s, es) == []) <==> Starved(s) || Sealed(s)
  {
    var s := Run(Empty(size, Fresh(threshold, duration)), earlier);
    RunKeepsInvariant(Empty(size, Fresh(threshold, duration)), earlier);
    ProbeIsOut(size, threshold, duration, earlier);
    if Starved(s) || Sealed(s) {
      forall es | Legal(s, es) && Shutdown !in es
        ensures Granted(s, es) == []
      {
        if Starved(s) {
          StarvedForever(s, es);
        } else {
          SealedForever(s, es);
        }
      }
    } else {
      var es := SomebodyGetsLease(s);
    }
  }

  // Never serving a waiter without a new acquire

  /** Nothing connects, is handed over or leased, and no open connection is queued for release. */
  predicate NothingComes(s: Pool) {
    s.connecting == [] && s.handoff == [] && s.leases == [] && !HasOpen(s.releasing)
  }

  lemma StepKeepsNothingComes(s: Pool, e: Event)
    requires NothingComes(s) && Enabled(s, e) && !e.Acquire? && !e.Shutdown?
    ensures NothingComes(Step(s, e)) && Serves(s, e) == [] && Step(s, e).channel == s.channel
  {
  }

  lemma {:induction false} NobodyIsServed(s: Pool, es: seq<Event>)
    requires NothingComes(s) && Legal(s, es) && OnlyOldWork(es)
    ensures Served(s, es) == [] && Run(s, es).channel == s.channel
    decreases |es|
  {
    if es != [] {
      StepKeepsNothingComes(s, es[0]);
      NobodyIsServed(Step(s, es[0]), es[1..]);
    }
  }

  /** Exactly when the clients that wait are stranded until somebody else acquires: when nothing comes. */
  lemma StrandedIff(size: nat, b: Breaker, earlier: seq<Event>)
    requires Legal(Empty(size, b), earlier)
    requires var s := Run(Empty(size, b), earlier); !s.stopping && s.channel.waiters != []
    ensures var s := Run(Empty(size, b), earlier);
            (forall es :: Legal(s, es) && OnlyOldWork(es) ==> Served(s, es) == []) <==> NothingComes(s)
  {
    var s := Run(Empty(size, b), earlier);
    RunKeepsInvariant(Empty(size, b), earlier);
    if NothingComes(s) {
      forall es | Legal(s, es) && OnlyOldWork(es)
        ensures Served(s, es) == []
      {
        NobodyIsServed(s, es);
      }
    } else {
      var es := ServesWaiter(s);
    }
  }

  /** n clients connect one by one and keep their leases. */
  function HoldAll(n: nat): seq<Event> {
    if n == 0 then [] else [Acquire(ForQuery(n), 0)] + ([ConnectOk(0)] + HoldAll(n - 1))
  }

  /** n queries end in a DbError and their connections are dropped. */
  function FailAll(n: nat): seq<Event> {
    if n == 0 then [] else [QueryDbError(0)] + ([RunRelease(0, false)] + FailAll(n - 1))
  }

  predicate OnlyQueries(ls: seq<Lease>) {
    forall i :: 0 <= i < |ls| ==> ls[i].client.ForQuery?
  }

  lemma {:induction false} HoldRun(s: Pool, n: nat) returns (t: Pool)
    requires Quiet(s) && s.connecting == [] && s.createdAt + n <= s.size && OnlyQueries(s.leases)
    ensures Legal(s, HoldAll(n)) && Run(s, HoldAll(n)) == t
    ensures Quiet(t) && OnlyQueries(t.leases) && |t.leases| == |s.leases| + n
    ensures t.createdAt == s.createdAt + n && t.size == s.size && t.connecting == []
    ensures t.channel == s.channel && t.handoff == s.handoff && t.releasing == s.releasing
    decreases n
  {
    t := s;
    if n > 0 {
      var ask := Acquire(ForQuery(n), 0);
      var u := Step(s, ask);
      t := HoldRun(Step(u, ConnectOk(0)), n - 1);
      Prepend(u, ConnectOk(0), HoldAll(n - 1));
      Prepend(s, ask, [ConnectOk(0)] + HoldAll(n - 1));
    }
  }

  lemma {:induction false} FailRun(s: Pool, n: nat) returns (t: Pool)
    requires !s.stopping && OnlyQueries(s.leases) && |s.leases| == n && s.releasing == [] && s.createdAt == n
    ensures Legal(s, FailAll(n)) && Run(s, FailAll(n)) == t
    ensures t == s.(leases := [], createdAt := 0)
    decreases n
  {
    t := s;
    if n > 0 {
      var u := Step(s, QueryDbError(0));
      var v := Step(u, RunRelease(0, false));
      assert v == s.(leases := s.leases[1..], createdAt := n - 1);
      t := FailRun(v, n - 1);
      Prepend(u, RunRelease(0, false), FailAll(n - 1));
      Prepend(s, QueryDbError(0), [RunRelease(0, false)] + FailAll(n - 1));
    }
  }

  /** Stranding is reached for every size, by DbErrors alone: `size` queries hold the connections, one more
      client waits, all queries fail; then the pool is empty, has room, admits, and the client still waits,
      with nothing left to happen but a further acquire or shutdown. */
  lemma StrandingIsReached(size: nat, b: Breaker) returns (es: seq<Event>)
    requires 1 <= size && b.phase == Closed
    ensures Legal(Empty(size, b), es)
    ensures var s := Run(Empty(size, b), es);
            && s.channel.waiters == [ForQuery(0)] && NothingComes(s) && s.createdAt == 0
            && !s.stopping && s.breaker.phase == Closed
            && forall e :: Enabled(s, e) ==> e.Acquire? || e.Shutdown?
  {
    var s0 := Empty(size, b);
    var s1 := HoldRun(s0, size);
    var ask := Acquire(ForQuery(0), 0);
    var s2 := Step(s1, ask);
    var s3 := FailRun(s2, size);
    Prepend(s1, ask, FailAll(size));
    RunConcat(s0, HoldAll(size), [ask] + FailAll(size));
    es := HoldAll(size) + ([ask] + FailAll(size));
  }

  // Runs into starvation and into the lock

  function DropAll(n: nat): seq<Event> {
    if n == 0 then [] else [Acquire(ForTransaction(n), 0)] + ([ConnectOk(0)] + ([BeginFails(0)] + DropAll(n - 1)))
  }

  lemma {:induction false} DropRun(s: Pool, n: nat)
    requires Quiet(s) && NothingUsable(s) && s.releasing == [] && s.leaked + n == s.size && s.createdAt == s.leaked
    ensures Legal(s, DropAll(n)) && Starved(Run(s, DropAll(n)))
    decreases n
  {
    if n > 0 {
      var s1 := Step(s, Acquire(ForTransaction(n), 0));
      var s2 := Step(s1, ConnectOk(0));
      assert s2.leases == [Lease(ForTransaction(n), s.nextConn)];
      DropRun(Step(s2, BeginFails(0)), n - 1);
      Prepend(s2, BeginFails(0), DropAll(n - 1));
      Prepend(s1, ConnectOk(0), [BeginFails(0)] + DropAll(n - 1));
      Prepend(s, Acquire(ForTransaction(n), 0), [ConnectOk(0)] + ([BeginFails(0)] + DropAll(n - 1)));
    }
  }

  /** `size` failed BEGINs starve the pool, whatever its size. */
  lemma FailedBeginsStarve(size: nat, b: Breaker)
    requires b.phase == Closed
    ensures Legal(Empty(size, b), DropAll(size)) && Starved(Run(Empty(size, b), DropAll(size)))
  {
    DropRun(Empty(size, b), size);
  }

  function FailConnects(n: nat): seq<Event> {
    if n == 0 then [] else [ConnectFail(0, 0)] + FailConnects(n - 1)
  }

  const PROBE_FAILS: seq<Event> := [Acquire(ForQuery(0), OPEN_DURATION)] + ([Resume(0)] + [QueryDbError(0)])

  const ONE_SUCCEEDS: seq<Event> := [ConnectOk(0)] + ([QueryOk(0)] + [RunRelease(0, true)])

  /** A run from the empty pool of one place into the lock: six clients connect at once, one succeeds,
      queries and gives its connection back, five fail and open the breaker; after three seconds a
      probe reuses the buffered connection and its query ends in a DbError. */
  const LOCKING_RUN: seq<Event> := AskTogether(6) + (ONE_SUCCEEDS + (FailConnects(5) + PROBE_FAILS))

  lemma LockIsReached()
    ensures var s := Empty(1, Fresh(FAILURE_THRESHOLD, OPEN_DURATION));
            Legal(s, LOCKING_RUN) && Locked(Run(s, LOCKING_RUN))
  {
    var s := Empty(1, Fresh(FAILURE_THRESHOLD, OPEN_DURATION));
    var s1 := AsksRun(s, 6);
    var s2 := SuccessRun(s1);
    assert Failing(s2, 0) == s2;
    FailuresRun(s2, 0);
    var s3 := Failing(s2, 5);
    ProbeRun(s3);
    RunConcat(s2, FailConnects(5), PROBE_FAILS);
    RunConcat(s1, ONE_SUCCEEDS, FailConnects(5) + PROBE_FAILS);
    RunConcat(s, AskTogether(6), ONE_SUCCEEDS + (FailConnects(5) + PROBE_FAILS));
  }

  lemma {:induction false} AsksRun(s: Pool, n: nat) returns (t: Pool)
    requires Quiet(s) && s.createdAt < s.size && forall i :: 0 <= i < |s.connecting| ==> s.connecting[i].ForQuery?
    ensures Legal(s, AskTogether(n)) && Run(s, AskTogether(n)) == t
    ensures t == s.(connecting := t.connecting) && |t.connecting| == |s.connecting| + n
    ensures forall i :: 0 <= i < |t.connecting| ==> t.connecting[i].ForQuery?
    decreases n
  {
    t := s;
    if n > 0 {
      var ask := Acquire(ForQuery(n), 0);
      t := AsksRun(Step(s, ask), n - 1);
      Prepend(s, ask, AskTogether(n - 1));
    }
  }

  lemma SuccessRun(s: Pool) returns (t: Pool)
    requires s.connecting != [] && s.connecting[0].ForQuery? && s.leases == [] && s.releasing == [] && !s.stopping
    requires s.breaker == Fresh(FAILURE_THRESHOLD, OPEN_DURATION)
    requires !s.channel.closed && s.channel.waiters == [] && s.channel.buffer == [] && s.channel.capacity == 1
    ensures Legal(s, ONE_SUCCEEDS) && Run(s, ONE_SUCCEEDS) == t
    ensures t == s.(connecting := s.connecting[1..], createdAt := s.createdAt + 1, nextConn := s.nextConn + 1,
                    channel := s.channel.(buffer := [s.nextConn]))
  {
    var u, v := AfterConnect(s), AfterQuery(s);
    FirstTwo(s);
    t := Step(v, RunRelease(0, true));
    OneStep(v, RunRelease(0, true));
    Prepend(u, QueryOk(0), [RunRelease(0, true)]);
    Prepend(s, ConnectOk(0), [QueryOk(0)] + [RunRelease(0, true)]);
  }

  function AfterConnect(s: Pool): Pool
    requires s.connecting != []
  {
    s.(connecting := s.connecting[1..], createdAt := s.createdAt + 1, nextConn := s.nextConn + 1,
    leases := [Lease(s.connecting[0], s.nextConn)])
  }

  function AfterQuery(s: Pool): Pool
    requires s.connecting != []
  {
    AfterConnect(s).(leases := [], releasing := [Return(s.nextConn, true)])
  }

  lemma FirstTwo(s: Pool)
    requires s.connecting != [] && s.connecting[0].ForQuery? && s.leases == [] && s.releasing == []
    requires s.breaker == Fresh(FAILURE_THRESHOLD, OPEN_DURATION)
    ensures Step(s, ConnectOk(0)) == AfterConnect(s) && Step(AfterConnect(s), QueryOk(0)) == AfterQuery(s)
  {
    assert Without(AfterConnect(s).leases, 0) == [];
  }

  /** The pool after i of five failed connects. */
  function Failing(s: Pool, i: nat): Pool
    requires i <= |s.connecting|
  {
    s.(connecting := s.connecting[i..],
    breaker := if i < 5 then s.breaker.(consecutiveFailures := i)
    else s.breaker.(phase := Open, consecutiveFailures := 5, openUntil := OPEN_DURATION))
  }

  lemma FailsOnce(s: Pool, i: nat)
    requires i < 5 && |s.connecting| == 5 && s.breaker == Fresh(FAILURE_THRESHOLD, OPEN_DURATION)
    ensures Step(Failing(s, i), ConnectFail(0, 0)) == Failing(s, i + 1)
  {
    assert Without(Failing(s, i).connecting, 0) == s.connecting[i + 1..];
  }

  lemma {:induction false} FailuresRun(s: Pool, i: nat)
    requires i <= 5 && |s.connecting| == 5 && s.breaker == Fresh(FAILURE_THRESHOLD, OPEN_DURATION)
    ensures Legal(Failing(s, i), FailConnects(5 - i)) && Run(Failing(s, i), FailConnects(5 - i)) == Failing(s, 5)
    decreases 5 - i
  {
    if i < 5 {
      FailsOnce(s, i);
      FailuresRun(s, i + 1);
      Prepend(Failing(s, i), ConnectFail(0, 0), FailConnects(5 - (i + 1)));
    }
  }

  lemma ProbeRun(s: Pool)
    requires !s.stopping && s.idle == [] && s.size <= s.createdAt && |s.channel.buffer| == 1 && s.channel.waiters == []
    requires s.connecting == [] && s.handoff == [] && s.leases == [] && s.releasing == []
    requires s.breaker.phase == Open && s.breaker.openUntil == OPEN_DURATION
    ensures Legal(s, PROBE_FAILS) && Locked(Run(s, PROBE_FAILS))
  {
    var ask := Acquire(ForQuery(0), OPEN_DURATION);
    var u := Step(s, ask);
    var lease := Lease(ForQuery(0), s.channel.buffer[0]);
    assert u.handoff == [lease] && Probing(u);
    var v := Step(u, Resume(0));
    HandedOver(u, lease);
    DbErrorLocksIff(v, 0);
    OneStep(v, QueryDbError(0));
    Prepend(u, Resume(0), [QueryDbError(0)]);
    Prepend(s, ask, [Resume(0)] + [QueryDbError(0)]);
  }

  lemma HandedOver(u: Pool, lease: Lease)
    requires u.handoff == [lease] && u.leases == []
    ensures Step(u, Resume(0)) == u.(handoff := [], leases := [lease])
  {
    assert Without(u.handoff, 0) == [];
  }

}
