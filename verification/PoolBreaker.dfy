/** The breaker inside the pool: the pool's runs drive it by a log of calls, so the theorems about
    logs hold of pools; and the ways a half-open episode can end, or fail to. Also the ledger of
    leases: each one granted is given back once, dropped, or still held. */
module PoolBreaker {
  import opened Options
  import opened CircuitBreakers
  import opened Pools
  import opened PoolProperties

  /** The breaker calls of one event. */
  function CallsOf(s: Pool, e: Event): seq<Call> {
    match e
    case Acquire(_, now) => if s.stopping then [] else [Ask(now)]
    case ConnectOk(_) => [Success]
    case ConnectFail(_, now) => [Failure(now)]
    case QueryOk(_) => [Success]
    case QueryInfra(_, now) => [Failure(now)]
    case _ => []
  }

  function BreakerLog(s: Pool, es: seq<Event>): seq<Call>
    requires Legal(s, es)
    decreases |es|
  {
    if es == [] then [] else CallsOf(s, es[0]) + BreakerLog(Step(s, es[0]), es[1..])
  }

  /** The times of the acquires that got past the breaker. */
  function AdmittedAcquires(s: Pool, es: seq<Event>): seq<int>
    requires Legal(s, es)
    decreases |es|
  {
    if es == [] then []
    else
      var e := es[0];
      (if e.Acquire? && !s.stopping && Admits(s.breaker, e.now) then [e.now] else [])
      + AdmittedAcquires(Step(s, e), es[1..])
  }

  lemma {:induction false} AdmissionsSplit(b: Breaker, first: seq<Call>, second: seq<Call>)
    ensures Admissions(b, first + second) == Admissions(b, first) + Admissions(AfterLog(b, first), second)
  {
    if second == [] {
      assert first + second == first;
    } else {
      var n := |second| - 1;
      assert (first + second)[..|first| + n] == first + second[..n];
      LogSplits(b, first, second[..n]);
      AdmissionsSplit(b, first, second[..n]);
    }
  }

  lemma OneCall(b: Breaker, c: Call)
    ensures AfterLog(b, [c]) == AfterCall(b, c)
    ensures Admissions(b, [c]) == if c.Ask? && Admits(b, c.now) then [c.now] else []
  {
    assert [c][..0] == [];
    assert AfterLog(b, [c][..0]) == b && Admissions(b, [c][..0]) == [];
  }

  /** The pool's breaker is the breaker run on the log of the pool's calls, and its admissions are
      the acquires the pool lets through. */
  lemma {:induction false} PoolDrivesBreaker(s: Pool, es: seq<Event>)
    requires Legal(s, es)
    ensures Run(s, es).breaker == AfterLog(s.breaker, BreakerLog(s, es))
    ensures AdmittedAcquires(s, es) == Admissions(s.breaker, BreakerLog(s, es))
    decreases |es|
  {
    if es != [] {
      var t, calls := Step(s, es[0]), CallsOf(s, es[0]);
      var rest := BreakerLog(t, es[1..]);
      PoolDrivesBreaker(t, es[1..]);
      LogSplits(s.breaker, calls, rest);
      AdmissionsSplit(s.breaker, calls, rest);
      if calls != [] {
        OneCall(s.breaker, calls[0]);
        assert calls == [calls[0]];
      }
      assert t.breaker == AfterLog(s.breaker, calls);
    }
  }

  /** The rate limit of a whole pool: once its breaker has opened, and until the next successful
      connect or query, admitted acquires are at least the open duration apart. */
  lemma AcquiresAreSpaced(size: nat, threshold: nat, duration: nat, earlier: seq<Event>, es: seq<Event>)
    requires threshold < COUNTER_MODULUS
    requires Legal(Empty(size, Fresh(threshold, duration)), earlier)
    requires var s := Run(Empty(size, Fresh(threshold, duration)), earlier);
             && s.breaker.phase != Closed && Legal(s, es)
             && Success !in BreakerLog(s, es) && NonDecreasingClock(BreakerLog(s, es))
    ensures var times := AdmittedAcquires(Run(Empty(size, Fresh(threshold, duration)), earlier), es);
            forall i, j :: 0 <= i <= j < |times| ==> times[j] - times[i] >= (j - i) * duration
  {
    var s0 := Empty(size, Fresh(threshold, duration));
    var s := Run(s0, earlier);
    PoolDrivesBreaker(s0, earlier);
    PoolDrivesBreaker(s, es);
    AdmissionsAreSpaced(threshold, duration, BreakerLog(s0, earlier), BreakerLog(s, es));
  }

  /** The pool's acquires while its breaker is open: admitted exactly from the last reported failure plus
      the open duration on. */
  lemma OpenPoolRefusesUntil(size: nat, threshold: nat, duration: nat, es: seq<Event>, client: Client, now: int)
    requires threshold < COUNTER_MODULUS && Legal(Empty(size, Fresh(threshold, duration)), es)
    requires var s := Run(Empty(size, Fresh(threshold, duration)), es);
             !s.stopping && s.breaker.phase == Open
    requires FailuresSinceSuccess(BreakerLog(Empty(size, Fresh(threshold, duration)), es)) < COUNTER_MODULUS
    ensures var s0 := Empty(size, Fresh(threshold, duration));
            var failed := LastFailure(BreakerLog(s0, es));
            && failed.Some?
            && AdmittedAcquires(Run(s0, es), [Acquire(client, now)])
               == if now >= failed.value + duration then [now] else []
  {
    var s0 := Empty(size, Fresh(threshold, duration));
    var s := Run(s0, es);
    var log := BreakerLog(s0, es);
    PoolDrivesBreaker(s0, es);
    OpenSinceLastFailure(threshold, duration, log);
    PhaseCountsFailures(threshold, duration, log);
    var ask := Acquire(client, now);
    assert [ask][1..] == [];
    assert AdmittedAcquires(s, [ask]) == (if Admits(s.breaker, now) then [now] else []) + [];
  }

  // Half-open episodes

  predicate Resolves(e: Event) {
    e.ConnectOk? || e.QueryOk? || e.ConnectFail? || e.QueryInfra?
  }

  /** While a probe is out only the outcome of a connect, a successful query or an infrastructure
      error moves the breaker: to Closed on success, to Open on failure. Every acquire is refused and
      every other exit, a DbError included, leaves it half-open. */
  lemma ProbeResolution(s: Pool, e: Event)
    requires s.breaker.phase == HalfOpen && s.breaker.probeInflight && Enabled(s, e)
    ensures var t := Step(s, e);
            && (!Resolves(e) ==> t.breaker == s.breaker)
            && (e.ConnectOk? || e.QueryOk? ==> t.breaker.phase == Closed)
            && (e.ConnectFail? || e.QueryInfra? ==>
              t.breaker.phase == Open && t.breaker.openUntil == e.now + s.breaker.openDuration)
            && (e.Acquire? ==> t == s)
  {
  }

  // The ledger of leases

  function Holders(ls: seq<Lease>): seq<Client> {
    seq(|ls|, i requires 0 <= i < |ls| => ls[i].client)
  }

  /** How many leases a client gets in one event, gives back, or drops. */
  function Gets(s: Pool, e: Event, x: Client): nat
    requires Enabled(s, e)
  {
    match e
    case Acquire(client, now) => If(client == x && !s.stopping && Admits(s.breaker, now) && s.idle != [])
    case ConnectOk(i) => If(s.connecting[i] == x)
    case Resume(i) => If(s.handoff[i].client == x)
    case _ => 0
  }

  predicate Returns(e: Event) {
    e.QueryOk? || e.QueryInfra? || e.QueryDbError? || e.TransactionEnds?
  }

  function GivesBack(s: Pool, e: Event, x: Client): nat
    requires Enabled(s, e)
  {
    If(Returns(e) && s.leases[e.i].client == x)
  }

  function Drops(s: Pool, e: Event, x: Client): nat
    requires Enabled(s, e)
  {
    If(e.BeginFails? && s.leases[e.i].client == x)
  }

  function Sum(s: Pool, es: seq<Event>, count: (Pool, Event) --> nat): nat
    requires Legal(s, es) && forall t, e :: Enabled(t, e) ==> count.requires(t, e)
    decreases |es|
  {
    if es == [] then 0 else count(s, es[0]) + Sum(Step(s, es[0]), es[1..], count)
  }

  lemma HoldersWithout(ls: seq<Lease>, i: nat, x: Client)
    requires i < |ls|
    ensures Occurs(Holders(ls), x) == Occurs(Holders(Without(ls, i)), x) + If(ls[i].client == x)
  {
    assert Holders(Without(ls, i)) == Without(Holders(ls), i);
    OccursWithout(Holders(ls), i, x);
  }

  lemma HoldersAppend(ls: seq<Lease>, l: Lease, x: Client)
    ensures Occurs(Holders(ls + [l]), x) == Occurs(Holders(ls), x) + If(l.client == x)
  {
    assert Holders(ls + [l]) == Holders(ls) + [l.client];
  }

  lemma GrantBalances(s: Pool, e: Event, x: Client)
    requires Enabled(s, e) && (e.Acquire? || e.ConnectOk? || e.Resume?)
    ensures Occurs(Holders(s.leases), x) + Gets(s, e, x) == Occurs(Holders(Step(s, e).leases), x)
  {
    match e
    case Acquire(client, _) =>
      if s.idle != [] {
        HoldersAppend(s.leases, Lease(client, s.idle[|s.idle| - 1]), x);
      }
    case ConnectOk(i) => HoldersAppend(s.leases, Lease(s.connecting[i], s.nextConn), x);
    case Resume(i) => HoldersAppend(s.leases, s.handoff[i], x);
  }

  lemma EndBalances(s: Pool, e: Event, x: Client)
    requires Enabled(s, e) && (Returns(e) || e.BeginFails?)
    ensures Occurs(Holders(s.leases), x) == Occurs(Holders(Step(s, e).leases), x) + If(s.leases[e.i].client == x)
  {
    assert Step(s, e).leases == Without(s.leases, e.i);
    HoldersWithout(s.leases, e.i, x);
  }

  lemma QueueBalances(s: Pool, e: Event)
    requires Enabled(s, e)
    ensures |Step(s, e).releasing| + If(e.RunRelease?) == |s.releasing| + If(Returns(e))
  {
  }

  lemma StepBalances(s: Pool, e: Event, x: Client)
    requires Enabled(s, e)
    ensures Occurs(Holders(s.leases), x) + Gets(s, e, x)
            == Occurs(Holders(Step(s, e).leases), x) + GivesBack(s, e, x) + Drops(s, e, x)
  {
    if e.Acquire? || e.ConnectOk? || e.Resume? {
      GrantBalances(s, e, x);
    } else if Returns(e) || e.BeginFails? {
      EndBalances(s, e, x);
    } else {
      assert Step(s, e).leases == s.leases;
    }
  }

  /** Every lease a client gets it gives back exactly once, drops at a failed BEGIN, or still holds;
      and every one given back is handled by exactly one release handler, run or still queued. */
  lemma {:induction false} LeasesBalance(s: Pool, es: seq<Event>, x: Client)
    requires Legal(s, es)
    ensures var t := Run(s, es);
            && Occurs(Holders(s.leases), x) + Sum(s, es, (p, e) requires Enabled(p, e) => Gets(p, e, x))
               == Occurs(Holders(t.leases), x)
                  + Sum(s, es, (p, e) requires Enabled(p, e) => GivesBack(p, e, x))
                  + Sum(s, es, (p, e) requires Enabled(p, e) => Drops(p, e, x))
            && |s.releasing| + Sum(s, es, (p, e) requires Enabled(p, e) => If(Returns(e)))
               == |t.releasing| + Sum(s, es, (p, e) requires Enabled(p, e) => If(e.RunRelease?))
    decreases |es|
  {
    if es != [] {
      StepBalances(s, es[0], x);
      QueueBalances(s, es[0]);
      LeasesBalance(Step(s, es[0]), es[1..], x);
    }
  }
}
