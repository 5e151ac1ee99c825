/** What every event of the pool keeps: connections are conserved and counted, and the channel is used
    before the idle list. */
module PoolProperties {
  import opened CircuitBreakers
  import opened Pools

  // Conservation of connections

  function Conns(ls: seq<Lease>): seq<Conn> {
    seq(|ls|, i requires 0 <= i < |ls| => ls[i].conn)
  }

  function Returned(rs: seq<Return>): seq<Conn> {
    seq(|rs|, i requires 0 <= i < |rs| => rs[i].conn)
  }

  function Occurs<T(==)>(s: seq<T>, x: T): nat {
    multiset(s)[x]
  }

  function If(b: bool): nat {
    if b then 1 else 0
  }

  /** In how many places connection c is: idle, buffered, handed to a receiver, leased, or queued
      for release. */
  function Places(s: Pool, c: Conn): nat {
    Occurs(s.idle, c) + Occurs(s.channel.buffer, c) + Occurs(Conns(s.handoff), c) + Occurs(Conns(s.leases), c)
    + Occurs(Returned(s.releasing), c)
  }

  /** The number of live connections. */
  function Live(s: Pool): nat {
    |s.idle| + |s.channel.buffer| + |s.handoff| + |s.leases| + |s.releasing|
  }

  lemma OccursWithout<T>(s: seq<T>, i: nat, x: T)
    requires i < |s|
    ensures Occurs(s, x) == Occurs(Without(s, i), x) + If(s[i] == x)
  {
    assert s == s[..i] + [s[i]] + s[i + 1..];
  }

  lemma OccursAppend<T>(s: seq<T>, x: T, y: T)
    ensures Occurs(s + [x], y) == Occurs(s, y) + If(x == y)
  {
  }

  lemma ReturnWithout(rs: seq<Return>, i: nat, c: Conn)
    requires i < |rs|
    ensures Occurs(Returned(rs), c) == Occurs(Returned(Without(rs, i)), c) + If(rs[i].conn == c)
  {
    assert Returned(Without(rs, i)) == Without(Returned(rs), i);
    OccursWithout(Returned(rs), i, c);
  }

  lemma ReturnAppend(rs: seq<Return>, r: Return, c: Conn)
    ensures Occurs(Returned(rs + [r]), c) == Occurs(Returned(rs), c) + If(r.conn == c)
  {
    assert Returned(rs + [r]) == Returned(rs) + [r.conn];
  }

  lemma LeaseWithout(ls: seq<Lease>, i: nat, c: Conn)
    requires i < |ls|
    ensures Occurs(Conns(ls), c) == Occurs(Conns(Without(ls, i)), c) + If(ls[i].conn == c)
  {
    assert Conns(Without(ls, i)) == Without(Conns(ls), i);
    OccursWithout(Conns(ls), i, c);
  }

  lemma LeaseAppend(ls: seq<Lease>, l: Lease, c: Conn)
    ensures Occurs(Conns(ls + [l]), c) == Occurs(Conns(ls), c) + If(l.conn == c)
  {
    assert Conns(ls + [l]) == Conns(ls) + [l.conn];
  }

  /** The places connection c loses in one event, and whether the event opens c. */
  function Lost(s: Pool, e: Event, c: Conn): nat
    requires Enabled(s, e)
  {
    match e
    case BeginFails(i) => If(s.leases[i].conn == c)
    case RunRelease(i, healthy) => If((s.stopping || !healthy) && s.releasing[i].conn == c)
    case Shutdown => Occurs(s.idle, c)
    case _ => 0
  }

  function Opened(s: Pool, e: Event, c: Conn): nat {
    If(e.ConnectOk? && c == s.nextConn)
  }

  /** One event moves connections between places, opens at most the next one, and drops only those
      of a failed BEGIN, of a release that is not kept, and the idle ones at shutdown. */
  lemma StepConserves(s: Pool, e: Event, c: Conn)
    requires Enabled(s, e)
    ensures Places(Step(s, e), c) + Lost(s, e, c) == Places(s, c) + Opened(s, e, c)
  {
    match e
    case Acquire(client, now) => AcquireConserves(s, client, now, c);
    case ConnectOk(i) =>
      LeaseAppend(s.leases, Lease(s.connecting[i], s.nextConn), c);
    case ConnectFail(_, _) =>
    case Resume(i) =>
      LeaseWithout(s.handoff, i, c);
      LeaseAppend(s.leases, s.handoff[i], c);
    case QueryOk(i) => GiveBackConserves(s, i, true, c);
    case QueryInfra(i, _) => GiveBackConserves(s, i, false, c);
    case QueryDbError(i) => GiveBackConserves(s, i, false, c);
    case TransactionEnds(i, open) => GiveBackConserves(s, i, open, c);
    case BeginFails(i) => LeaseWithout(s.leases, i, c);
    case RunRelease(i, healthy) => ReleaseConserves(s, i, healthy, c);
    case Shutdown =>
  }

  lemma GiveBackConserves(s: Pool, i: nat, open: bool, c: Conn)
    requires i < |s.leases|
    ensures Places(GiveBack(s, i, open), c) == Places(s, c)
  {
    LeaseWithout(s.leases, i, c);
    ReturnAppend(s.releasing, Return(s.leases[i].conn, open), c);
  }

  lemma ReuseConserves(s: Pool, client: Client, c: Conn)
    requires s.idle != []
    ensures var last := |s.idle| - 1;
            Places(s.(idle := s.idle[..last], leases := s.leases + [Lease(client, s.idle[last])]), c) == Places(s, c)
  {
    var last := |s.idle| - 1;
    assert s.idle == s.idle[..last] + [s.idle[last]];
    OccursAppend(s.idle[..last], s.idle[last], c);
    LeaseAppend(s.leases, Lease(client, s.idle[last]), c);
  }

  lemma ReceiveConserves(s: Pool, client: Client, c: Conn)
    requires s.channel.buffer != []
    ensures Places(s.(channel := s.channel.(buffer := s.channel.buffer[1..]),
                      handoff := s.handoff + [Lease(client, s.channel.buffer[0])]), c) == Places(s, c)
  {
    assert Without(s.channel.buffer, 0) == s.channel.buffer[1..];
    OccursWithout(s.channel.buffer, 0, c);
    LeaseAppend(s.handoff, Lease(client, s.channel.buffer[0]), c);
  }

  lemma AcquireConserves(s: Pool, client: Client, now: int, c: Conn)
    ensures Places(AfterAcquire(s, client, now), c) == Places(s, c)
  {
    if !s.stopping && Admits(s.breaker, now) {
      if s.idle != [] {
        ReuseConserves(s, client, c);
      } else if s.createdAt >= s.size && s.channel.buffer != [] {
        ReceiveConserves(s, client, c);
      }
    }
  }

  lemma ReleaseConserves(s: Pool, i: nat, healthy: bool, c: Conn)
    requires Enabled(s, RunRelease(i, healthy))
    ensures var e := RunRelease(i, healthy);
            Places(Step(s, e), c) + Lost(s, e, c) == Places(s, c)
  {
    ReturnWithout(s.releasing, i, c);
    ReleasedGoesSomewhere(s.(releasing := Without(s.releasing, i)), s.releasing[i].conn, healthy, c);
  }

  lemma ReleasedGoesSomewhere(s: Pool, x: Conn, healthy: bool, c: Conn)
    ensures Places(AfterRelease(s, x, healthy), c) == Places(s, c) + if s.stopping || !healthy then 0 else If(x == c)
  {
    OccursAppend(s.idle, x, c);
    OccursAppend(s.channel.buffer, x, c);
    if s.channel.waiters != [] {
      LeaseAppend(s.handoff, Lease(s.channel.waiters[0], x), c);
    }
  }

  /** Places and counters agree: no connection is in two places, none is made up, and before
      shutdown `created_at_` is the number of live connections plus the dropped leases. */
  ghost predicate Conserved(s: Pool) {
    && (forall c: Conn :: Places(s, c) <= If(c < s.nextConn))
    && Counted(s)
  }

  predicate Counted(s: Pool) {
    && (!s.stopping ==> s.createdAt == Live(s) + s.leaked)
    && (s.stopping ==> s.createdAt <= |s.handoff| + |s.leases| + |s.releasing| + s.leaked)
  }

  /** The channel: bounded, closed exactly at shutdown, and used before the idle list. */
  ghost predicate Ordered(s: Pool) {
    && s.channel.capacity == Capacity(s.size)
    && |s.channel.buffer| <= s.channel.capacity
    && s.channel.closed == s.stopping
    && (s.stopping ==> s.idle == [] && s.channel.waiters == [])
    && (s.channel.waiters != [] ==> s.idle == [] && s.channel.buffer == [])
    && (s.idle != [] ==> |s.channel.buffer| == s.channel.capacity)
  }

  lemma AcquireCounts(s: Pool, client: Client, now: int)
    requires Counted(s)
    ensures Counted(AfterAcquire(s, client, now))
  {
  }

  lemma ReleaseCounts(s: Pool, i: nat, healthy: bool)
    requires Ordered(s) && Counted(s) && Enabled(s, RunRelease(i, healthy))
    ensures Counted(Step(s, RunRelease(i, healthy)))
  {
    var t := s.(releasing := Without(s.releasing, i));
    assert |t.releasing| == |s.releasing| - 1;
  }

  lemma GiveBackCounts(s: Pool, i: nat, open: bool)
    requires i < |s.leases|
    ensures var t := GiveBack(s, i, open);
            |t.leases| + 1 == |s.leases| && |t.releasing| == |s.releasing| + 1 && (Counted(s) ==> Counted(t))
  {
  }

  /** The counter moves with the live connections: the guarded decrement is always a real one. */
  lemma StepCounts(s: Pool, e: Event)
    requires Ordered(s) && Enabled(s, e) && Counted(s)
    ensures Counted(Step(s, e))
  {
    match e
    case Acquire(client, now) => AcquireCounts(s, client, now);
    case QueryOk(i) => GiveBackCounts(s, i, true);
    case QueryInfra(i, _) => GiveBackCounts(s, i, false);
    case QueryDbError(i) => GiveBackCounts(s, i, false);
    case TransactionEnds(i, open) => GiveBackCounts(s, i, open);
    case RunRelease(i, healthy) => ReleaseCounts(s, i, healthy);
    case _ =>
  }

  lemma StepKeepsConserved(s: Pool, e: Event)
    requires Conserved(s) && Ordered(s) && Enabled(s, e)
    ensures Conserved(Step(s, e))
  {
    var t := Step(s, e);
    StepCounts(s, e);
    forall c: Conn
      ensures Places(t, c) <= If(c < t.nextConn)
    {
      PlacesStayUnique(s, e, c);
    }
  }

  lemma PlacesStayUnique(s: Pool, e: Event, c: Conn)
    requires Enabled(s, e) && Places(s, c) <= If(c < s.nextConn)
    ensures Places(Step(s, e), c) <= If(c < Step(s, e).nextConn)
  {
    StepConserves(s, e, c);
  }

  lemma StepKeepsOrdered(s: Pool, e: Event)
    requires Ordered(s) && Enabled(s, e)
    ensures Ordered(Step(s, e))
  {
  }

  /** Both hold in every state of every run from an empty pool. */
  lemma {:induction false} RunKeepsInvariant(s: Pool, es: seq<Event>)
    requires Conserved(s) && Ordered(s) && Legal(s, es)
    ensures Conserved(Run(s, es)) && Ordered(Run(s, es))
    decreases |es|
  {
    if es != [] {
      StepKeepsConserved(s, es[0]);
      StepKeepsOrdered(s, es[0]);
      RunKeepsInvariant(Step(s, es[0]), es[1..]);
    }
  }
}
