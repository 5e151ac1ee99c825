/** The connection pool as a step machine. Code between two awaits is one event, because one
    thread runs the event loop; an event may fire whenever its coroutine or queued handler is
    there, in any order. */
module Pools {
  import opened CircuitBreakers

  type Conn = nat

  /** Who acquires: `query`, which reports to the breaker, or `Transaction::begin`, which does not. */
  datatype Client = ForQuery(id: nat) | ForTransaction(id: nat)

  datatype Lease = Lease(client: Client, conn: Conn)

  /** A connection queued for release, and whether it is open: a failed statement has closed it. */
  datatype Return = Return(conn: Conn, open: bool)

  /** The bounded channel of the networking library: a buffer of values nobody waited for, or a
      queue of receivers for whom there was no value. */
  datatype Channel = Channel(capacity: nat, closed: bool, buffer: seq<Conn>, waiters: seq<Client>) {
    /** Whether a non-blocking send succeeds: a receiver waits, or the buffer has room. */
    predicate Accepts() {
      !closed && (waiters != [] || |buffer| < capacity)
    }
  }

  datatype Pool = Pool(
    size: nat,
    idle: seq<Conn>,
    createdAt: nat,
    stopping: bool,
    channel: Channel,
    breaker: Breaker,
    // Coroutines suspended in `connect`; receivers already given a connection but not yet
    // resumed; clients that hold a lease; release handlers queued on the strand.
    connecting: seq<Client>,
    handoff: seq<Lease>,
    leases: seq<Lease>,
    releasing: seq<Return>,
    // Connections whose holder dropped its lease without calling release.
    leaked: nat,
    nextConn: Conn)

  datatype Event =
    | Acquire(client: Client, now: int)
    | ConnectOk(i: nat)
    | ConnectFail(i: nat, now: int)
    | Resume(i: nat)
    | QueryOk(i: nat)
    | QueryInfra(i: nat, now: int)
    | QueryDbError(i: nat)
    | TransactionEnds(i: nat, open: bool)
    | BeginFails(i: nat)
    | RunRelease(i: nat, healthy: bool)
    | Shutdown

  function Capacity(size: nat): nat {
    if size == 0 then 1 else size
  }

  function Empty(size: nat, breaker: Breaker): Pool {
    Pool(size, [], 0, false, Channel(Capacity(size), false, [], []), breaker, [], [], [], [], 0, 0)
  }

  function Without<T>(s: seq<T>, i: nat): seq<T>
    requires i < |s|
  {
    s[..i] + s[i + 1..]
  }

  predicate Enabled(s: Pool, e: Event) {
    match e
    case Acquire(_, _) => true
    case ConnectOk(i) => i < |s.connecting|
    case ConnectFail(i, _) => i < |s.connecting|
    case Resume(i) => i < |s.handoff|
    case QueryOk(i) => i < |s.leases| && s.leases[i].client.ForQuery?
    case QueryInfra(i, _) => i < |s.leases| && s.leases[i].client.ForQuery?
    case QueryDbError(i) => i < |s.leases| && s.leases[i].client.ForQuery?
    case TransactionEnds(i, _) => i < |s.leases| && s.leases[i].client.ForTransaction?
    case BeginFails(i) => i < |s.leases| && s.leases[i].client.ForTransaction?
    case RunRelease(i, healthy) => i < |s.releasing| && (healthy ==> s.releasing[i].open)
    case Shutdown => true
  }

  function Decrement(n: nat): nat {
    if n > 0 then n - 1 else 0
  }

  /** `make_or_wait` up to its first suspension past the strand hop. */
  function AfterAcquire(s: Pool, client: Client, now: int): Pool {
    if s.stopping then s
    else
      var t := s.(breaker := AfterCall(s.breaker, Ask(now)));
      if !Admits(s.breaker, now) then t
      else if s.idle != [] then
        var last := |s.idle| - 1;
        t.(idle := s.idle[..last], leases := s.leases + [Lease(client, s.idle[last])])
      else if s.createdAt < s.size then
        t.(connecting := s.connecting + [client])
      else if s.channel.buffer != [] then
        t.(channel := s.channel.(buffer := s.channel.buffer[1..]),
        handoff := s.handoff + [Lease(client, s.channel.buffer[0])])
      else if s.channel.closed then t
      else t.(channel := s.channel.(waiters := s.channel.waiters + [client]))
  }

  /** A release handler for connection c when it runs on the strand. */
  function AfterRelease(s: Pool, c: Conn, healthy: bool): Pool {
    if s.stopping || !healthy then s.(createdAt := Decrement(s.createdAt))
    else if !s.channel.Accepts() then s.(idle := s.idle + [c])
    else if s.channel.waiters != [] then
      s.(channel := s.channel.(waiters := s.channel.waiters[1..]),
      handoff := s.handoff + [Lease(s.channel.waiters[0], c)])
    else s.(channel := s.channel.(buffer := s.channel.buffer + [c]))
  }

  /** Lease i goes back, with its connection open or closed: its release handler is queued on the strand. */
  function GiveBack(s: Pool, i: nat, open: bool): Pool
    requires i < |s.leases|
  {
    s.(leases := Without(s.leases, i), releasing := s.releasing + [Return(s.leases[i].conn, open)])
  }

  function Step(s: Pool, e: Event): Pool
    requires Enabled(s, e)
  {
    match e
    case Acquire(client, now) => AfterAcquire(s, client, now)
    case ConnectOk(i) =>
      s.(connecting := Without(s.connecting, i),
      createdAt := s.createdAt + 1,
      breaker := AfterCall(s.breaker, Success),
      leases := s.leases + [Lease(s.connecting[i], s.nextConn)],
      nextConn := s.nextConn + 1)
    case ConnectFail(i, now) =>
      s.(connecting := Without(s.connecting, i), breaker := AfterCall(s.breaker, Failure(now)))
    case Resume(i) =>
      s.(handoff := Without(s.handoff, i), leases := s.leases + [s.handoff[i]])
    case QueryOk(i) => GiveBack(s, i, true).(breaker := AfterCall(s.breaker, Success))
    case QueryInfra(i, now) => GiveBack(s, i, false).(breaker := AfterCall(s.breaker, Failure(now)))
    case QueryDbError(i) => GiveBack(s, i, false)
    case TransactionEnds(i, open) => GiveBack(s, i, open)
    case BeginFails(i) => s.(leases := Without(s.leases, i), leaked := s.leaked + 1)
    case RunRelease(i, healthy) =>
      AfterRelease(s.(releasing := Without(s.releasing, i)), s.releasing[i].conn, healthy)
    case Shutdown =>
      s.(stopping := true, channel := s.channel.(closed := true, waiters := []), idle := [], createdAt := 0)
  }

  predicate Legal(s: Pool, es: seq<Event>)
    decreases |es|
  {
    es == [] || (Enabled(s, es[0]) && Legal(Step(s, es[0]), es[1..]))
  }

  function Run(s: Pool, es: seq<Event>): Pool
    requires Legal(s, es)
    decreases |es|
  {
    if es == [] then s else Run(Step(s, es[0]), es[1..])
  }

  // The imperative pool

  datatype Admission =
    | ShuttingDown | CircuitOpen | Granted(conn: Conn) | Connecting | Received(conn: Conn) | ReceiveFailed | Waiting

  class PgPool {
    const size: nat
    var idle: seq<Conn>
    var createdAt: nat
    var stopping: bool
    var channel: Channel
    const breaker: CircuitBreaker
    var nextConn: Conn
    // The coroutines and handlers the event loop holds for this pool.
    ghost var connecting: seq<Client>
    ghost var handoff: seq<Lease>
    ghost var leases: seq<Lease>
    ghost var releasing: seq<Return>
    ghost var leaked: nat

    ghost function View(): Pool
      reads this, breaker
    {
      Pool(size, idle, createdAt, stopping, channel, breaker.View(),
           connecting, handoff, leases, releasing, leaked, nextConn)
    }

    constructor (size: nat)
      ensures View() == Empty(size, Fresh(FAILURE_THRESHOLD, OPEN_DURATION))
      ensures fresh(breaker)
    {
      this.size := size;
      idle, createdAt, stopping := [], 0, false;
      channel := Channel(if size != 0 then size else 1, false, [], []);
      breaker := new CircuitBreaker();
      nextConn, leaked := 0, 0;
      connecting, handoff, leases, releasing := [], [], [], [];
    }

    method MakeOrWait(client: Client, now: int) returns (r: Admission)
      modifies this, breaker
      ensures View() == Step(old(View()), Acquire(client, now))
      ensures r.ShuttingDown? <==> old(stopping)
      ensures r.ReceiveFailed? ==> old(channel.closed)
      ensures r.CircuitOpen? <==> !old(stopping) && !Admits(old(breaker.View()), now)
      ensures r.Granted? ==> leases == old(leases) + [Lease(client, r.conn)]
      ensures r.Received? ==> handoff == old(handoff) + [Lease(client, r.conn)]
      ensures r.Connecting? <==> connecting == old(connecting) + [client]
      ensures r.Waiting? <==> channel.waiters == old(channel.waiters) + [client]
    {
      if stopping {
        return ShuttingDown;
      }
      var admitted := breaker.Allow(now);
      if !admitted {
        return CircuitOpen;
      }
      if idle != [] {
        var c := idle[|idle| - 1];
        idle := idle[..|idle| - 1];
        leases := leases + [Lease(client, c)];
        return Granted(c);
      }
      if createdAt < size {
        connecting := connecting + [client];
        return Connecting;
      }
      if channel.buffer != [] {
        var c := channel.buffer[0];
        channel := channel.(buffer := channel.buffer[1..]);
        handoff := handoff + [Lease(client, c)];
        return Received(c);
      }
      if channel.closed {
        return ReceiveFailed;
      }
      channel := channel.(waiters := channel.waiters + [client]);
      return Waiting;
    }

    /** `make_or_wait` resumed with an open connection. */
    method Connected(ghost i: nat) returns (c: Conn)
      requires i < |connecting|
      modifies this, breaker
      ensures View() == Step(old(View()), ConnectOk(i))
      ensures leases == old(leases) + [Lease(old(connecting[i]), c)]
    {
      c := nextConn;
      nextConn := nextConn + 1;
      createdAt := createdAt + 1;
      breaker.OnSuccess();
      leases := leases + [Lease(connecting[i], c)];
      connecting := Without(connecting, i);
    }

    /** `make_or_wait` resumed with an exception from `connect`. */
    method ConnectFailed(ghost i: nat, now: int)
      requires i < |connecting|
      modifies this, breaker
      ensures View() == Step(old(View()), ConnectFail(i, now))
    {
      breaker.OnFailure(now);
      connecting := Without(connecting, i);
    }

    /** A receiver resumed with the connection it was given. */
    method Resumed(ghost i: nat)
      requires i < |handoff|
      modifies this
      ensures View() == Step(old(View()), Resume(i))
    {
      leases := leases + [handoff[i]];
      handoff := Without(handoff, i);
    }

    /** The three exits of `query` after `acquire`. */
    method QuerySucceeded(ghost i: nat)
      requires i < |leases| && leases[i].client.ForQuery?
      modifies this, breaker
      ensures View() == Step(old(View()), QueryOk(i))
    {
      breaker.OnSuccess();
      ReleaseLater(i, true);
    }

    method QueryRaisedDbError(ghost i: nat)
      requires i < |leases| && leases[i].client.ForQuery?
      modifies this
      ensures View() == Step(old(View()), QueryDbError(i))
      ensures releasing == old(releasing) + [Return(old(leases[i].conn), false)]
    {
      ReleaseLater(i, false);
    }

    method QueryRaisedOther(ghost i: nat, now: int)
      requires i < |leases| && leases[i].client.ForQuery?
      modifies this, breaker
      ensures View() == Step(old(View()), QueryInfra(i, now))
      ensures releasing == old(releasing) + [Return(old(leases[i].conn), false)]
    {
      breaker.OnFailure(now);
      ReleaseLater(i, false);
    }

    /** The release closure of a lease: it only queues the handler on the strand. */
    method ReleaseLater(ghost i: nat, ghost open: bool)
      requires i < |leases|
      modifies this`leases, this`releasing
      ensures View() == GiveBack(old(View()), i, open)
    {
      releasing := releasing + [Return(leases[i].conn, open)];
      leases := Without(leases, i);
    }

    /** `Transaction::begin` whose BEGIN throws: the lease is dropped and never released. */
    method BeginFailed(ghost i: nat)
      requires i < |leases| && leases[i].client.ForTransaction?
      modifies this
      ensures View() == Step(old(View()), BeginFails(i))
    {
      leases := Without(leases, i);
      leaked := leaked + 1;
    }

    /** The queued release handler of connection c. */
    method Release(ghost i: nat, c: Conn, healthy: bool)
      requires i < |releasing| && releasing[i].conn == c && (healthy ==> releasing[i].open)
      modifies this
      ensures View() == Step(old(View()), RunRelease(i, healthy))
    {
      releasing := Without(releasing, i);
      if stopping {
        if createdAt != 0 { createdAt := createdAt - 1; }
        return;
      }
      if !healthy {
        if createdAt != 0 { createdAt := createdAt - 1; }
        return;
      }
      var sent := TrySend(c);
      if sent {
        return;
      }
      idle := idle + [c];
    }

    /** The channel's non-blocking send. */
    method TrySend(c: Conn) returns (sent: bool)
      modifies this`channel, this`handoff
      ensures sent == old(channel.Accepts())
      ensures !sent ==> channel == old(channel) && handoff == old(handoff)
      ensures sent && old(channel.waiters) == [] ==>
                channel == old(channel).(buffer := old(channel.buffer) + [c]) && handoff == old(handoff)
      ensures sent && old(channel.waiters) != [] ==>
                && channel == old(channel).(waiters := old(channel.waiters)[1..])
                && handoff == old(handoff) + [Lease(old(channel.waiters)[0], c)]
    {
      if channel.closed {
        return false;
      }
      if channel.waiters != [] {
        handoff := handoff + [Lease(channel.waiters[0], c)];
        channel := channel.(waiters := channel.waiters[1..]);
        return true;
      }
      if |channel.buffer| < channel.capacity {
        channel := channel.(buffer := channel.buffer + [c]);
        return true;
      }
      return false;
    }

    method Stop()
      modifies this
      ensures View() == Step(old(View()), Shutdown)
    {
      stopping := true;
      channel := channel.(closed := true, waiters := []);
      idle := [];
      createdAt := 0;
    }
  }
}
