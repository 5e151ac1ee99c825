/** `PgPool::query` with its exceptions: which reports and releases each way out makes, in what state it
    leaves the connection, and that these are the pool's events. */
module PoolQueries {
  import opened CircuitBreakers
  import opened Pools
  import Connections

  type Outcome = Connections.Result<Connections.Rows>

  /** What `query` does to the pool, in order. */
  datatype Action = ReportSuccess | ReportFailure(now: int) | CallRelease

  function Releases(log: seq<Action>): nat {
    if log == [] then 0 else (if log[0] == CallRelease then 1 else 0) + Releases(log[1..])
  }

  /** The way out of `query` once it has a lease: `execParams` has given o, and `refused` says whether
      the release in the try block throws (it allocates), as anything else does that is no DbError. */
  function Exit(o: Outcome, refused: bool, now: int): seq<Action> {
    if o.Ok? then [ReportSuccess, CallRelease] + (if refused then [ReportFailure(now), CallRelease] else [])
    else if o.sql then [CallRelease]
    else [ReportFailure(now), CallRelease]
  }

  /** `query`: acquire, then run the statement and report in a try block with two handlers. An acquire that
      throws leaves nothing to report or release. */
  method Query(acquired: Connections.Result<Connections.PgConnection>, connect: Connections.ConnectOutcome, o: Outcome,
               refused: bool, now: int) returns (r: Outcome, log: seq<Action>)
    modifies if acquired.Ok? then {acquired.value} else {}
    ensures acquired.Err? ==> r == Connections.Err(acquired.message, acquired.sql) && log == []
    ensures acquired.Ok? ==>
              var (c, result) := Connections.ExecParamsOn(old(acquired.value.View()), connect, o);
              && acquired.value.View() == c && log == Exit(result, refused, now)
              && (r.Ok? <==> result.Ok? && !refused) && (r.Ok? || result.Err? ==> r == result)
  {
    log := [];
    if acquired.Err? {
      return Connections.Err(acquired.message, acquired.sql), log;
    }
    r := acquired.value.ExecParams(connect, o);
    if r.Ok? {
      log := log + [ReportSuccess];
      log := log + [CallRelease];
      if !refused {
        return;
      }
      r := Connections.Err("std::bad_alloc", false);
    }
    if r.sql {
      log := log + [CallRelease];
    } else {
      log := log + [ReportFailure(now)];
      log := log + [CallRelease];
    }
  }

  /** Exactly when the way out releases once: unless the statement succeeded and its release threw. */
  lemma ReleasesOnceIff(o: Outcome, refused: bool, now: int)
    ensures Releases(Exit(o, refused, now)) == 1 <==> !(o.Ok? && refused)
    ensures Releases(Exit(o, refused, now)) >= 1
  {
    ReleasesOfTwo(ReportFailure(now), CallRelease);
    ReleasesOfTwo(ReportSuccess, CallRelease);
    ReleasesConcat([ReportSuccess, CallRelease], [ReportFailure(now), CallRelease]);
    assert [ReportSuccess, CallRelease] + [] == [ReportSuccess, CallRelease];
    assert [CallRelease][1..] == [];
  }

  lemma ReleasesOfTwo(a: Action, b: Action)
    ensures Releases([a, b]) == (if a == CallRelease then 1 else 0) + (if b == CallRelease then 1 else 0)
  {
    assert [a, b][1..] == [b] && [b][1..] == [];
    assert Releases([b]) == (if b == CallRelease then 1 else 0) + Releases([]);
  }

  lemma {:induction false} ReleasesConcat(a: seq<Action>, b: seq<Action>)
    ensures Releases(a + b) == Releases(a) + Releases(b)
  {
    if a == [] {
      assert a + b == b;
    } else {
      assert (a + b)[1..] == a[1..] + b;
      ReleasesConcat(a[1..], b);
    }
  }

  /** Every exception leaves the connection closed or broken, and success leaves it open. */
  lemma OpenIffReturned(c: Connections.Connection, connect: Connections.ConnectOutcome, o: Outcome)
    ensures var (c', r) := Connections.ExecParamsOn(c, connect, o);
            Connections.Healthy(c') <==> r.Ok?
  {
  }

  /** What `query` tells the breaker and its caller, when releasing does not throw: a success exactly when the
      statement returned rows, which are the caller's; a failure exactly when connecting failed or the
      statement failed with something other than a DbError; a DbError is passed on and reported to nobody. */
  lemma QueryOutcome(c: Connections.Connection, connect: Connections.ConnectOutcome, o: Outcome, now: int)
    ensures var r := Connections.ExecParamsOn(c, connect, o).1;
            var log := Exit(r, false, now);
            var connected := Connections.Healthy(c) || connect.Connected?;
            && (ReportSuccess in log <==> connected && o.Ok?)
            && (ReportFailure(now) in log <==> !connected || (o.Err? && !o.sql))
            && (forall t :: ReportFailure(t) in log ==> t == now)
            && (connected ==> r == o)
            && (!connected ==> r.Err? && !r.sql)
            && |log| == (if connected && o.Err? && o.sql then 1 else 2)
            && log[|log| - 1] == CallRelease
  {
    Connections.ExecParamsGives(c, connect, o);
  }

  /** Doing an action of the client that holds lease i, with its connection open or not. */
  function Perform(s: Pool, i: nat, open: bool, a: Action): Pool {
    match a
    case ReportSuccess => s.(breaker := AfterCall(s.breaker, Success))
    case ReportFailure(now) => s.(breaker := AfterCall(s.breaker, Failure(now)))
    case CallRelease => if i < |s.leases| then GiveBack(s, i, open) else s
  }

  function PerformAll(s: Pool, i: nat, open: bool, log: seq<Action>): Pool
    decreases |log|
  {
    if log == [] then s else PerformAll(Perform(s, i, open, log[0]), i, open, log[1..])
  }

  /** The pool's event for a result. */
  function EventOf(i: nat, r: Outcome, now: int): Event {
    if r.Ok? then QueryOk(i) else if r.sql then QueryDbError(i) else QueryInfra(i, now)
  }

  /** Whatever `execParams` gives on whatever connection, the actions on the way out, with the connection
      as it then is, are one event of the pool. */
  lemma ExitIsEvent(s: Pool, i: nat, c: Connections.Connection, connect: Connections.ConnectOutcome, o: Outcome,
          now: int)
    requires i < |s.leases| && s.leases[i].client.ForQuery?
    ensures var (c', r) := Connections.ExecParamsOn(c, connect, o);
            var e := EventOf(i, r, now);
            Enabled(s, e) && Step(s, e) == PerformAll(s, i, Connections.Healthy(c'), Exit(r, false, now))
  {
    OpenIffReturned(c, connect, o);
    var (c', r) := Connections.ExecParamsOn(c, connect, o);
    var open := Connections.Healthy(c');
    var log := Exit(r, false, now);
    if r.Ok? {
      assert log == [ReportSuccess, CallRelease];
      PerformTwo(s, i, open, ReportSuccess, CallRelease);
    } else if r.sql {
      assert log == [CallRelease] && log[1..] == [];
      assert PerformAll(s, i, open, log) == PerformAll(GiveBack(s, i, false), i, open, log[1..]);
    } else {
      PerformTwo(s, i, open, ReportFailure(now), CallRelease);
    }
  }

  lemma PerformTwo(s: Pool, i: nat, open: bool, a: Action, b: Action)
    ensures PerformAll(s, i, open, [a, b]) == Perform(Perform(s, i, open, a), i, open, b)
  {
    assert [a, b][1..] == [b] && [b][1..] == [];
    assert PerformAll(Perform(s, i, open, a), i, open, [b])
        == PerformAll(Perform(Perform(s, i, open, a), i, open, b), i, open, []);
  }
}
