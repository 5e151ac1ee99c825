/** The circuit breaker of the connection pool: a class with the mutable fields of
    `PgPool::CircuitBreaker`, the same transitions on values, and what they keep over
    every log of calls. Times are clock ticks (nanoseconds of the steady clock). */
module CircuitBreakers {
  import opened Options


  /** Modulus of the unsigned 64-bit failure counter. */
  const COUNTER_MODULUS: nat := 0x1_0000_0000_0000_0000

  const FAILURE_THRESHOLD: nat := 5
  const OPEN_DURATION: nat := 3_000_000_000

  datatype Phase = Closed | Open | HalfOpen

  datatype Breaker = Breaker(
    phase: Phase,
    consecutiveFailures: nat,
    failureThreshold: nat,
    openDuration: nat,
    openUntil: int,
    probeInflight: bool)

  /** One call on the breaker. */
  datatype Call = Ask(now: int) | Success | Failure(now: int)

  function Fresh(threshold: nat, duration: nat): Breaker {
    Breaker(Closed, 0, threshold, duration, 0, false)
  }

  predicate Admits(b: Breaker, now: int) {
    match b.phase
    case Closed => true
    case Open => b.openUntil <= now
    case HalfOpen => !b.probeInflight
  }

  function AfterCall(b: Breaker, c: Call): Breaker {
    match c
    case Ask(now) =>
      if b.phase == Closed || !Admits(b, now) then b
      else b.(phase := HalfOpen, probeInflight := true)
    case Success =>
      b.(phase := Closed, consecutiveFailures := 0, probeInflight := false)
    case Failure(now) =>
      if b.phase == HalfOpen then
        b.(phase := Open, openUntil := now + b.openDuration,
        consecutiveFailures := b.failureThreshold, probeInflight := false)
      else
        var counted := b.(consecutiveFailures := (b.consecutiveFailures + 1) % COUNTER_MODULUS);
        if counted.consecutiveFailures >= b.failureThreshold then
          counted.(phase := Open, openUntil := now + b.openDuration, probeInflight := false)
        else counted
  }

  /** The mutable breaker. */
  class CircuitBreaker {
    var phase: Phase
    var consecutiveFailures: nat
    const failureThreshold: nat
    const openDuration: nat
    var openUntil: int
    var probeInflight: bool

    ghost function View(): Breaker
      reads this
    {
      Breaker(phase, consecutiveFailures, failureThreshold, openDuration, openUntil, probeInflight)
    }

    constructor ()
      ensures View() == Fresh(FAILURE_THRESHOLD, OPEN_DURATION)
    {
      phase := Closed;
      consecutiveFailures := 0;
      failureThreshold := FAILURE_THRESHOLD;
      openDuration := OPEN_DURATION;
      openUntil := 0;
      probeInflight := false;
    }

    method Allow(now: int) returns (admitted: bool)
      modifies this
      ensures admitted == Admits(old(View()), now)
      ensures View() == AfterCall(old(View()), Ask(now))
    {
      if phase == Closed {
        return true;
      }
      if phase == Open {
        if now < openUntil {
          return false;
        }
        phase := HalfOpen;
        probeInflight := false;
      }
      if probeInflight {
        return false;
      }
      probeInflight := true;
      return true;
    }

    method OnSuccess()
      modifies this
      ensures View() == AfterCall(old(View()), Success)
    {
      phase := Closed;
      consecutiveFailures := 0;
      probeInflight := false;
    }

    method OnFailure(now: int)
      modifies this
      ensures View() == AfterCall(old(View()), Failure(now))
    {
      if phase == HalfOpen {
        phase := Open;
        openUntil := now + openDuration;
        consecutiveFailures := failureThreshold;
        probeInflight := false;
        return;
      }
      consecutiveFailures := (consecutiveFailures + 1) % COUNTER_MODULUS;
      if consecutiveFailures >= failureThreshold {
        phase := Open;
        openUntil := now + openDuration;
        probeInflight := false;
      }
    }
  }

  // Logs of calls

  function AfterLog(b: Breaker, log: seq<Call>): Breaker {
    if log == [] then b else AfterCall(AfterLog(b, log[..|log| - 1]), log[|log| - 1])
  }

  function FailuresSinceSuccess(log: seq<Call>): nat {
    if log == [] then 0
    else
      var before := FailuresSinceSuccess(log[..|log| - 1]);
      match log[|log| - 1]
      case Ask(_) => before
      case Success => 0
      case Failure(_) => before + 1
  }

  /** The times of the admitted calls, in log order. */
  function Admissions(b: Breaker, log: seq<Call>): seq<int> {
    if log == [] then []
    else
      var before := log[..|log| - 1];
      var last := log[|log| - 1];
      Admissions(b, before) + if last.Ask? && Admits(AfterLog(b, before), last.now) then [last.now] else []
  }

  ghost predicate NonDecreasingClock(log: seq<Call>) {
    forall i, j :: 0 <= i < j < |log| && !log[i].Success? && !log[j].Success? ==> log[i].now <= log[j].now
  }

  /** How many failures in a row open a breaker: with threshold 0 the first one already does. */
  function FailuresToOpen(threshold: nat): nat {
    if threshold == 0 then 1 else threshold
  }

  /** After any log the breaker is not Closed exactly when enough failures have happened since
      the last success, and the probe flag is set exactly in HalfOpen. The 64-bit counter may
      wrap around while the breaker is open; the statement counts the failures themselves. */
  lemma {:induction false} PhaseCountsFailures(threshold: nat, duration: nat, log: seq<Call>)
    requires threshold < COUNTER_MODULUS
    ensures var b := AfterLog(Fresh(threshold, duration), log);
            && b.failureThreshold == threshold && b.openDuration == duration
            && (b.phase != Closed <==> FailuresSinceSuccess(log) >= FailuresToOpen(threshold))
            && (b.probeInflight <==> b.phase == HalfOpen)
            && (b.phase == Closed ==> b.consecutiveFailures == FailuresSinceSuccess(log))
  {
    if log != [] {
      PhaseCountsFailures(threshold, duration, log[..|log| - 1]);
    }
  }

  /** The time of the last failure in a log. */
  function LastFailure(log: seq<Call>): Option<int> {
    if log == [] then None
    else if log[|log| - 1].Failure? then Some(log[|log| - 1].now)
    else LastFailure(log[..|log| - 1])
  }

  /** The counter stays between the threshold and the failures while the breaker is not Closed, so that
      every failure of an Open breaker opens it anew. */
  lemma {:induction false} OpenSinceLastFailure(threshold: nat, duration: nat, log: seq<Call>)
    requires threshold < COUNTER_MODULUS && FailuresSinceSuccess(log) < COUNTER_MODULUS
    ensures var b := AfterLog(Fresh(threshold, duration), log);
            && (b.phase != Closed ==> threshold <= b.consecutiveFailures)
            && b.consecutiveFailures <= FailuresSinceSuccess(log)
            && (b.phase == Open ==> LastFailure(log) == Some(b.openUntil - duration))
    decreases |log|
  {
    if log != [] {
      var n := |log| - 1;
      PhaseCountsFailures(threshold, duration, log[..n]);
      PhaseCountsFailures(threshold, duration, log);
      if log[n].Success? {
        assert AfterLog(Fresh(threshold, duration), log).phase == Closed;
      } else {
        OpenSinceLastFailure(threshold, duration, log[..n]);
      }
    }
  }

  /** How long an opened breaker refuses: after any log, with the last failure at t, exactly until t plus the
      open duration, late failures while it was open already included. The counter must not have wrapped. */
  lemma OpenRefusesUntil(threshold: nat, duration: nat, log: seq<Call>, now: int)
    requires threshold < COUNTER_MODULUS && FailuresSinceSuccess(log) < COUNTER_MODULUS
    requires AfterLog(Fresh(threshold, duration), log).phase == Open
    ensures LastFailure(log).Some?
    ensures Admissions(Fresh(threshold, duration), log + [Ask(now)])
            == Admissions(Fresh(threshold, duration), log)
               + if now >= LastFailure(log).value + duration then [now] else []
  {
    OpenSinceLastFailure(threshold, duration, log);
    assert (log + [Ask(now)])[..|log|] == log;
  }

  lemma {:induction false} LogSplits(b: Breaker, first: seq<Call>, second: seq<Call>)
    ensures AfterLog(b, first + second) == AfterLog(AfterLog(b, first), second)
  {
    if second == [] {
      assert first + second == first;
    } else {
      var n := |second| - 1;
      assert (first + second)[..|first| + n] == first + second[..n];
      LogSplits(b, first, second[..n]);
    }
  }

  /** What separates admissions: after one at time t the breaker is HalfOpen, or Open until
      t + openDuration at least. */
  ghost predicate Separated(b: Breaker, log: seq<Call>) {
    var b' := AfterLog(b, log);
    var times := Admissions(b, log);
    && b'.phase != Closed && b'.openDuration == b.openDuration
    && (b'.phase == HalfOpen ==> b'.probeInflight)
    && (times != [] ==> exists i :: 0 <= i < |log| && log[i] == Ask(times[|times| - 1]))
    && (times != [] && b'.phase == Open ==> b'.openUntil >= times[|times| - 1] + b.openDuration)
    && (forall k :: 0 <= k < |times| - 1 ==> times[k] + b.openDuration <= times[k + 1])
  }

  lemma AskedBefore(b: Breaker, log: seq<Call>)
    requires log != [] && NonDecreasingClock(log) && log[|log| - 1] != Success
    requires Separated(b, log[..|log| - 1]) && Admissions(b, log[..|log| - 1]) != []
    ensures var times := Admissions(b, log[..|log| - 1]);
            && times[|times| - 1] <= log[|log| - 1].now
            && exists i :: 0 <= i < |log| && log[i] == Ask(times[|times| - 1])
  {
    var before, times := log[..|log| - 1], Admissions(b, log[..|log| - 1]);
    var i :| 0 <= i < |before| && before[i] == Ask(times[|times| - 1]);
    assert log[i] == before[i];
  }

  lemma {:induction false} AdmissionHolds(b: Breaker, log: seq<Call>)
    requires b.phase != Closed
    requires b.phase == HalfOpen ==> b.probeInflight
    requires Success !in log && NonDecreasingClock(log)
    ensures Separated(b, log)
  {
    if log != [] {
      var n := |log| - 1;
      AdmissionHolds(b, log[..n]);
      assert log[n] != Success;
      if Admissions(b, log[..n]) != [] {
        AskedBefore(b, log);
      }
      if log[n].Ask? && Admits(AfterLog(b, log[..n]), log[n].now) {
        assert log[n] == Ask(log[n].now);
      }
    }
  }

  lemma {:induction false} StepsAddUp(times: seq<int>, gap: nat, i: nat, j: nat)
    requires i <= j < |times|
    requires forall k :: 0 <= k < |times| - 1 ==> times[k] + gap <= times[k + 1]
    ensures times[j] - times[i] >= (j - i) * gap
    decreases j
  {
    if i < j {
      StepsAddUp(times, gap, i, j - 1);
      assert times[j - 1] + gap <= times[j - 1 + 1];
      assert (j - i) * gap == (j - 1 - i) * gap + gap;
    }
  }

  /** Rate limit: once the breaker has opened and until the next success, m admissions span at
      least (m - 1) open durations, however many late failures are reported in between. */
  lemma AdmissionsAreSpaced(threshold: nat, duration: nat, earlier: seq<Call>, log: seq<Call>)
    requires threshold < COUNTER_MODULUS
    requires AfterLog(Fresh(threshold, duration), earlier).phase != Closed
    requires Success !in log && NonDecreasingClock(log)
    ensures var times := Admissions(AfterLog(Fresh(threshold, duration), earlier), log);
            forall i, j :: 0 <= i <= j < |times| ==> times[j] - times[i] >= (j - i) * duration
  {
    PhaseCountsFailures(threshold, duration, earlier);
    var b := AfterLog(Fresh(threshold, duration), earlier);
    AdmissionHolds(b, log);
    var times := Admissions(b, log);
    forall i, j | 0 <= i <= j < |times|
      ensures times[j] - times[i] >= (j - i) * duration
    {
      StepsAddUp(times, duration, i, j);
    }
  }

  /** The rate limit is met with equality: a failed probe reported at once, then the next probe
      as soon as the open duration has passed. */
  lemma SpacingIsTight(threshold: nat, duration: nat, now: int)
    ensures var b := Fresh(threshold, duration).(phase := Open, openUntil := now);
            Admissions(b, [Ask(now), Failure(now), Ask(now + duration)]) == [now, now + duration]
  {
    var b := Fresh(threshold, duration).(phase := Open, openUntil := now);
    var log := [Ask(now), Failure(now), Ask(now + duration)];
    assert log[..2] == [Ask(now), Failure(now)] && log[..2][..1] == [Ask(now)] && [Ask(now)][..0] == [];
    assert AfterLog(b, [Ask(now)]) == b.(phase := HalfOpen, probeInflight := true);
    assert Admissions(b, [Ask(now)]) == [now];
    assert AfterLog(b, log[..2]).phase == Open && AfterLog(b, log[..2]).openUntil == now + duration;
    assert Admissions(b, log[..2]) == [now];
  }

  /** A half-open breaker whose probe is out refuses every further request, at any time, and
      does not change: only a reported outcome of some request can move it. */
  lemma {:induction false} HalfOpenKeepsRefusing(b: Breaker, asks: seq<Call>)
    requires b.phase == HalfOpen && b.probeInflight
    requires forall i :: 0 <= i < |asks| ==> asks[i].Ask?
    ensures AfterLog(b, asks) == b && Admissions(b, asks) == []
  {
    if asks != [] {
      HalfOpenKeepsRefusing(b, asks[..|asks| - 1]);
    }
  }
}
