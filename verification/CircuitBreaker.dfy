/**
 The circuit breaker that guards a model provider.

 Time is a number supplied with each event.  The failure-rate threshold is the rational num/den, and
 rates are compared by cross-multiplication.
*/
module CircuitBreaker {
  import opened Arith
  import opened Wrappers

  datatype Config = Config(num: nat, den: Pos, minimumRequests: Pos, openTimeout: Pos, halfOpenMaxCalls: Pos) {
    predicate Valid() {
      num <= den
    }
  }

  datatype CircuitState = CLOSED | OPEN | HALF_OPEN

  datatype Metrics = Metrics(
    totalRequests: nat,
    successfulRequests: nat,
    failedRequests: nat,
    lastFailureTime: Option<int>,
    lastSuccessTime: Option<int>,
    consecutiveFailures: nat,
    consecutiveSuccesses: nat)

  const NO_METRICS := Metrics(0, 0, 0, None, None, 0, 0)

  const WINDOW_SIZE: nat := 100

  /** Everything a breaker remembers. */
  datatype Breaker = Breaker(
    state: CircuitState,
    metrics: Metrics,
    failureWindow: seq<bool>,
    openTimestamp: Option<int>,
    halfOpenCalls: nat)

  const FRESH := Breaker(CLOSED, NO_METRICS, [], None, 0)

  /** Appends to a window that keeps its last 100 entries. */
  function Push(window: seq<bool>, outcome: bool): seq<bool> {
    if |window| < WINDOW_SIZE then window + [outcome] else window[1..] + [outcome]
  }

  predicate ShouldTrip(c: Config, m: Metrics) {
    && c.minimumRequests <= m.totalRequests
    && c.num * m.totalRequests <= m.failedRequests * c.den
  }

  predicate ShouldAttemptRecovery(c: Config, b: Breaker, now: int) {
    b.openTimestamp.Some? && c.openTimeout <= now - b.openTimestamp.value
  }

  function ToOpen(b: Breaker, now: int): Breaker {
    b.(state := OPEN, openTimestamp := Some(now), halfOpenCalls := 0)
  }

  function AfterSuccess(c: Config, b: Breaker, now: int): Breaker {
    var m := b.metrics;
    var b1 := b.(
      metrics := m.(totalRequests := m.totalRequests + 1, successfulRequests := m.successfulRequests + 1,
                    consecutiveSuccesses := m.consecutiveSuccesses + 1, consecutiveFailures := 0,
                    lastSuccessTime := Some(now)),
      failureWindow := Push(b.failureWindow, true));
    if b.state != HALF_OPEN then b1
    else if b.halfOpenCalls + 1 < c.halfOpenMaxCalls then b1.(halfOpenCalls := b.halfOpenCalls + 1)
    else b1.(state := CLOSED, openTimestamp := None, halfOpenCalls := 0)
  }

  function AfterFailure(c: Config, b: Breaker, now: int, openedAt: int): Breaker {
    var m := b.metrics;
    var b1 := b.(
      metrics := m.(totalRequests := m.totalRequests + 1, failedRequests := m.failedRequests + 1,
                    consecutiveFailures := m.consecutiveFailures + 1, consecutiveSuccesses := 0,
                    lastFailureTime := Some(now)),
      failureWindow := Push(b.failureWindow, false));
    if b.state == HALF_OPEN || (b.state == CLOSED && ShouldTrip(c, b1.metrics)) then ToOpen(b1, openedAt)
    else b1
  }

  /** Asking whether a request may run also moves an open circuit on once its time is up. */
  function AfterProbe(c: Config, b: Breaker, now: int): Breaker {
    if b.state == OPEN && ShouldAttemptRecovery(c, b, now)
    then b.(state := HALF_OPEN, halfOpenCalls := 0)
    else b
  }

  predicate CanExecute(c: Config, b: Breaker, now: int) {
    match b.state
    case CLOSED => true
    case OPEN => ShouldAttemptRecovery(c, b, now)
    case HALF_OPEN => b.halfOpenCalls < c.halfOpenMaxCalls
  }

  /** The clock is read once more when a failure opens the circuit. */
  datatype Event = Success(at: int) | Failure(at: int, openedAt: int) | Probe(at: int) | Reset

  function Step(c: Config, b: Breaker, e: Event): Breaker {
    match e
    case Success(at) => AfterSuccess(c, b, at)
    case Failure(at, openedAt) => AfterFailure(c, b, at, openedAt)
    case Probe(at) => AfterProbe(c, b, at)
    case Reset => FRESH
  }

  /** The breaker after the first `k` events. */
  function After(c: Config, b: Breaker, events: seq<Event>, k: nat): Breaker
    requires k <= |events|
  {
    if k == 0 then b else Step(c, After(c, b, events, k - 1), events[k - 1])
  }

  lemma {:induction false} AfterPrefix(c: Config, b: Breaker, events: seq<Event>, e: Event, k: nat)
    requires k <= |events|
    ensures After(c, b, events + [e], k) == After(c, b, events, k)
  {
    if 0 < k {
      AfterPrefix(c, b, events, e, k - 1);
    }
  }

  // ------------------------------------------------------------------ when requests are refused

  lemma {:induction false} StateFacts(c: Config, events: seq<Event>, k: nat)
    requires k <= |events|
    ensures var b := After(c, FRESH, events, k);
      && (b.state == HALF_OPEN ==> b.halfOpenCalls < c.halfOpenMaxCalls)
      && (b.state != HALF_OPEN ==> b.halfOpenCalls == 0)
      && (b.state == CLOSED <==> b.openTimestamp.None?)
  {
    if 0 < k {
      StateFacts(c, events, k - 1);
    }
  }

  /** In every reachable state a request is refused exactly when the circuit is open and its timeout
      has not elapsed; in particular a half-open circuit refuses nothing. */
  lemma RefusedExactly(c: Config, events: seq<Event>, k: nat, now: int)
    requires k <= |events|
    ensures var b := After(c, FRESH, events, k);
      && (b.state == OPEN ==> b.openTimestamp.Some?)
      && (!CanExecute(c, b, now) <==> b.state == OPEN && now - b.openTimestamp.value < c.openTimeout)
  {
    StateFacts(c, events, k);
  }

  // ------------------------------------------------------------------ how a circuit closes

  function Successes(events: seq<Event>, from: nat, to: nat): nat
    requires from <= to <= |events|
  {
    if from == to then 0 else Successes(events, from, to - 1) + if events[to - 1].Success? then 1 else 0
  }

  /** Only a failure opens a circuit. */
  lemma OpeningStep(c: Config, b: Breaker, e: Event)
    requires b.state != OPEN && Step(c, b, e).state == OPEN
    ensures e.Failure? && Step(c, b, e).openTimestamp == Some(e.openedAt)
  {
  }

  lemma StillOpenStep(c: Config, b: Breaker, e: Event)
    requires b.state == OPEN && Step(c, b, e).state == OPEN
    ensures Step(c, b, e).openTimestamp == b.openTimestamp
  {
  }

  /** While the circuit is open it remembers when a failure opened it. */
  lemma {:induction false} OpenSince(c: Config, events: seq<Event>, k: nat) returns (i: nat)
    requires k <= |events| && After(c, FRESH, events, k).state == OPEN
    ensures i < k && events[i].Failure?
    ensures After(c, FRESH, events, i).state != OPEN
    ensures forall m :: i < m <= k ==> After(c, FRESH, events, m).state == OPEN
    ensures After(c, FRESH, events, k).openTimestamp == Some(events[i].openedAt)
  {
    if After(c, FRESH, events, k - 1).state == OPEN {
      i := OpenSince(c, events, k - 1);
      StillOpenStep(c, After(c, FRESH, events, k - 1), events[k - 1]);
    } else {
      i := k - 1;
      OpeningStep(c, After(c, FRESH, events, k - 1), events[k - 1]);
    }
  }

  /** While the circuit is half-open, everything since the probe that moved it there was a success,
      and counted, or another probe; and that probe came no earlier than the timeout allows. */
  lemma {:induction false} HalfOpenSince(c: Config, events: seq<Event>, j: nat) returns (i: nat, k: nat)
    requires j <= |events| && After(c, FRESH, events, j).state == HALF_OPEN
    ensures i < k < j && events[i].Failure? && events[k].Probe?
    ensures After(c, FRESH, events, i).state != OPEN
    ensures forall m :: i < m <= k ==> After(c, FRESH, events, m).state == OPEN
    ensures c.openTimeout <= events[k].at - events[i].openedAt
    ensures forall m :: k < m <= j ==> After(c, FRESH, events, m).state == HALF_OPEN
    ensures forall m :: k < m < j ==> events[m].Success? || events[m].Probe?
    ensures Successes(events, k + 1, j) == After(c, FRESH, events, j).halfOpenCalls
  {
    if After(c, FRESH, events, j - 1).state == HALF_OPEN {
      i, k := HalfOpenSince(c, events, j - 1);
    } else {
      k := j - 1;
      i := OpenSince(c, events, k);
    }
  }

  /** A circuit that closes other than by a reset was opened by a failure, stayed open for at least
      the timeout until a probe, and then saw exactly the configured number of successes, the last
      one just now, and no failure. */
  lemma ClosingEpisode(c: Config, events: seq<Event>, j: nat) returns (i: nat, k: nat)
    requires j < |events| && events[j] != Reset
    requires After(c, FRESH, events, j).state != CLOSED && After(c, FRESH, events, j + 1).state == CLOSED
    ensures i < k < j && events[i].Failure? && events[k].Probe?
    ensures After(c, FRESH, events, i).state != OPEN
    ensures forall m :: i < m <= k ==> After(c, FRESH, events, m).state == OPEN
    ensures c.openTimeout <= events[k].at - events[i].openedAt
    ensures forall m :: k < m <= j ==> After(c, FRESH, events, m).state == HALF_OPEN
    ensures forall m :: k < m <= j ==> events[m].Success? || events[m].Probe?
    ensures Successes(events, k + 1, j + 1) == c.halfOpenMaxCalls && events[j].Success?
  {
    StateFacts(c, events, j);
    i, k := HalfOpenSince(c, events, j);
  }

  // ------------------------------------------------------------------ how a circuit recovers

  /** Asked once the timeout is over an open circuit is half-open, and before that nothing changes. */
  lemma ProbedExactly(c: Config, b: Breaker, at: int)
    requires b.state == OPEN && b.openTimestamp.Some?
    ensures var b' := Step(c, b, Probe(at));
      && (b'.state == HALF_OPEN <==> c.openTimeout <= at - b.openTimestamp.value)
      && (at - b.openTimestamp.value < c.openTimeout ==> b' == b)
      && (b'.state == HALF_OPEN ==> b'.halfOpenCalls == 0)
  {
  }

  /** From half-open, with successes and probes only: half-open and counting, then closed. */
  ghost predicate Recovering(c: Config, b: Breaker, successes: nat) {
    if successes < c.halfOpenMaxCalls then b.state == HALF_OPEN && b.halfOpenCalls == successes
    else b.state == CLOSED && b.openTimestamp == None
  }

  lemma RecoveringStep(c: Config, b: Breaker, successes: nat, e: Event)
    requires Recovering(c, b, successes) && (e.Success? || e.Probe?)
    ensures Recovering(c, Step(c, b, e), successes + if e.Success? then 1 else 0)
  {
  }

  lemma {:induction false} RecoveringOn(c: Config, b: Breaker, rest: seq<Event>, k: nat)
    requires Recovering(c, b, 0)
    requires k <= |rest| && forall i :: 0 <= i < |rest| ==> rest[i].Success? || rest[i].Probe?
    ensures Recovering(c, After(c, b, rest, k), Successes(rest, 0, k))
  {
    if 0 < k {
      RecoveringOn(c, b, rest, k - 1);
      RecoveringStep(c, After(c, b, rest, k - 1), Successes(rest, 0, k - 1), rest[k - 1]);
    }
  }

  /** Every open circuit recovers: from any reachable open state, a probe at any time no earlier than the
      timeout after the opening, then successes with any probes between them, lead to a closed circuit
      exactly if there are as many successes as configured, and otherwise to a half-open one. */
  lemma RecoversExactly(c: Config, events: seq<Event>, at: int, rest: seq<Event>)
    requires var b := After(c, FRESH, events, |events|);
      b.state == OPEN && (b.openTimestamp.Some? ==> c.openTimeout <= at - b.openTimestamp.value)
    requires forall i :: 0 <= i < |rest| ==> rest[i].Success? || rest[i].Probe?
    ensures var b := After(c, FRESH, events, |events|);
      var state := After(c, Step(c, b, Probe(at)), rest, |rest|).state;
      && (state == CLOSED <==> c.halfOpenMaxCalls <= Successes(rest, 0, |rest|))
      && (state == HALF_OPEN <==> Successes(rest, 0, |rest|) < c.halfOpenMaxCalls)
  {
    var b := After(c, FRESH, events, |events|);
    StateFacts(c, events, |events|);
    ProbedExactly(c, b, at);
    RecoveringOn(c, Step(c, b, Probe(at)), rest, |rest|);
  }

  /** A failure sends a half-open circuit back to open, for another full timeout; in an open one, outcomes
      that come late change neither state nor timeout. */
  lemma LateOutcomes(c: Config, b: Breaker, e: Event)
    requires e.Success? || e.Failure?
    ensures b.state == HALF_OPEN && e.Failure? ==>
      Step(c, b, e).state == OPEN && Step(c, b, e).openTimestamp == Some(e.openedAt)
    ensures b.state == OPEN ==>
      Step(c, b, e).state == OPEN && Step(c, b, e).openTimestamp == b.openTimestamp
  {
  }

  /** After a reset nothing that came before plays a part. */
  lemma {:induction false} ResetForgets(c: Config, b: Breaker, events: seq<Event>, k: nat)
    requires 0 < k <= |events| && events[0] == Reset
    ensures After(c, b, events, k) == After(c, FRESH, events, k)
  {
    if 1 < k {
      ResetForgets(c, b, events, k - 1);
    } else {
      assert After(c, b, events, 0) == b && After(c, FRESH, events, 0) == FRESH;
    }
  }

  // ------------------------------------------------------------------ when a circuit opens

  predicate AllFailures(events: seq<Event>) {
    forall k :: 0 <= k < |events| ==> events[k].Failure?
  }

  predicate Trips(c: Config, total: nat, failed: nat) {
    c.minimumRequests <= total && c.num * total <= failed * c.den
  }

  /** One more failure can only bring the lifetime rate closer to the threshold. */
  lemma TripsStays(c: Config, total: nat, failed: nat)
    requires c.Valid() && Trips(c, total, failed)
    ensures Trips(c, total + 1, failed + 1)
  {
    assert c.num * (total + 1) == c.num * total + c.num;
    assert (failed + 1) * c.den == failed * c.den + c.den;
  }

  /** A streak of failures has opened a closed circuit exactly when the lifetime totals, the streak
      included, meet the rule; earlier histories, also from before a recovery, count in full. */
  lemma {:induction false} StreakOpensExactly(c: Config, b: Breaker, streak: seq<Event>, k: nat)
    requires c.Valid() && b.state == CLOSED && AllFailures(streak) && k <= |streak|
    ensures var b' := After(c, b, streak, k);
      && b'.metrics.totalRequests == b.metrics.totalRequests + k
      && b'.metrics.failedRequests == b.metrics.failedRequests + k
      && b'.state != HALF_OPEN
      && (b'.state == OPEN <==> 0 < k && Trips(c, b.metrics.totalRequests + k, b.metrics.failedRequests + k))
  {
    if 0 < k {
      StreakOpensExactly(c, b, streak, k - 1);
      OneMoreFailure(c, After(c, b, streak, k - 1), streak[k - 1]);
    }
  }

  lemma OneMoreFailure(c: Config, b: Breaker, e: Event)
    requires c.Valid() && b.state != HALF_OPEN && e.Failure?
    requires b.state == OPEN ==> Trips(c, b.metrics.totalRequests, b.metrics.failedRequests)
    ensures var b' := Step(c, b, e);
      && b'.metrics.totalRequests == b.metrics.totalRequests + 1
      && b'.metrics.failedRequests == b.metrics.failedRequests + 1
      && b'.state != HALF_OPEN
      && (b'.state == OPEN <==> Trips(c, b'.metrics.totalRequests, b'.metrics.failedRequests))
  {
    if b.state == OPEN {
      TripsStays(c, b.metrics.totalRequests, b.metrics.failedRequests);
    }
  }

  lemma AtLeastCeil(k: nat, a: nat, d: Pos)
    ensures a <= k * d <==> CeilDiv(a, d) <= k
  {
    var q := CeilDiv(a, d);
    assert d * q <= a + d - 1 < d * q + d;
    if q <= k {
      MulMonotone(d, q, k);
    } else {
      MulMonotone(d, k + 1, q);
    }
  }

  function Max(a: int, b: int): int {
    if a < b then b else a
  }

  /** The number of failures in a row that open a circuit with `s` successes behind it. */
  function TripPoint(c: Config, s: nat): int
    requires c.num < c.den
  {
    MulMonotone(s, 0, c.num);
    Max(1, Max(c.minimumRequests - s, CeilDiv(s * c.num, c.den - c.num)))
  }

  lemma TripsAtTripPoint(c: Config, s: nat, k: nat)
    requires c.num < c.den && 0 < k
    ensures Trips(c, s + k, k) <==> TripPoint(c, s) <= k
  {
    MulMonotone(s, 0, c.num);
    AtLeastCeil(k, s * c.num, c.den - c.num);
    assert k * (c.den - c.num) == k * c.den - k * c.num;
    assert c.num * (s + k) == s * c.num + k * c.num;
  }

  predicate AllSuccesses(events: seq<Event>) {
    forall k :: 0 <= k < |events| ==> events[k].Success?
  }

  lemma {:induction false} SuccessesStayClosed(c: Config, events: seq<Event>, k: nat)
    requires AllSuccesses(events) && k <= |events|
    ensures var b := After(c, FRESH, events, k);
      b.state == CLOSED && b.metrics.totalRequests == k && b.metrics.failedRequests == 0
  {
    if 0 < k {
      SuccessesStayClosed(c, events, k - 1);
    }
  }

  /** From a fresh breaker with a threshold below 1: after `s` successes, a streak of failures opens
      the circuit at failure number max(1, minimum - s, ceil(num*s/(den-num))), never earlier. */
  lemma OpensAtTripPoint(c: Config, successes: seq<Event>, streak: seq<Event>, k: nat)
    requires c.num < c.den && AllSuccesses(successes) && AllFailures(streak) && k <= |streak|
    ensures var b := After(c, FRESH, successes, |successes|);
      After(c, b, streak, k).state == OPEN <==> TripPoint(c, |successes|) <= k
  {
    var b := After(c, FRESH, successes, |successes|);
    SuccessesStayClosed(c, successes, |successes|);
    StreakOpensExactly(c, b, streak, k);
    if 0 < k {
      TripsAtTripPoint(c, |successes|, k);
    }
  }

  /** With a threshold of 1 the rule is met exactly by the minimum of requests, all of them failed. */
  lemma FullThresholdTrips(c: Config, total: nat, failed: nat)
    requires c.num == c.den && failed <= total
    ensures Trips(c, total, failed) <==> c.minimumRequests <= total && failed == total
  {
    assert failed * c.den - c.num * total == c.den * (failed - total);
    if failed < total {
      MulMonotone(c.den, failed - total, -1);
    }
  }

  /** With a threshold of 1, a streak of failures opens a closed circuit exactly when no success was
      ever recorded, with the last of the minimum number of failures. */
  lemma FullThreshold(c: Config, b: Breaker, streak: seq<Event>, k: nat)
    requires c.num == c.den && b.state == CLOSED && AllFailures(streak) && k <= |streak|
    requires b.metrics.failedRequests + b.metrics.successfulRequests == b.metrics.totalRequests
    ensures After(c, b, streak, k).state == OPEN <==>
      0 < k && b.metrics.successfulRequests == 0 && c.minimumRequests <= b.metrics.totalRequests + k
  {
    StreakOpensExactly(c, b, streak, k);
    FullThresholdTrips(c, b.metrics.totalRequests + k, b.metrics.failedRequests + k);
  }

  /** A closed circuit with a success behind it. */
  predicate Protected(b: Breaker) {
    && b.state == CLOSED && 0 < b.metrics.successfulRequests
    && b.metrics.failedRequests + b.metrics.successfulRequests == b.metrics.totalRequests
  }

  lemma StaysProtected(c: Config, b: Breaker, e: Event)
    requires c.num == c.den && Protected(b) && e != Reset
    ensures Protected(Step(c, b, e))
  {
    FullThresholdTrips(c, b.metrics.totalRequests + 1, b.metrics.failedRequests + 1);
  }

  /** With a threshold of 1, once a success is recorded a closed circuit stays closed for good, whatever
      happens short of a reset. */
  lemma {:induction false} OneSuccessProtects(c: Config, b: Breaker, events: seq<Event>, k: nat)
    requires c.num == c.den && Protected(b)
    requires k <= |events| && forall i :: 0 <= i < k ==> events[i] != Reset
    ensures Protected(After(c, b, events, k))
  {
    if 0 < k {
      OneSuccessProtects(c, b, events, k - 1);
      StaysProtected(c, After(c, b, events, k - 1), events[k - 1]);
    }
  }

  // ------------------------------------------------------------------ how many test calls are admitted

  /** Event number `j` asks about a request, and the request is admitted. */
  predicate Admits(c: Config, events: seq<Event>, j: nat)
    requires j < |events|
  {
    events[j].Probe? && CanExecute(c, After(c, FRESH, events, j), events[j].at)
  }

  /** The test calls admitted so far in the current half-open period, with the one that began it. */
  function Admitted(c: Config, events: seq<Event>, j: nat): nat
    requires j <= |events|
  {
    if j == 0 || After(c, FRESH, events, j).state != HALF_OPEN then 0
    else Admitted(c, events, j - 1) + if Admits(c, events, j - 1) then 1 else 0
  }

  /** Those of them that no recorded success has answered yet. */
  function Outstanding(c: Config, events: seq<Event>, j: nat): int
    requires j <= |events|
  {
    Admitted(c, events, j) - After(c, FRESH, events, j).halfOpenCalls
  }

  ghost predicate AtMostOutstanding(c: Config, events: seq<Event>, q: int) {
    forall j :: 0 <= j <= |events| ==> Outstanding(c, events, j) <= q
  }

  ghost predicate LimitsTestCalls(c: Config, events: seq<Event>) {
    forall j :: 0 <= j <= |events| ==> Admitted(c, events, j) <= c.halfOpenMaxCalls
  }

  /** A half-open period admits at most as many test calls as may still succeed without closing the
      circuit, and those outstanding. */
  lemma AdmittedBound(c: Config, events: seq<Event>, j: nat)
    requires j <= |events|
    ensures 0 < Admitted(c, events, j) ==>
      Admitted(c, events, j) <= c.halfOpenMaxCalls - 1 + Outstanding(c, events, j)
  {
    StateFacts(c, events, j);
  }

  lemma {:induction false} PrefixStays(c: Config, events: seq<Event>, e: Event, j: nat)
    requires j <= |events|
    ensures After(c, FRESH, events + [e], j) == After(c, FRESH, events, j)
    ensures Admitted(c, events + [e], j) == Admitted(c, events, j)
  {
    AfterPrefix(c, FRESH, events, e, j);
    if 0 < j {
      AfterPrefix(c, FRESH, events, e, j - 1);
      PrefixStays(c, events, e, j - 1);
    }
  }

  /** A history as far as test calls are concerned: where it has led, and how many are admitted. */
  ghost predicate LeadsTo(c: Config, events: seq<Event>, b: Breaker, admitted: nat, q: int) {
    && After(c, FRESH, events, |events|) == b
    && Admitted(c, events, |events|) == admitted
    && AtMostOutstanding(c, events, q)
  }

  lemma OutstandingStays(c: Config, events: seq<Event>, e: Event, q: int)
    requires AtMostOutstanding(c, events, q)
    ensures forall j :: 0 <= j <= |events| ==> Outstanding(c, events + [e], j) <= q
  {
    forall j | 0 <= j <= |events| ensures Outstanding(c, events + [e], j) <= q {
      PrefixStays(c, events, e, j);
      assert Outstanding(c, events, j) <= q;
    }
  }

  lemma LastEvent(c: Config, events: seq<Event>, e: Event)
    ensures var b, b' := After(c, FRESH, events, |events|), After(c, FRESH, events + [e], |events| + 1);
      && b' == Step(c, b, e)
      && Admitted(c, events + [e], |events| + 1) == if b'.state != HALF_OPEN then 0
           else Admitted(c, events, |events|) + if e.Probe? && CanExecute(c, b, e.at) then 1 else 0
  {
    PrefixStays(c, events, e, |events|);
    assert (events + [e])[|events|] == e;
  }

  lemma OneMoreEvent(c: Config, events: seq<Event>, b: Breaker, admitted: nat, q: int, e: Event)
    requires LeadsTo(c, events, b, admitted, q)
    ensures var b' := Step(c, b, e);
      var admitted' := if b'.state != HALF_OPEN then 0
        else admitted + if e.Probe? && CanExecute(c, b, e.at) then 1 else 0;
      admitted' - b'.halfOpenCalls <= q ==> LeadsTo(c, events + [e], b', admitted', q)
  {
    OutstandingStays(c, events, e, q);
    LastEvent(c, events, e);
  }

  lemma FailuresLeaveNothingOpen(c: Config, streak: seq<Event>, j: nat)
    requires c.Valid() && AllFailures(streak) && j <= |streak|
    ensures After(c, FRESH, streak, j).halfOpenCalls == 0 && Outstanding(c, streak, j) == 0
  {
    StreakOpensExactly(c, FRESH, streak, j);
    StateFacts(c, streak, j);
  }

  lemma OpenFromThen(c: Config, streak: seq<Event>)
    requires After(c, FRESH, streak, |streak|).state == OPEN
    requires forall i :: 0 <= i < |streak| ==> streak[i] == Failure(0, 0)
    ensures After(c, FRESH, streak, |streak|).openTimestamp == Some(0)
  {
    var i := OpenSince(c, streak, |streak|);
  }

  /** The streak that opens a fresh breaker: the minimum number of failures. */
  lemma OpeningStreak(c: Config, n: nat) returns (streak: seq<Event>)
    requires c.Valid() && n == c.minimumRequests
    ensures var b := After(c, FRESH, streak, |streak|);
      b.state == OPEN && b.openTimestamp == Some(0) && b.halfOpenCalls == 0 && LeadsTo(c, streak, b, 0, 0)
  {
    streak := seq(n, i => Failure(0, 0));
    MulMonotone(n, c.num, c.den);
    StreakOpensExactly(c, FRESH, streak, n);
    OpenFromThen(c, streak);
    forall j | 0 <= j <= n ensures Outstanding(c, streak, j) == 0 {
      FailuresLeaveNothingOpen(c, streak, j);
    }
    FailuresLeaveNothingOpen(c, streak, n);
  }

  /** Test calls taken in turns, each asked for after the one before succeeded: `h` have. */
  lemma {:induction false} TakingTurns(c: Config, h: nat) returns (events: seq<Event>)
    requires c.Valid() && h < c.halfOpenMaxCalls
    ensures var b := After(c, FRESH, events, |events|);
      b.state == HALF_OPEN && b.halfOpenCalls == h && LeadsTo(c, events, b, h + 1, 1)
  {
    var probe, success := Probe(c.openTimeout), Success(c.openTimeout);
    if h == 0 {
      var streak := OpeningStreak(c, c.minimumRequests);
      OneMoreEvent(c, streak, After(c, FRESH, streak, |streak|), 0, 1, probe);
      events := streak + [probe];
    } else {
      var before := TakingTurns(c, h - 1);
      var b := After(c, FRESH, before, |before|);
      OneMoreEvent(c, before, b, h, 1, success);
      var answered := before + [success];
      OneMoreEvent(c, answered, Step(c, b, success), h, 1, probe);
      events := answered + [probe];
    }
  }

  /** Asked for one test call before the last one is answered, a half-open circuit admits one too many. */
  lemma OneTestCallTooMany(c: Config) returns (events: seq<Event>)
    requires c.Valid()
    ensures AtMostOutstanding(c, events, 2) && Admitted(c, events, |events|) == c.halfOpenMaxCalls + 1
  {
    var turns := TakingTurns(c, c.halfOpenMaxCalls - 1);
    var b := After(c, FRESH, turns, |turns|);
    OneMoreEvent(c, turns, b, c.halfOpenMaxCalls, 2, Probe(c.openTimeout));
    events := turns + [Probe(c.openTimeout)];
  }

  /** The number of test calls is respected, by all histories with at most `q` of them outstanding,
      exactly if `q` is at most 1: if callers wait for one answer before they ask again. */
  lemma HalfOpenLimitExactly(c: Config, q: int)
    requires c.Valid()
    ensures (forall events :: AtMostOutstanding(c, events, q) ==> LimitsTestCalls(c, events)) <==> q <= 1
  {
    if q <= 1 {
      forall events | AtMostOutstanding(c, events, q) ensures LimitsTestCalls(c, events) {
        forall j | 0 <= j <= |events| ensures Admitted(c, events, j) <= c.halfOpenMaxCalls {
          AdmittedBound(c, events, j);
          assert Outstanding(c, events, j) <= q;
        }
      }
    } else {
      var events := OneTestCallTooMany(c);
      assert AtMostOutstanding(c, events, q);
      assert !LimitsTestCalls(c, events);
    }
  }

  // ------------------------------------------------------------------ metrics and history

  /** The outcomes recorded since the last reset. */
  function Outcomes(events: seq<Event>, k: nat): seq<bool>
    requires k <= |events|
  {
    if k == 0 then []
    else
      match events[k - 1]
      case Success(_) => Outcomes(events, k - 1) + [true]
      case Failure(_, _) => Outcomes(events, k - 1) + [false]
      case Probe(_) => Outcomes(events, k - 1)
      case Reset => []
  }

  function CountOf(outcomes: seq<bool>, v: bool): nat {
    if |outcomes| == 0 then 0
    else CountOf(outcomes[..|outcomes| - 1], v) + if outcomes[|outcomes| - 1] == v then 1 else 0
  }

  /** The length of the longest run of `v` at the end. */
  function TrailingRun(outcomes: seq<bool>, v: bool): nat {
    if |outcomes| == 0 || outcomes[|outcomes| - 1] != v then 0
    else 1 + TrailingRun(outcomes[..|outcomes| - 1], v)
  }

  function LastOf(outcomes: seq<bool>, n: nat): seq<bool> {
    if |outcomes| <= n then outcomes else outcomes[|outcomes| - n..]
  }

  ghost predicate Counts(m: Metrics, outcomes: seq<bool>) {
    && m.totalRequests == |outcomes|
    && m.successfulRequests == CountOf(outcomes, true)
    && m.failedRequests == CountOf(outcomes, false)
    && m.consecutiveSuccesses == TrailingRun(outcomes, true)
    && m.consecutiveFailures == TrailingRun(outcomes, false)
  }

  ghost predicate Describes(b: Breaker, outcomes: seq<bool>) {
    Counts(b.metrics, outcomes) && b.failureWindow == LastOf(outcomes, WINDOW_SIZE)
  }

  lemma PushKeepsLast(outcomes: seq<bool>, v: bool)
    ensures Push(LastOf(outcomes, WINDOW_SIZE), v) == LastOf(outcomes + [v], WINDOW_SIZE)
  {
  }

  lemma OneMoreOutcome(outcomes: seq<bool>, v: bool)
    ensures CountOf(outcomes + [v], v) == CountOf(outcomes, v) + 1
    ensures CountOf(outcomes + [v], !v) == CountOf(outcomes, !v)
    ensures TrailingRun(outcomes + [v], v) == TrailingRun(outcomes, v) + 1
    ensures TrailingRun(outcomes + [v], !v) == 0
  {
    assert (outcomes + [v])[..|outcomes|] == outcomes;
  }

  lemma SuccessDescribed(c: Config, b: Breaker, now: int, outcomes: seq<bool>)
    requires Describes(b, outcomes)
    ensures Describes(AfterSuccess(c, b, now), outcomes + [true])
  {
    PushKeepsLast(outcomes, true);
    OneMoreOutcome(outcomes, true);
  }

  lemma FailureDescribed(c: Config, b: Breaker, now: int, openedAt: int, outcomes: seq<bool>)
    requires Describes(b, outcomes)
    ensures Describes(AfterFailure(c, b, now, openedAt), outcomes + [false])
  {
    PushKeepsLast(outcomes, false);
    OneMoreOutcome(outcomes, false);
  }

  /** The counters and the window are functions of the outcomes since the last reset. */
  lemma {:induction false} MetricsRefineHistory(c: Config, events: seq<Event>, k: nat)
    requires k <= |events|
    ensures Describes(After(c, FRESH, events, k), Outcomes(events, k))
  {
    if 0 < k {
      MetricsRefineHistory(c, events, k - 1);
      var b, outcomes := After(c, FRESH, events, k - 1), Outcomes(events, k - 1);
      match events[k - 1]
      case Success(at) => SuccessDescribed(c, b, at, outcomes);
      case Failure(at, openedAt) => FailureDescribed(c, b, at, openedAt, outcomes);
      case Probe(_) =>
      case Reset =>
    }
  }

  /** When the last outcome of the given kind since the last reset was recorded. */
  function LastRecorded(events: seq<Event>, k: nat, success: bool): Option<int>
    requires k <= |events|
  {
    if k == 0 then None
    else
      match events[k - 1]
      case Success(at) => if success then Some(at) else LastRecorded(events, k - 1, success)
      case Failure(at, _) => if success then LastRecorded(events, k - 1, success) else Some(at)
      case Probe(_) => LastRecorded(events, k - 1, success)
      case Reset => None
  }

  lemma {:induction false} TimesRefineHistory(c: Config, events: seq<Event>, k: nat)
    requires k <= |events|
    ensures var m := After(c, FRESH, events, k).metrics;
      && m.lastSuccessTime == LastRecorded(events, k, true)
      && m.lastFailureTime == LastRecorded(events, k, false)
  {
    if 0 < k {
      TimesRefineHistory(c, events, k - 1);
    }
  }

  // ------------------------------------------------------------------ window and lifetime

  /** The trip rule, read over the window of recent outcomes instead of the lifetime totals. */
  predicate WindowTrips(c: Config, window: seq<bool>) {
    Trips(c, |window|, CountOf(window, false))
  }

  ghost predicate WindowAgrees(c: Config, events: seq<Event>) {
    var b := After(c, FRESH, events, |events|);
    WindowTrips(c, b.failureWindow) == ShouldTrip(c, b.metrics)
  }

  /** `s` successes, then failures up to `n` requests. */
  function Mixed(s: nat, n: nat): seq<Event> {
    seq(n, i requires 0 <= i => if i < s then Success(0) else Failure(0, 0))
  }

  lemma {:induction false} MixedOutcomes(s: nat, n: nat, k: nat)
    requires k <= n
    ensures Outcomes(Mixed(s, n), k) == seq(k, i requires 0 <= i => i < s)
  {
    if 0 < k {
      MixedOutcomes(s, n, k - 1);
    }
  }

  lemma {:induction false} CountConstant(outcomes: seq<bool>, v: bool)
    requires forall i :: 0 <= i < |outcomes| ==> outcomes[i] == v
    ensures CountOf(outcomes, v) == |outcomes| && CountOf(outcomes, !v) == 0
  {
    if 0 < |outcomes| {
      CountConstant(outcomes[..|outcomes| - 1], v);
    }
  }

  lemma {:induction false} CountSplits(outcomes: seq<bool>)
    ensures CountOf(outcomes, true) + CountOf(outcomes, false) == |outcomes|
  {
    if 0 < |outcomes| {
      CountSplits(outcomes[..|outcomes| - 1]);
    }
  }

  lemma {:induction false} CountPositive(outcomes: seq<bool>, i: nat)
    requires i < |outcomes|
    ensures 0 < CountOf(outcomes, outcomes[i])
  {
    if i < |outcomes| - 1 {
      CountPositive(outcomes[..|outcomes| - 1], i);
    }
  }

  const FULL := Config(1, 1, 1, 1, 1)

  /** With more requests than the window holds: enough early successes, and a window of failures. */
  lemma WindowForgets(n: nat)
    requires WINDOW_SIZE < n
    ensures var events := Mixed(n - WINDOW_SIZE, n);
      |Outcomes(events, |events|)| == n && !WindowAgrees(FULL, events)
  {
    var events := Mixed(n - WINDOW_SIZE, n);
    var b, outcomes := After(FULL, FRESH, events, n), Outcomes(events, n);
    MixedOutcomes(n - WINDOW_SIZE, n, n);
    MetricsRefineHistory(FULL, events, n);
    assert outcomes[0];
    CountPositive(outcomes, 0);
    CountSplits(outcomes);
    FullThresholdTrips(FULL, n, CountOf(outcomes, false));
    assert b.failureWindow == outcomes[n - WINDOW_SIZE..];
    CountConstant(b.failureWindow, false);
    FullThresholdTrips(FULL, WINDOW_SIZE, WINDOW_SIZE);
  }

  /** Reading the rate off the window would decide like the lifetime rate does, for every config and
      every history of `n` requests since the last reset, exactly as long as the window holds them all. */
  lemma WindowAgreesExactly(n: nat)
    ensures (forall c: Config, events ::
              |Outcomes(events, |events|)| == n ==> WindowAgrees(c, events))
       <==> n <= WINDOW_SIZE
  {
    if n <= WINDOW_SIZE {
      forall c: Config, events | |Outcomes(events, |events|)| == n ensures WindowAgrees(c, events) {
        MetricsRefineHistory(c, events, |events|);
      }
    } else {
      WindowForgets(n);
    }
  }

  // ------------------------------------------------------------------ the breaker

  class CircuitBreaker {
    const config: Config
    var state: CircuitState
    var metrics: Metrics
    var failureWindow: seq<bool>
    var openTimestamp: Option<int>
    var halfOpenCalls: nat

    function Snapshot(): Breaker
      reads this
    {
      Breaker(state, metrics, failureWindow, openTimestamp, halfOpenCalls)
    }

    constructor (config: Config)
      ensures this.config == config && Snapshot() == FRESH
    {
      this.config := config;
      state, metrics, failureWindow, openTimestamp, halfOpenCalls := CLOSED, NO_METRICS, [], None, 0;
    }

    method RecordSuccess(now: int)
      modifies this
      ensures Snapshot() == Step(config, old(Snapshot()), Success(now))
    {
      metrics := metrics.(
        totalRequests := metrics.totalRequests + 1,
        successfulRequests := metrics.successfulRequests + 1,
        consecutiveSuccesses := metrics.consecutiveSuccesses + 1,
        consecutiveFailures := 0,
        lastSuccessTime := Some(now));
      failureWindow := Push(failureWindow, true);
      if state == HALF_OPEN {
        halfOpenCalls := halfOpenCalls + 1;
        if halfOpenCalls >= config.halfOpenMaxCalls {
          TransitionToClosed();
        }
      }
    }

    method RecordFailure(now: int, openedAt: int)
      modifies this
      ensures Snapshot() == Step(config, old(Snapshot()), Failure(now, openedAt))
    {
      metrics := metrics.(
        totalRequests := metrics.totalRequests + 1,
        failedRequests := metrics.failedRequests + 1,
        consecutiveFailures := metrics.consecutiveFailures + 1,
        consecutiveSuccesses := 0,
        lastFailureTime := Some(now));
      failureWindow := Push(failureWindow, false);
      if state == HALF_OPEN {
        TransitionToOpen(openedAt);
      } else if state == CLOSED {
        if ShouldTrip(config, metrics) {
          TransitionToOpen(openedAt);
        }
      }
    }

    method Ask(now: int) returns (allowed: bool)
      modifies this
      ensures allowed == CanExecute(config, old(Snapshot()), now)
      ensures Snapshot() == Step(config, old(Snapshot()), Probe(now))
    {
      match state
      case CLOSED =>
        allowed := true;
      case OPEN =>
        allowed := ShouldAttemptRecovery(config, Snapshot(), now);
        if allowed {
          TransitionToHalfOpen();
        }
      case HALF_OPEN =>
        allowed := halfOpenCalls < config.halfOpenMaxCalls;
    }

    method TransitionToOpen(now: int)
      modifies this
      ensures Snapshot() == ToOpen(old(Snapshot()), now)
    {
      state, openTimestamp, halfOpenCalls := OPEN, Some(now), 0;
    }

    method TransitionToHalfOpen()
      modifies this
      ensures Snapshot() == old(Snapshot()).(state := HALF_OPEN, halfOpenCalls := 0)
    {
      state, halfOpenCalls := HALF_OPEN, 0;
    }

    method TransitionToClosed()
      modifies this
      ensures Snapshot() == old(Snapshot()).(state := CLOSED, openTimestamp := None, halfOpenCalls := 0)
    {
      state, openTimestamp, halfOpenCalls := CLOSED, None, 0;
    }

    method ResetAll()
      modifies this
      ensures Snapshot() == Step(config, old(Snapshot()), Reset)
    {
      state, metrics, failureWindow, openTimestamp, halfOpenCalls := CLOSED, NO_METRICS, [], None, 0;
    }
  }
}
