/**
 Retrying failed provider requests with exponential backoff.

 What each attempt yields and what the random generator draws are supplied with a call.  There are
 two retry loops with a classification of errors each: the stand-alone handler and the provider
 base class.
*/
module Retry {
  import opened Wrappers
  import FB = Fallback

  type Positive = r: real | 0.0 < r witness 1.0

  type Multiplier = r: real | 1.0 < r witness 2.0

  /** A number between 0 and 1: where in its range a uniform draw falls. */
  type Fraction = r: real | 0.0 <= r <= 1.0 witness 0.0

  datatype Policy = Policy(
    maxRetries: nat,
    initialBackoff: Positive,
    maxBackoff: Positive,
    multiplier: Multiplier,
    jitter: bool)

  /** Failed requests: a timeout (while connecting or later), an HTTP status, no connection, others. */
  datatype Error = Timeout | Http(status: nat) | Connect | Other

  datatype Outcome<V> = Success(value: V) | Failure(error: Error)

  datatype ErrorType =
    | TIMEOUT | RATE_LIMIT | SERVER_ERROR | AUTH_ERROR | VALIDATION_ERROR | NETWORK_ERROR | UNKNOWN

  datatype Classified = Classified(isRetryable: bool, errorType: ErrorType)

  function ClassifyStatus(status: nat): Classified {
    if status == 429 then Classified(true, RATE_LIMIT)
    else if 500 <= status < 600 then Classified(true, SERVER_ERROR)
    else if status == 401 then Classified(false, AUTH_ERROR)
    else if status == 400 then Classified(false, VALIDATION_ERROR)
    else Classified(false, UNKNOWN)
  }

  /** The classification of the stand-alone handler. */
  function Classify(e: Error): Classified {
    match e
    case Timeout => Classified(true, TIMEOUT)
    case Http(status) => ClassifyStatus(status)
    case Connect => Classified(true, NETWORK_ERROR)
    case Other => Classified(false, UNKNOWN)
  }

  /** The classification of the provider base class. */
  function BaseClassify(e: Error): Classified {
    match e
    case Timeout => Classified(true, TIMEOUT)
    case Http(status) => ClassifyStatus(status)
    case Connect => Classified(true, SERVER_ERROR)
    case Other => Classified(false, UNKNOWN)
  }

  datatype Exception = TimeoutError | RateLimitError | AuthenticationError | ValidationError | UnavailableError

  function MapException(t: ErrorType): Exception {
    match t
    case TIMEOUT => TimeoutError
    case RATE_LIMIT => RateLimitError
    case AUTH_ERROR => AuthenticationError
    case VALIDATION_ERROR => ValidationError
    case _ => UnavailableError
  }

  /** How the provider service reads an exception when it decides about falling back. */
  function ServiceErrorType(e: Exception): FB.ErrorType {
    match e
    case TimeoutError => FB.TIMEOUT
    case RateLimitError => FB.RATE_LIMIT
    case AuthenticationError => FB.AUTH_ERROR
    case ValidationError => FB.VALIDATION_ERROR
    case UnavailableError => FB.SERVER_ERROR
  }

  /** Errors that may go away by themselves. */
  predicate Transient(e: Error) {
    e == Timeout || e == Connect || (e.Http? && (e.status == 429 || 500 <= e.status < 600))
  }

  /** The two classifications retry the same errors, and name them alike except lost connections. */
  lemma ClassificationsAgree(e: Error)
    ensures Classify(e).isRetryable == BaseClassify(e).isRetryable == Transient(e)
    ensures Classify(e).errorType == BaseClassify(e).errorType <==> e != Connect
    ensures Classify(e).errorType == NETWORK_ERROR <==> e == Connect
  {
  }

  /** What the provider service makes of an error that ended a provider's own attempts: through
      classification, exception and back, lost connections and unknown errors become server errors.
      So all but a 400 or a 401 lead on to a fallback, also errors that were not worth a retry. */
  lemma KindThatReachesService(e: Error)
    ensures var kind := ServiceErrorType(MapException(BaseClassify(e).errorType));
      && (kind == FB.TIMEOUT <==> e == Timeout)
      && (kind == FB.RATE_LIMIT <==> e == Http(429))
      && (kind == FB.AUTH_ERROR <==> e == Http(401))
      && (kind == FB.VALIDATION_ERROR <==> e == Http(400))
      && (FB.Fallbackable(kind) <==> e != Http(400) && e != Http(401))
      && (Transient(e) ==> FB.Fallbackable(kind))
  {
  }

  // ------------------------------------------------------------------ how many attempts

  predicate Final<V>(o: Outcome<V>) {
    o.Success? || !Transient(o.error)
  }

  /** The index of the first final outcome from `k` on; past the end if there is none. */
  function FirstFinal<V>(outcomes: seq<Outcome<V>>, k: nat): (i: nat)
    requires k <= |outcomes|
    ensures k <= i <= |outcomes|
    ensures forall j :: k <= j < i ==> !Final(outcomes[j])
    ensures i < |outcomes| ==> Final(outcomes[i])
    decreases |outcomes| - k
  {
    if k == |outcomes| || Final(outcomes[k]) then k else FirstFinal(outcomes, k + 1)
  }

  /** The attempts either loop makes when every attempt it is allowed has an outcome. */
  function Attempts<V>(outcomes: seq<Outcome<V>>): nat {
    var i := FirstFinal(outcomes, 0);
    if i < |outcomes| then i + 1 else i
  }

  /** A request succeeds exactly when some allowed attempt does and only transient errors precede it. */
  lemma SucceedsExactly<V>(outcomes: seq<Outcome<V>>)
    requires |outcomes| > 0
    ensures 1 <= Attempts(outcomes) <= |outcomes|
    ensures outcomes[Attempts(outcomes) - 1].Success? <==>
      exists k :: 0 <= k < |outcomes| && outcomes[k].Success?
                  && forall j :: 0 <= j < k ==> outcomes[j].Failure? && Transient(outcomes[j].error)
  {
    var i := FirstFinal(outcomes, 0);
    if i < |outcomes| && outcomes[i].Success? {
      assert forall j :: 0 <= j < i ==> !Final(outcomes[j]);
    }
    if k :| 0 <= k < |outcomes| && outcomes[k].Success?
            && forall j :: 0 <= j < k ==> outcomes[j].Failure? && Transient(outcomes[j].error) {
      assert Final(outcomes[k]);
      assert i <= k;
      if i < k {
        assert outcomes[i].Failure?;
      }
    }
  }

  // ------------------------------------------------------------------ how long the waits

  function Power(base: real, n: nat): real {
    if n == 0 then 1.0 else Power(base, n - 1) * base
  }

  function Min(a: real, b: real): real {
    if b < a then b else a
  }

  /** initial * multiplier^attempt: the wait after attempt number `attempt`, before capping and jitter. */
  function Uncapped(p: Policy, attempt: nat): real {
    if attempt == 0 then p.initialBackoff else Uncapped(p, attempt - 1) * p.multiplier
  }

  function Cap(p: Policy, attempt: nat): real {
    Min(Uncapped(p, attempt), p.maxBackoff)
  }

  /** Full jitter: anywhere between nothing and the cap. */
  function Jittered(jitter: bool, cap: real, draw: Fraction): (wait: real)
    requires 0.0 <= cap
    ensures 0.0 <= wait <= cap
  {
    Portion(cap, draw);
    if jitter then draw * cap else cap
  }

  function Backoff(p: Policy, attempt: nat, draw: Fraction): real {
    CapsGrow(p, attempt);
    Jittered(p.jitter, Cap(p, attempt), draw)
  }

  /** The waits of a run that drew the given numbers. */
  ghost predicate AreBackoffs(p: Policy, draws: seq<Fraction>, waits: seq<real>) {
    && |waits| <= |draws|
    && forall i :: 0 <= i < |waits| ==> waits[i] == Backoff(p, i, draws[i])
  }

  /** The first `n` waits together. */
  function Delay(waits: seq<real>, n: nat): real
    requires n <= |waits|
  {
    if n == 0 then 0.0 else Delay(waits, n - 1) + waits[n - 1]
  }

  lemma Scales(a: real, x: real, y: real)
    requires 0.0 <= a && x <= y
    ensures a * x <= a * y
  {
  }

  lemma Associates(a: real, x: real, y: real)
    ensures a * (x * y) == (a * x) * y
  {
  }

  lemma {:induction false} UncappedIsPower(p: Policy, attempt: nat)
    ensures Uncapped(p, attempt) == p.initialBackoff * Power(p.multiplier, attempt)
  {
    if 0 < attempt {
      UncappedIsPower(p, attempt - 1);
      Associates(p.initialBackoff, Power(p.multiplier, attempt - 1), p.multiplier);
    }
  }

  lemma {:induction false} UncappedGrows(p: Policy, attempt: nat)
    ensures p.initialBackoff <= Uncapped(p, attempt) <= Uncapped(p, attempt + 1)
  {
    if 0 < attempt {
      UncappedGrows(p, attempt - 1);
    }
    Scales(Uncapped(p, attempt), 1.0, p.multiplier);
  }

  lemma Portion(cap: real, draw: Fraction)
    requires 0.0 <= cap
    ensures 0.0 <= draw * cap <= cap
  {
    Scales(cap, draw, 1.0);
    Scales(cap, 0.0, draw);
  }

  lemma CapsGrow(p: Policy, attempt: nat)
    ensures 0.0 < Cap(p, attempt) <= p.maxBackoff && Cap(p, attempt) <= Cap(p, attempt + 1)
  {
    UncappedGrows(p, attempt);
  }

  /** Jitter spreads a wait evenly: the same step of the draw is the same step of the wait, from nothing to
      the cap; so every wait up to the cap is drawn somewhere, and nothing else is. */
  lemma JitterIsUniform(cap: real, a: Fraction, b: Fraction)
    requires 0.0 <= cap
    ensures Jittered(true, cap, b) - Jittered(true, cap, a) == (b - a) * cap
    ensures Jittered(true, cap, 0.0) == 0.0 && Jittered(true, cap, 1.0) == cap
    ensures Jittered(false, cap, a) == cap
  {
  }

  lemma JitterSpansExactly(cap: real, wait: real)
    requires 0.0 < cap
    ensures (exists draw: Fraction :: Jittered(true, cap, draw) == wait) <==> 0.0 <= wait <= cap
  {
    if 0.0 <= wait <= cap {
      DrawFor(cap, wait);
      var draw: Fraction := wait / cap;
      assert Jittered(true, cap, draw) == wait;
    }
  }

  lemma DrawFor(cap: real, wait: real)
    requires 0.0 < cap && 0.0 <= wait <= cap
    ensures 0.0 <= wait / cap <= 1.0 && wait / cap * cap == wait
  {
  }

  /** With and without jitter a wait lies between nothing and its cap, and caps never shrink. */
  lemma BackoffWithinCap(p: Policy, attempt: nat, draw: Fraction)
    ensures 0.0 <= Backoff(p, attempt, draw) <= Cap(p, attempt) <= p.maxBackoff
    ensures 0.0 < Cap(p, attempt) <= Cap(p, attempt + 1)
  {
    CapsGrow(p, attempt);
  }

  /** (multiplier - 1) times the delay, so that geometric sums need no division. */
  function Excess(p: Policy, delay: real): real {
    (p.multiplier - 1.0) * delay
  }

  lemma GeometricStep(p: Policy, before: real, wait: real, u: real)
    requires Excess(p, before) <= u - p.initialBackoff && wait <= u
    ensures Excess(p, before + wait) <= u * p.multiplier - p.initialBackoff
  {
    Scales(p.multiplier - 1.0, wait, u);
  }

  lemma GeometricStepExact(p: Policy, before: real, u: real)
    requires Excess(p, before) == u - p.initialBackoff
    ensures Excess(p, before + u) == u * p.multiplier - p.initialBackoff
  {
  }

  lemma OneMore(n: nat, x: real)
    ensures (n + 1) as real * x == n as real * x + x
  {
  }

  ghost predicate Bounded(p: Policy, waits: seq<real>) {
    forall i :: 0 <= i < |waits| ==> 0.0 <= waits[i] <= p.maxBackoff && waits[i] <= Uncapped(p, i)
  }

  lemma BackoffsAreBounded(p: Policy, draws: seq<Fraction>, waits: seq<real>)
    requires AreBackoffs(p, draws, waits)
    ensures Bounded(p, waits)
  {
    forall i | 0 <= i < |waits| ensures 0.0 <= waits[i] <= p.maxBackoff && waits[i] <= Uncapped(p, i) {
      BackoffWithinCap(p, i, draws[i]);
    }
  }

  lemma {:induction false} FlatBound(p: Policy, waits: seq<real>, n: nat)
    requires n <= |waits| && Bounded(p, waits)
    ensures 0.0 <= Delay(waits, n) <= n as real * p.maxBackoff
  {
    if 0 < n {
      FlatBound(p, waits, n - 1);
      OneMore(n - 1, p.maxBackoff);
    }
  }

  lemma {:induction false} GeometricBound(p: Policy, waits: seq<real>, n: nat)
    requires n <= |waits| && Bounded(p, waits)
    ensures Excess(p, Delay(waits, n)) <= Uncapped(p, n) - p.initialBackoff
  {
    if 0 < n {
      GeometricBound(p, waits, n - 1);
      GeometricStep(p, Delay(waits, n - 1), waits[n - 1], Uncapped(p, n - 1));
    }
  }

  lemma ClosedForm(p: Policy, total: real, n: nat)
    requires Excess(p, total) <= Uncapped(p, n) - p.initialBackoff
    ensures (p.multiplier - 1.0) * total <= p.initialBackoff * Power(p.multiplier, n) - p.initialBackoff
  {
    UncappedIsPower(p, n);
  }

  /** The waits of `n` retries together stay below `n` times the maximum and below the geometric sum
      initial * (multiplier^n - 1) / (multiplier - 1). */
  lemma DelayBounded(p: Policy, draws: seq<Fraction>, waits: seq<real>)
    requires AreBackoffs(p, draws, waits)
    ensures var n, total := |waits|, Delay(waits, |waits|);
      && 0.0 <= total <= n as real * p.maxBackoff
      && (p.multiplier - 1.0) * total <= p.initialBackoff * Power(p.multiplier, n) - p.initialBackoff
  {
    BackoffsAreBounded(p, draws, waits);
    FlatBound(p, waits, |waits|);
    GeometricBound(p, waits, |waits|);
    ClosedForm(p, Delay(waits, |waits|), |waits|);
  }

  lemma {:induction false} GeometricSum(p: Policy, waits: seq<real>, n: nat)
    requires n <= |waits| && forall i :: 0 <= i < n ==> waits[i] == Uncapped(p, i)
    ensures Excess(p, Delay(waits, n)) == Uncapped(p, n) - p.initialBackoff
  {
    if 0 < n {
      GeometricSum(p, waits, n - 1);
      GeometricStepExact(p, Delay(waits, n - 1), Uncapped(p, n - 1));
    }
  }

  lemma {:induction false} EarlierIsShorter(p: Policy, i: nat, j: nat)
    requires i <= j
    ensures Uncapped(p, i) <= Uncapped(p, j)
  {
    if i < j {
      EarlierIsShorter(p, i, j - 1);
      UncappedGrows(p, j - 1);
    }
  }

  lemma NoneIsCapped(p: Policy, draws: seq<Fraction>, waits: seq<real>)
    requires AreBackoffs(p, draws, waits) && !p.jitter
    requires 0 < |waits| ==> Uncapped(p, |waits| - 1) <= p.maxBackoff
    ensures forall i :: 0 <= i < |waits| ==> waits[i] == Uncapped(p, i)
  {
    forall i | 0 <= i < |waits| ensures waits[i] == Uncapped(p, i) {
      EarlierIsShorter(p, i, |waits| - 1);
      assert waits[i] == Backoff(p, i, draws[i]);
    }
  }

  /** Without jitter the geometric bound is attained as long as no wait was capped. */
  lemma GeometricBoundAttained(p: Policy, draws: seq<Fraction>, waits: seq<real>)
    requires AreBackoffs(p, draws, waits) && !p.jitter
    requires 0 < |waits| ==> Uncapped(p, |waits| - 1) <= p.maxBackoff
    ensures Excess(p, Delay(waits, |waits|)) == Uncapped(p, |waits|) - p.initialBackoff
  {
    NoneIsCapped(p, draws, waits);
    GeometricSum(p, waits, |waits|);
  }

  lemma {:induction false} ConstantSum(waits: seq<real>, wait: real, n: nat)
    requires n <= |waits| && forall i :: 0 <= i < n ==> waits[i] == wait
    ensures Delay(waits, n) == n as real * wait
  {
    if 0 < n {
      ConstantSum(waits, wait, n - 1);
      OneMore(n - 1, wait);
    }
  }

  /** Without jitter the other bound is attained when already the first wait is capped. */
  lemma FlatBoundAttained(p: Policy, draws: seq<Fraction>, waits: seq<real>)
    requires AreBackoffs(p, draws, waits) && !p.jitter && p.maxBackoff <= p.initialBackoff
    ensures Delay(waits, |waits|) == |waits| as real * p.maxBackoff
  {
    forall i | 0 <= i < |waits| ensures waits[i] == p.maxBackoff {
      UncappedGrows(p, i);
      assert waits[i] == Backoff(p, i, draws[i]);
    }
    ConstantSum(waits, p.maxBackoff, |waits|);
  }

  lemma {:induction false} DelayOfPrefix(waits: seq<real>, wait: real, n: nat)
    requires n <= |waits|
    ensures Delay(waits + [wait], n) == Delay(waits, n)
  {
    if 0 < n {
      DelayOfPrefix(waits, wait, n - 1);
    }
  }

  // ------------------------------------------------------------------ the two loops

  /** The stand-alone handler passes the last error on as it is. */
  method ExecuteWithRetry<V>(p: Policy, outcomes: seq<Outcome<V>>, draws: seq<Fraction>)
      returns (result: Result<V, Error>, slept: seq<real>, totalDelay: real)
    requires |outcomes| == p.maxRetries + 1 && |draws| == p.maxRetries
    ensures |slept| + 1 == Attempts(outcomes) <= p.maxRetries + 1
    ensures result == match outcomes[|slept|]
                      case Success(value) => Ok(value)
                      case Failure(error) => Err(error)
    ensures AreBackoffs(p, draws, slept) && totalDelay == Delay(slept, |slept|)
  {
    slept, totalDelay := [], 0.0;
    for attempt := 0 to p.maxRetries + 1
      invariant attempt <= p.maxRetries
      invariant FirstFinal(outcomes, 0) == FirstFinal(outcomes, attempt)
      invariant |slept| == attempt && AreBackoffs(p, draws, slept)
      invariant totalDelay == Delay(slept, attempt)
    {
      match outcomes[attempt]
      case Success(value) =>
        return Ok(value), slept, totalDelay;
      case Failure(error) =>
        var providerError := Classify(error);
        if !providerError.isRetryable || attempt >= p.maxRetries {
          return Err(error), slept, totalDelay;
        }
        var backoff := Backoff(p, attempt, draws[attempt]);
        DelayOfPrefix(slept, backoff, attempt);
        totalDelay := totalDelay + backoff;
        slept := slept + [backoff];
    }
    assert false;
  }

  /** The provider base class raises the exception for the kind of error; it makes as many attempts. */
  method BaseComplete<V>(p: Policy, outcomes: seq<Outcome<V>>, draws: seq<Fraction>)
      returns (result: Result<V, Exception>, slept: seq<real>)
    requires |outcomes| == p.maxRetries + 1 && |draws| == p.maxRetries
    ensures |slept| + 1 == Attempts(outcomes) <= p.maxRetries + 1
    ensures result == match outcomes[|slept|]
                      case Success(value) => Ok(value)
                      case Failure(error) => Err(MapException(BaseClassify(error).errorType))
    ensures AreBackoffs(p, draws, slept)
  {
    slept := [];
    for attempt := 0 to p.maxRetries + 1
      invariant attempt <= p.maxRetries
      invariant FirstFinal(outcomes, 0) == FirstFinal(outcomes, attempt)
      invariant |slept| == attempt && AreBackoffs(p, draws, slept)
    {
      match outcomes[attempt]
      case Success(value) =>
        return Ok(value), slept;
      case Failure(error) =>
        var providerError := BaseClassify(error);
        if !providerError.isRetryable || attempt >= p.maxRetries {
          return Err(MapException(providerError.errorType)), slept;
        }
        slept := slept + [Backoff(p, attempt, draws[attempt])];
    }
    assert false;
  }
}
