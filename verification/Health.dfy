/** Health records of model providers. */
module Health {
  import opened Wrappers

  const SAMPLES_KEPT: nat := 100

  datatype Health = Health(
    isHealthy: bool,
    lastCheckTime: Option<int>,
    lastSuccessTime: Option<int>,
    lastFailureTime: Option<int>,
    consecutiveFailures: nat,
    consecutiveSuccesses: nat,
    totalChecks: nat,
    successfulChecks: nat,
    failedChecks: nat,
    averageLatency: real,
    latencySamples: seq<real>)

  const UNCHECKED := Health(true, None, None, None, 0, 0, 0, 0, 0, 0.0, [])

  /** Appends a sample and drops the oldest one once there are more than 100. */
  function KeepSample(samples: seq<real>, latency: real): seq<real> {
    var all := samples + [latency];
    if |all| > SAMPLES_KEPT then all[1..] else all
  }

  function Sum(samples: seq<real>, n: nat): real
    requires n <= |samples|
  {
    if n == 0 then 0.0 else Sum(samples, n - 1) + samples[n - 1]
  }

  function Average(samples: seq<real>): real
    requires 0 < |samples|
  {
    Sum(samples, |samples|) / |samples| as real
  }

  /** The clock is read for the check itself, and once more for its outcome. */
  datatype Check = Check(healthy: bool, latency: real, at: int, notedAt: int)

  /** What the outcome of a check changes. */
  function AfterOutcome(h: Health, healthy: bool, notedAt: int): Health {
    if healthy then
      h.(isHealthy := true, successfulChecks := h.successfulChecks + 1,
         consecutiveSuccesses := h.consecutiveSuccesses + 1, consecutiveFailures := 0,
         lastSuccessTime := Some(notedAt))
    else
      h.(isHealthy := false, failedChecks := h.failedChecks + 1,
         consecutiveFailures := h.consecutiveFailures + 1, consecutiveSuccesses := 0,
         lastFailureTime := Some(notedAt))
  }

  function AfterCheck(h: Health, check: Check): Health {
    var samples := KeepSample(h.latencySamples, check.latency);
    AfterOutcome(h, check.healthy, check.notedAt).(
      totalChecks := h.totalChecks + 1,
      lastCheckTime := Some(check.at),
      latencySamples := samples,
      averageLatency := Average(samples))
  }

  function Registered(records: map<string, Health>, name: string): map<string, Health> {
    if name in records then records else records[name := UNCHECKED]
  }

  /** A provider that was never registered is, at its first check. */
  function Checked(records: map<string, Health>, name: string, check: Check): map<string, Health> {
    var before := if name in records then records[name] else UNCHECKED;
    records[name := AfterCheck(before, check)]
  }

  lemma RegisteredFirst(records: map<string, Health>, name: string, check: Check)
    ensures Checked(Registered(records, name), name, check) == Checked(records, name, check)
  {
  }

  /** The record after the first `k` checks. */
  function After(checks: seq<Check>, k: nat): Health
    requires k <= |checks|
  {
    if k == 0 then UNCHECKED else AfterCheck(After(checks, k - 1), checks[k - 1])
  }

  lemma {:induction false} AfterPrefix(checks: seq<Check>, check: Check, k: nat)
    requires k <= |checks|
    ensures After(checks + [check], k) == After(checks, k)
  {
    if 0 < k {
      AfterPrefix(checks, check, k - 1);
    }
  }

  function Kept(k: nat): nat {
    if k < SAMPLES_KEPT then k else SAMPLES_KEPT
  }

  /** The latencies of the last checks, at most 100 of them, in order. */
  function Latest(checks: seq<Check>, k: nat): seq<real>
    requires k <= |checks|
  {
    seq(Kept(k), i requires 0 <= i < Kept(k) => checks[k - Kept(k) + i].latency)
  }

  lemma LatestGrows(checks: seq<Check>, k: nat)
    requires k < |checks|
    ensures KeepSample(Latest(checks, k), checks[k].latency) == Latest(checks, k + 1)
  {
  }

  /** The samples kept are the latest latencies, and their average is kept up to date. */
  lemma {:induction false} SamplesAreLatest(checks: seq<Check>, k: nat)
    requires k <= |checks|
    ensures After(checks, k).latencySamples == Latest(checks, k)
    ensures 0 < k ==> After(checks, k).averageLatency == Average(Latest(checks, k))
  {
    if 0 < k {
      SamplesAreLatest(checks, k - 1);
      LatestGrows(checks, k - 1);
    }
  }

  /** The time of the last check with the given outcome, if there was one. */
  function LastNoted(checks: seq<Check>, k: nat, healthy: bool): Option<int>
    requires k <= |checks|
  {
    if k == 0 then None
    else if checks[k - 1].healthy == healthy then Some(checks[k - 1].notedAt)
    else LastNoted(checks, k - 1, healthy)
  }

  /** How many of the first `k` checks had the given outcome. */
  function CountOf(checks: seq<Check>, k: nat, healthy: bool): nat
    requires k <= |checks|
  {
    if k == 0 then 0 else CountOf(checks, k - 1, healthy) + if checks[k - 1].healthy == healthy then 1 else 0
  }

  /** The length of the longest run of the given outcome that ends with check `k`. */
  function TrailingRun(checks: seq<Check>, k: nat, healthy: bool): nat
    requires k <= |checks|
  {
    if k == 0 || checks[k - 1].healthy != healthy then 0 else TrailingRun(checks, k - 1, healthy) + 1
  }

  /** A record is healthy if its last check was, counts the checks of each outcome and their latest run,
      and knows when the last one of each was. */
  lemma {:induction false} RecordRefinesChecks(checks: seq<Check>, k: nat)
    requires k <= |checks|
    ensures var h := After(checks, k);
      && (h.isHealthy <==> k == 0 || checks[k - 1].healthy)
      && h.lastCheckTime == (if k == 0 then None else Some(checks[k - 1].at))
      && h.lastSuccessTime == LastNoted(checks, k, true)
      && h.lastFailureTime == LastNoted(checks, k, false)
      && h.totalChecks == h.successfulChecks + h.failedChecks == k
      && h.successfulChecks == CountOf(checks, k, true)
      && h.failedChecks == CountOf(checks, k, false)
      && h.consecutiveSuccesses == TrailingRun(checks, k, true)
      && h.consecutiveFailures == TrailingRun(checks, k, false)
  {
    if 0 < k {
      RecordRefinesChecks(checks, k - 1);
    }
  }

  lemma Scaled(n: nat, x: real)
    ensures (n + 1) as real * x == n as real * x + x
  {
  }

  lemma {:induction false} SumBetween(samples: seq<real>, n: nat, lo: real, hi: real)
    requires n <= |samples| && forall i :: 0 <= i < n ==> lo <= samples[i] <= hi
    ensures n as real * lo <= Sum(samples, n) <= n as real * hi
  {
    if 0 < n {
      SumBetween(samples, n - 1, lo, hi);
      Scaled(n - 1, lo);
      Scaled(n - 1, hi);
    }
  }

  lemma Cancels(n: real, x: real, y: real)
    requires 0.0 < n
    ensures n * x <= n * y ==> x <= y
  {
    if y < x {
      assert 0.0 < n * (x - y);
    }
  }

  lemma QuotientBetween(a: real, n: real, lo: real, hi: real)
    requires 0.0 < n && n * lo <= a <= n * hi
    ensures lo <= a / n <= hi
  {
    Cancels(n, lo, a / n);
    Cancels(n, a / n, hi);
  }

  lemma AverageOf(samples: seq<real>, lo: real, hi: real)
    requires 0 < |samples| && forall i :: 0 <= i < |samples| ==> lo <= samples[i] <= hi
    ensures lo <= Average(samples) <= hi
  {
    SumBetween(samples, |samples|, lo, hi);
    QuotientBetween(Sum(samples, |samples|), |samples| as real, lo, hi);
  }

  /** The latencies of the first `k` checks, added up. */
  function Latencies(checks: seq<Check>, k: nat): real
    requires k <= |checks|
  {
    if k == 0 then 0.0 else Latencies(checks, k - 1) + checks[k - 1].latency
  }

  lemma {:induction false} SumOfStretch(checks: seq<Check>, from: nat, samples: seq<real>, n: nat)
    requires n <= |samples| && from + n <= |checks|
    requires forall i :: 0 <= i < n ==> samples[i] == checks[from + i].latency
    ensures Sum(samples, n) == Latencies(checks, from + n) - Latencies(checks, from)
  {
    if 0 < n {
      SumOfStretch(checks, from, samples, n - 1);
    }
  }

  lemma TimesQuotient(a: real, n: real)
    requires n != 0.0
    ensures a / n * n == a
  {
  }

  lemma AverageTimesNumber(samples: seq<real>)
    requires 0 < |samples|
    ensures Average(samples) * |samples| as real == Sum(samples, |samples|)
  {
    TimesQuotient(Sum(samples, |samples|), |samples| as real);
  }

  lemma SumOfLatest(checks: seq<Check>, k: nat)
    requires 0 < k <= |checks|
    ensures Sum(Latest(checks, k), Kept(k)) == Latencies(checks, k) - Latencies(checks, k - Kept(k))
  {
    SumOfStretch(checks, k - Kept(k), Latest(checks, k), Kept(k));
  }

  /** The average times the number of kept latencies is what the latest checks took altogether. */
  lemma AverageIsMean(checks: seq<Check>, k: nat)
    requires 0 < k <= |checks|
    ensures After(checks, k).averageLatency * Kept(k) as real
         == Latencies(checks, k) - Latencies(checks, k - Kept(k))
  {
    SamplesAreLatest(checks, k);
    AverageTimesNumber(Latest(checks, k));
    SumOfLatest(checks, k);
  }

  /** The average latency lies between the shortest and the longest of the kept latencies. */
  lemma AverageBetween(checks: seq<Check>, k: nat, lo: real, hi: real)
    requires 0 < k <= |checks| && forall i :: k - Kept(k) <= i < k ==> lo <= checks[i].latency <= hi
    ensures lo <= After(checks, k).averageLatency <= hi
  {
    SamplesAreLatest(checks, k);
    AverageOf(Latest(checks, k), lo, hi);
  }

  class ProviderHealth {
    var isHealthy: bool
    var lastCheckTime: Option<int>
    var lastSuccessTime: Option<int>
    var lastFailureTime: Option<int>
    var consecutiveFailures: nat
    var consecutiveSuccesses: nat
    var totalChecks: nat
    var successfulChecks: nat
    var failedChecks: nat
    var averageLatency: real
    var latencySamples: seq<real>

    function Snapshot(): Health
      reads this
    {
      Health(isHealthy, lastCheckTime, lastSuccessTime, lastFailureTime, consecutiveFailures,
             consecutiveSuccesses, totalChecks, successfulChecks, failedChecks, averageLatency, latencySamples)
    }

    constructor ()
      ensures Snapshot() == UNCHECKED
    {
      isHealthy, lastCheckTime, lastSuccessTime, lastFailureTime := true, None, None, None;
      consecutiveFailures, consecutiveSuccesses := 0, 0;
      totalChecks, successfulChecks, failedChecks := 0, 0, 0;
      averageLatency, latencySamples := 0.0, [];
    }

    method RecordCheck(healthy: bool, latency: real, now: int, notedAt: int)
      modifies this
      ensures Snapshot() == AfterCheck(old(Snapshot()), Check(healthy, latency, now, notedAt))
    {
      totalChecks := totalChecks + 1;
      lastCheckTime := Some(now);
      NoteOutcome(healthy, notedAt);
      TrackLatency(latency);
    }

    method NoteOutcome(healthy: bool, notedAt: int)
      modifies this
      ensures Snapshot() == AfterOutcome(old(Snapshot()), healthy, notedAt)
    {
      if healthy {
        successfulChecks := successfulChecks + 1;
        consecutiveSuccesses := consecutiveSuccesses + 1;
        consecutiveFailures := 0;
        lastSuccessTime := Some(notedAt);
        isHealthy := true;
      } else {
        failedChecks := failedChecks + 1;
        consecutiveFailures := consecutiveFailures + 1;
        consecutiveSuccesses := 0;
        lastFailureTime := Some(notedAt);
        isHealthy := false;
      }
    }

    method TrackLatency(latency: real)
      modifies `latencySamples, `averageLatency
      ensures latencySamples == KeepSample(old(latencySamples), latency)
      ensures averageLatency == Average(latencySamples)
    {
      latencySamples := latencySamples + [latency];
      if |latencySamples| > SAMPLES_KEPT {
        latencySamples := latencySamples[1..];
      }
      averageLatency := Average(latencySamples);
    }
  }

  class ProviderHealthMonitor {
    var providers: map<string, ProviderHealth>

    /** No two providers share a record. */
    ghost predicate Valid()
      reads this
    {
      forall a, b :: a in providers && b in providers && a != b ==> providers[a] != providers[b]
    }

    ghost function View(): map<string, Health>
      reads this, providers.Values
    {
      map name | name in providers :: providers[name].Snapshot()
    }

    constructor ()
      ensures Valid() && View() == map[] && providers == map[]
    {
      providers := map[];
    }

    method RegisterProvider(name: string)
      requires Valid()
      modifies this
      ensures Valid() && fresh(providers.Values - old(providers.Values))
      ensures name in providers
      ensures name in old(providers) ==> providers == old(providers)
      ensures name !in old(providers) ==>
        && fresh(providers[name]) && providers[name].Snapshot() == UNCHECKED
        && providers == old(providers)[name := providers[name]]
      ensures View() == Registered(old(View()), name)
    {
      if name !in providers {
        var health := new ProviderHealth();
        providers := providers[name := health];
      }
    }

    method CheckRecord(name: string, health: ProviderHealth, check: Check)
      requires Valid() && name in providers && providers[name] == health
      modifies health
      ensures View() == Checked(old(View()), name, check)
    {
      health.RecordCheck(check.healthy, check.latency, check.at, check.notedAt);
    }

    method RecordHealthCheck(name: string, check: Check)
      requires Valid()
      modifies this, providers.Values
      ensures Valid() && fresh(providers.Values - old(providers.Values))
      ensures View() == Checked(old(View()), name, check)
    {
      if name !in providers {
        RegisterProvider(name);
      }
      RegisteredFirst(old(View()), name, check);
      assert View() == Registered(old(View()), name);
      var health := providers[name];
      CheckRecord(name, health, check);
    }
  }
}
