/** Choosing a fallback provider, within a budget of attempts for each primary provider. */
module Fallback {
  import opened Arith
  import opened Wrappers

  datatype Config = Config(primaryProvider: string, fallbackProviders: seq<string>, maxFallbackAttempts: nat)

  datatype ErrorType = TIMEOUT | RATE_LIMIT | SERVER_ERROR | AUTH_ERROR | VALIDATION_ERROR

  datatype Reason = BY_CIRCUIT_OPEN | BY_TIMEOUT | BY_RATE_LIMIT | BY_SERVER_ERROR | BY_MANUAL

  datatype Decision = Decision(shouldFallback: bool, targetProvider: Option<string>, reason: Reason)

  type Counts = map<string, nat>

  function CountOf(counts: Counts, primary: string): nat {
    if primary in counts then counts[primary] else 0
  }

  /** `k` modulo `n`, by counting down. */
  function Wrapped(k: nat, n: Pos): (r: nat)
    ensures r < n
  {
    if k < n then k else Wrapped(k - n, n)
  }

  lemma {:induction false} WrappedIsModulo(k: nat, n: Pos)
    ensures Wrapped(k, n) == k % n
  {
    if n <= k {
      WrappedIsModulo(k - n, n);
      QuotientUnique(k, n, (k - n) / n + 1);
    } else {
      QuotientUnique(k, n, 0);
    }
  }

  /** Fallback provider number `k`, counted round and round. */
  function Nth(c: Config, k: nat): string
    requires 0 < |c.fallbackProviders|
  {
    c.fallbackProviders[Wrapped(k, |c.fallbackProviders|)]
  }

  /** The next fallback provider, if the budget of the primary allows one. */
  function Selected(c: Config, counts: Counts, primary: string): Option<string> {
    var count := CountOf(counts, primary);
    if |c.fallbackProviders| == 0 || c.maxFallbackAttempts <= count then None
    else Some(Nth(c, count))
  }

  /** Every selection that is granted uses up one attempt. */
  function AfterSelection(c: Config, counts: Counts, primary: string): Counts {
    if Selected(c, counts, primary).Some? then counts[primary := CountOf(counts, primary) + 1] else counts
  }

  predicate Compatible(c: Config, primary: string, fallback: string) {
    primary != fallback && fallback in c.fallbackProviders
  }

  predicate Fallbackable(errorType: ErrorType) {
    errorType in {TIMEOUT, RATE_LIMIT, SERVER_ERROR}
  }

  function ReasonFor(errorType: ErrorType, circuitOpen: bool): Reason {
    if circuitOpen then BY_CIRCUIT_OPEN
    else
      match errorType
      case TIMEOUT => BY_TIMEOUT
      case RATE_LIMIT => BY_RATE_LIMIT
      case SERVER_ERROR => BY_SERVER_ERROR
      case _ => BY_MANUAL
  }

  /** The reason names the open circuit, or else the error, where that is one to fall back from. */
  lemma ReasonExactly(errorType: ErrorType, circuitOpen: bool)
    ensures var reason := ReasonFor(errorType, circuitOpen);
      && (reason == BY_CIRCUIT_OPEN <==> circuitOpen)
      && (reason == BY_TIMEOUT <==> !circuitOpen && errorType == TIMEOUT)
      && (reason == BY_RATE_LIMIT <==> !circuitOpen && errorType == RATE_LIMIT)
      && (reason == BY_SERVER_ERROR <==> !circuitOpen && errorType == SERVER_ERROR)
      && (reason == BY_MANUAL <==> !circuitOpen && !Fallbackable(errorType))
  {
  }

  /** A selected name counts only if it is not empty and compatible with the primary. */
  predicate Usable(c: Config, primary: string, selected: Option<string>) {
    selected.Some? && selected.value != "" && Compatible(c, primary, selected.value)
  }

  /** The first `n` selections. */
  function Round(c: Config, n: nat): seq<string> {
    if n == 0 || |c.fallbackProviders| == 0 then [] else Round(c, n - 1) + [Nth(c, n - 1)]
  }

  /** The k-th selection is fallback provider k modulo their number. */
  lemma {:induction false} RoundRobin(c: Config, n: nat)
    requires 0 < |c.fallbackProviders|
    ensures |Round(c, n)| == n
    ensures forall k :: 0 <= k < n ==> Round(c, n)[k] == c.fallbackProviders[k % |c.fallbackProviders|]
  {
    if 0 < n {
      RoundRobin(c, n - 1);
      WrappedIsModulo(n - 1, |c.fallbackProviders|);
    }
  }

  type Grants = map<string, seq<string>>

  /** Each primary's selections since its last reset are counted, within the budget, and in order. */
  ghost predicate InOrder(c: Config, granted: Grants, counts: Counts) {
    && granted.Keys == counts.Keys
    && forall p :: p in counts ==> counts[p] <= c.maxFallbackAttempts && granted[p] == Round(c, counts[p])
  }

  function WithGrant(granted: Grants, primary: string, chosen: string): Grants {
    granted[primary := (if primary in granted then granted[primary] else []) + [chosen]]
  }

  lemma OneMoreGrant(c: Config, granted: Grants, counts: Counts, primary: string)
    requires InOrder(c, granted, counts) && Selected(c, counts, primary).Some?
    ensures InOrder(c, WithGrant(granted, primary, Selected(c, counts, primary).value),
                    AfterSelection(c, counts, primary))
  {
    if primary !in counts {
      assert Round(c, 0) == [];
    }
  }

  class FallbackHandler {
    const config: Config
    var counts: Counts
    ghost var granted: Grants  // per primary, the selections since its last reset

    ghost predicate Valid()
      reads this
    {
      InOrder(config, granted, counts)
    }

    constructor (config: Config)
      ensures Valid() && this.config == config && counts == map[]
    {
      this.config, counts, granted := config, map[], map[];
    }

    method GetFallbackProvider(primary: string) returns (provider: Option<string>)
      requires Valid()
      modifies this
      ensures Valid()
      ensures provider == Selected(config, old(counts), primary)
      ensures counts == AfterSelection(config, old(counts), primary)
      ensures provider.Some? ==> granted == WithGrant(old(granted), primary, provider.value)
      ensures provider.None? ==> granted == old(granted)
    {
      if |config.fallbackProviders| == 0 {
        return None;
      }
      var fallbackCount := CountOf(counts, primary);
      if fallbackCount >= config.maxFallbackAttempts {
        return None;
      }
      OneMoreGrant(config, granted, counts, primary);
      var chosen := Choose(fallbackCount);
      granted := WithGrant(granted, primary, chosen);
      counts := counts[primary := fallbackCount + 1];
      return Some(chosen);
    }

    method Choose(fallbackCount: nat) returns (chosen: string)
      requires 0 < |config.fallbackProviders|
      ensures chosen == Nth(config, fallbackCount)
    {
      WrappedIsModulo(fallbackCount, |config.fallbackProviders|);
      chosen := config.fallbackProviders[fallbackCount % |config.fallbackProviders|];
    }

    method ShouldFallback(primary: string, errorType: ErrorType, circuitOpen: bool, irreversible: bool)
        returns (decision: Decision)
      requires Valid()
      modifies this
      ensures Valid()
      ensures irreversible || !Fallbackable(errorType) ==>
        decision == Decision(false, None, BY_MANUAL) && counts == old(counts)
      ensures !irreversible && Fallbackable(errorType) ==>
        var selected := Selected(config, old(counts), primary);
        var reason := ReasonFor(errorType, circuitOpen);
        && counts == AfterSelection(config, old(counts), primary)
        && decision == if Usable(config, primary, selected) then Decision(true, selected, reason)
                       else Decision(false, None, reason)
    {
      if irreversible || !Fallbackable(errorType) {
        return Decision(false, None, BY_MANUAL);
      }
      decision := CreateFallbackDecision(primary, ReasonFor(errorType, circuitOpen));
    }

    method CreateFallbackDecision(primary: string, reason: Reason) returns (decision: Decision)
      requires Valid()
      modifies this
      ensures Valid()
      ensures counts == AfterSelection(config, old(counts), primary)
      ensures var selected := Selected(config, old(counts), primary);
        decision == if Usable(config, primary, selected) then Decision(true, selected, reason)
                    else Decision(false, None, reason)
    {
      var fallback := GetFallbackProvider(primary);
      if fallback.Some? && fallback.value != "" && Compatible(config, primary, fallback.value) {
        return Decision(true, fallback, reason);
      }
      return Decision(false, None, reason);
    }

    method ResetFallbackCount(primary: string)
      requires Valid()
      modifies this
      ensures Valid()
      ensures counts == old(counts) - {primary}
    {
      counts, granted := counts - {primary}, granted - {primary};
    }
  }
}
