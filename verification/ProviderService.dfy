/**
 Model completion with circuit breakers, health records and fallback.

 What the providers answer, and what time it is, comes with each call.
*/
module ProviderService {
  import opened Wrappers
  import CB = CircuitBreaker
  import FB = Fallback
  import H = Health

  datatype Outcome = Response(latency: real) | Raised(errorType: FB.ErrorType)

  datatype Reply =
    | Answer(provider: string)
    | Reraised(errorType: FB.ErrorType)
    | Unavailable
    | NoSuchProvider

  /** Through which door a fallback provider was invoked. */
  datatype Via = NoFallback | OnOpenCircuit | OnError

  /** The clock is read several times when an outcome is recorded: by the breaker for the outcome and
      for opening the circuit, then by the health record for the check and for its outcome. */
  datatype Readings = Readings(outcome: int, opening: int, check: int, noted: int)

  type Clock = r: Readings | r.outcome <= r.opening <= r.check <= r.noted witness Readings(0, 0, 0, 0)

  datatype Call = Call(
    provider: Option<string>,
    enableFallback: bool,
    askedAt: int,
    answered: Clock,
    primaryOutcome: Outcome,
    fallbackOutcome: Outcome)

  datatype Guard = Guard(config: CB.Config, breaker: CB.Breaker)

  /** All that the service remembers. */
  datatype Service = Service(
    registered: set<string>,
    guards: map<string, Guard>,
    health: map<string, H.Health>,
    counts: FB.Counts)

  const EMPTY := Service({}, map[], map[], map[])

  /** The service after a call, the providers it invoked in order, and what the caller gets. */
  datatype Done = Done(service: Service, invoked: seq<string>, via: Via, reply: Reply)

  function PrimaryOf(f: FB.Config, call: Call): string {
    if call.provider.Some? && call.provider.value != "" then call.provider.value else f.primaryProvider
  }

  function Told(guards: map<string, Guard>, name: string, e: CB.Event): map<string, Guard> {
    if name in guards then
      var g := guards[name];
      guards[name := Guard(g.config, CB.Step(g.config, g.breaker, e))]
    else guards
  }

  function WithEvent(s: Service, name: string, e: CB.Event): Service {
    s.(guards := Told(s.guards, name, e))
  }

  function WithCheck(s: Service, name: string, check: H.Check): Service {
    s.(health := H.Checked(s.health, name, check))
  }

  function EventOf(healthy: bool, at: Clock): CB.Event {
    if healthy then CB.Success(at.outcome) else CB.Failure(at.outcome, at.opening)
  }

  function CheckOf(healthy: bool, latency: real, at: Clock): H.Check {
    H.Check(healthy, latency, at.check, at.noted)
  }

  /** An outcome goes to the provider's breaker first, then to its health record. */
  function WithOutcome(s: Service, name: string, healthy: bool, latency: real, at: Clock): Service {
    WithCheck(WithEvent(s, name, EventOf(healthy, at)), name, CheckOf(healthy, latency, at))
  }

  function WithSelection(f: FB.Config, s: Service, primary: string): Service {
    s.(counts := FB.AfterSelection(f, s.counts, primary))
  }

  predicate Refused(s: Service, name: string, now: int) {
    name in s.guards && !CB.CanExecute(s.guards[name].config, s.guards[name].breaker, now)
  }

  /** _attempt_fallback: one more selection, and a call if it is usable and registered. */
  function AttemptFallback(f: FB.Config, s: Service, primary: string, call: Call,
                           invoked: seq<string>, via: Via): Done {
    var selected := FB.Selected(f, s.counts, primary);
    var s1 := WithSelection(f, s, primary);
    if FB.Usable(f, primary, selected) && selected.value in s.registered then
      Done(s1, invoked + [selected.value], via,
           match call.fallbackOutcome
           case Response(_) => Answer(selected.value)
           case Raised(errorType) => Reraised(errorType))
    else Done(s1, invoked, NoFallback, Unavailable)
  }

  /** After an error of the primary: the decision to fall back, itself a selection, then the fallback. */
  function Recover(f: FB.Config, s: Service, primary: string, call: Call, errorType: FB.ErrorType): Done {
    if FB.Fallbackable(errorType) then
      var s1 := WithSelection(f, s, primary);
      if FB.Usable(f, primary, FB.Selected(f, s.counts, primary))
      then AttemptFallback(f, s1, primary, call, [primary], OnError)
      else Done(s1, [primary], NoFallback, Reraised(errorType))
    else Done(s, [primary], NoFallback, Reraised(errorType))
  }

  function Failed(f: FB.Config, s: Service, primary: string, call: Call, errorType: FB.ErrorType): Done {
    var s1 := WithOutcome(s, primary, false, 0.0, call.answered);
    if call.enableFallback then Recover(f, s1, primary, call, errorType)
    else Done(s1, [primary], NoFallback, Reraised(errorType))
  }

  function Complete(f: FB.Config, s: Service, call: Call): Done {
    var name := PrimaryOf(f, call);
    if name !in s.registered then Done(s, [], NoFallback, NoSuchProvider)
    else
      var asked := WithEvent(s, name, CB.Probe(call.askedAt));
      if Refused(s, name, call.askedAt) then
        if call.enableFallback then AttemptFallback(f, asked, name, call, [], OnOpenCircuit)
        else Done(asked, [], NoFallback, Unavailable)
      else
        match call.primaryOutcome
        case Response(latency) =>
          Done(WithOutcome(asked, name, true, latency, call.answered), [name], NoFallback, Answer(name))
        case Raised(errorType) =>
          Failed(f, asked, name, call, errorType)
  }

  // ------------------------------------------------------------------ one call

  /** A call invokes at most two providers, the second one a different, configured and registered
      fallback; and the primary is invoked exactly when its breaker does not refuse. */
  lemma AtMostTwoProviders(f: FB.Config, s: Service, call: Call)
    ensures var name, done := PrimaryOf(f, call), Complete(f, s, call);
      && |done.invoked| <= 2
      && (name in done.invoked <==> name in s.registered && !Refused(s, name, call.askedAt))
      && (|done.invoked| == 2 <==> done.via == OnError)
      && (done.via == NoFallback || done.via == OnError ==> done.invoked == [] || done.invoked[0] == name)
      && (done.via != NoFallback ==>
            var fallback := done.invoked[|done.invoked| - 1];
            fallback != name && fallback != "" && fallback in f.fallbackProviders && fallback in s.registered)
      && (done.reply.Answer? ==> done.invoked != [] && done.reply.provider == done.invoked[|done.invoked| - 1])
  {
  }

  /** A call that names no provider, or the empty name, goes to the configured primary. */
  lemma DefaultIsAsked(f: FB.Config, s: Service, call: Call)
    requires f.primaryProvider != ""
    ensures call.provider == None || call.provider == Some("") ==>
      Complete(f, s, call) == Complete(f, s, call.(provider := Some(f.primaryProvider)))
  {
  }

  /** When an open circuit refuses, no breaker and no health record changes. */
  lemma RefusalFailsFast(f: FB.Config, s: Service, call: Call)
    requires var name := PrimaryOf(f, call); name in s.registered && Refused(s, name, call.askedAt)
    requires s.guards[PrimaryOf(f, call)].breaker.state == CB.OPEN
    ensures var s' := Complete(f, s, call).service;
      s'.guards == s.guards && s'.health == s.health
  {
    var g := s.guards[PrimaryOf(f, call)];
    assert CB.Step(g.config, g.breaker, CB.Probe(call.askedAt)) == g.breaker;
    assert s.guards[PrimaryOf(f, call) := g] == s.guards;
  }

  // ------------------------------------------------------------------ the budget of fallbacks

  /** A granted selection takes one attempt from its own primary's budget, and keeps within it. */
  lemma SelectionSpends(f: FB.Config, counts: FB.Counts, primary: string, p: string)
    requires FB.CountOf(counts, p) <= f.maxFallbackAttempts
    ensures var after := FB.CountOf(FB.AfterSelection(f, counts, primary), p);
      && after <= f.maxFallbackAttempts
      && after == FB.CountOf(counts, p) + if p == primary && FB.Selected(f, counts, primary).Some? then 1 else 0
  {
  }

  /** How many selections a call asks for. */
  function SelectionsOf(f: FB.Config, s: Service, call: Call): nat {
    var name := PrimaryOf(f, call);
    if name !in s.registered || !call.enableFallback then 0
    else if Refused(s, name, call.askedAt) then 1
    else if call.primaryOutcome.Response? || !FB.Fallbackable(call.primaryOutcome.errorType) then 0
    else if FB.Usable(f, name, FB.Selected(f, s.counts, name)) then 2
    else 1
  }

  /** Recovering from an error asks for none, one or two selections. */
  lemma RecoverySelects(f: FB.Config, s: Service, primary: string, call: Call, errorType: FB.ErrorType)
    ensures var done := Recover(f, s, primary, call, errorType);
      var c1 := FB.AfterSelection(f, s.counts, primary);
      var usable := FB.Usable(f, primary, FB.Selected(f, s.counts, primary));
      && done.via != OnOpenCircuit
      && done.service.counts == (if !FB.Fallbackable(errorType) then s.counts
                                 else if usable then FB.AfterSelection(f, c1, primary) else c1)
      && (done.via == OnError ==> FB.Fallbackable(errorType) && usable && FB.Selected(f, c1, primary).Some?)
  {
  }

  lemma SelectionsMade(f: FB.Config, s: Service, call: Call)
    ensures var name, done := PrimaryOf(f, call), Complete(f, s, call);
      var c1 := FB.AfterSelection(f, s.counts, name);
      var c2 := FB.AfterSelection(f, c1, name);
      var asked := SelectionsOf(f, s, call);
      && asked <= 2
      && done.service.counts == (if asked == 0 then s.counts else if asked == 1 then c1 else c2)
      && (done.via == OnOpenCircuit ==> asked == 1 && FB.Selected(f, s.counts, name).Some?)
      && (done.via == OnError ==>
            asked == 2 && FB.Selected(f, s.counts, name).Some? && FB.Selected(f, c1, name).Some?)
  {
    var name := PrimaryOf(f, call);
    if name in s.registered && !Refused(s, name, call.askedAt) && call.primaryOutcome.Raised? && call.enableFallback {
      var s1 := WithOutcome(WithEvent(s, name, CB.Probe(call.askedAt)), name, false, 0.0, call.answered);
      assert s1.counts == s.counts;
      RecoverySelects(f, s1, name, call, call.primaryOutcome.errorType);
    }
  }

  /** What one call takes from the primary's budget: one selection on the open-circuit path; two
      when the error path gets as far as invoking a fallback; never more than the budget allows. */
  lemma CallSpends(f: FB.Config, s: Service, call: Call, p: string)
    requires FB.CountOf(s.counts, p) <= f.maxFallbackAttempts
    ensures var done := Complete(f, s, call);
      var before, after := FB.CountOf(s.counts, p), FB.CountOf(done.service.counts, p);
      && before <= after <= f.maxFallbackAttempts
      && (p != PrimaryOf(f, call) ==> after == before)
      && (p == PrimaryOf(f, call) && done.via == OnOpenCircuit ==> after == before + 1)
      && (p == PrimaryOf(f, call) && done.via == OnError ==> after == before + 2)
  {
    var name := PrimaryOf(f, call);
    SelectionsMade(f, s, call);
    SelectionSpends(f, s.counts, name, p);
    SelectionSpends(f, FB.AfterSelection(f, s.counts, name), name, p);
  }

  /** The candidates of a call: the next two selections of its primary. */
  function Candidate(f: FB.Config, s: Service, name: string, second: bool): Option<string> {
    FB.Selected(f, if second then FB.AfterSelection(f, s.counts, name) else s.counts, name)
  }

  /** The primary is invoked, and raises an error that may be answered by a fallback. */
  predicate RaisesFallbackable(f: FB.Config, s: Service, call: Call) {
    && PrimaryOf(f, call) in s.registered && !Refused(s, PrimaryOf(f, call), call.askedAt)
    && call.enableFallback
    && call.primaryOutcome.Raised? && FB.Fallbackable(call.primaryOutcome.errorType)
  }

  /** When an error leads to a fallback: the decision needs one usable candidate and throws it away; the
      fallback needs the next one to be usable and registered. */
  lemma ErrorFallsBackExactly(f: FB.Config, s: Service, call: Call)
    ensures var name := PrimaryOf(f, call);
      var first, second := Candidate(f, s, name, false), Candidate(f, s, name, true);
      && (Complete(f, s, call).via == OnError <==>
            && RaisesFallbackable(f, s, call)
            && FB.Usable(f, name, first)
            && FB.Usable(f, name, second) && second.value in s.registered)
      && (Complete(f, s, call).via == OnError ==> Complete(f, s, call).invoked == [name, second.value])
  {
  }

  /** When an open circuit leads to a fallback: the first candidate has to be usable and registered. */
  lemma OpenCircuitFallsBackExactly(f: FB.Config, s: Service, call: Call)
    ensures var name := PrimaryOf(f, call);
      var first := Candidate(f, s, name, false);
      && (Complete(f, s, call).via == OnOpenCircuit <==>
            && name in s.registered && Refused(s, name, call.askedAt) && call.enableFallback
            && FB.Usable(f, name, first) && first.value in s.registered)
      && (Complete(f, s, call).via == OnOpenCircuit ==> Complete(f, s, call).invoked == [first.value])
  {
  }

  /** Which reply a call gets: the answer of the primary exactly if it is invoked and responds, that of a fallback
      exactly if one is invoked and responds; the error of the fallback, if one is invoked, or else that of the
      primary, unless the decision to fall back has been made; and unavailable if there was no fallback after
      a refusal or after that decision. */
  lemma RepliesExactly(f: FB.Config, s: Service, call: Call)
    ensures var name, done := PrimaryOf(f, call), Complete(f, s, call);
      var invoked, fellBack := done.invoked, done.via != NoFallback;
      var decided := RaisesFallbackable(f, s, call) && FB.Usable(f, name, Candidate(f, s, name, false));
      && (done.reply == NoSuchProvider <==> name !in s.registered)
      && (done.reply == Answer(name) <==> name in invoked && call.primaryOutcome.Response?)
      && (forall p :: p != name ==>
            (done.reply == Answer(p) <==>
               fellBack && p == invoked[|invoked| - 1] && call.fallbackOutcome.Response?))
      && (forall e :: done.reply == Reraised(e) <==>
            || (fellBack && call.fallbackOutcome == Raised(e))
            || (!fellBack && name in invoked && call.primaryOutcome == Raised(e) && !decided))
      && (done.reply == Unavailable <==>
            !fellBack && name in s.registered && (Refused(s, name, call.askedAt) || decided))
  {
  }

  /** Every listed fallback can stand in for the provider. */
  predicate AllUsable(f: FB.Config, s: Service, name: string) {
    && 0 < |f.fallbackProviders|
    && forall p :: p in f.fallbackProviders ==> p != "" && p != name && p in s.registered
  }

  lemma AllCandidatesUsable(f: FB.Config, s: Service, name: string)
    requires AllUsable(f, s, name)
    ensures var fb, count := f.fallbackProviders, FB.CountOf(s.counts, name);
      var first, second := Candidate(f, s, name, false), Candidate(f, s, name, true);
      && (first.Some? <==> count + 1 <= f.maxFallbackAttempts)
      && (second.Some? <==> count + 2 <= f.maxFallbackAttempts)
      && (first.Some? ==> first.value == FB.Nth(f, count) && FB.Usable(f, name, first))
      && (first.Some? && second.Some? ==>
            second.value == FB.Nth(f, count + 1) && FB.Usable(f, name, second) && second.value in s.registered)
  {
    var fb, count := f.fallbackProviders, FB.CountOf(s.counts, name);
    assert FB.Nth(f, count) in fb && FB.Nth(f, count + 1) in fb;
  }

  /** With fallbacks that can all stand in, an error leads to one exactly while two attempts are left;
      the first candidate is then the one invoked exactly if the next on the list is the same. */
  lemma ErrorPathSkipsOneExactly(f: FB.Config, s: Service, call: Call)
    requires RaisesFallbackable(f, s, call) && AllUsable(f, s, PrimaryOf(f, call))
    ensures var name, fb, done := PrimaryOf(f, call), f.fallbackProviders, Complete(f, s, call);
      var count, n := FB.CountOf(s.counts, name), |f.fallbackProviders|;
      && (done.via == OnError <==> count + 2 <= f.maxFallbackAttempts)
      && (done.via == OnError ==> done.invoked == [name, FB.Nth(f, count + 1)])
      && (done.invoked == [name, FB.Nth(f, count)] <==>
            count + 2 <= f.maxFallbackAttempts && FB.Nth(f, count + 1) == FB.Nth(f, count))
  {
    ErrorFallsBackExactly(f, s, call);
    AllCandidatesUsable(f, s, PrimaryOf(f, call));
    AtMostTwoProviders(f, s, call);
  }

  /** The service after the first `k` calls. */
  function AfterCalls(f: FB.Config, s: Service, calls: seq<Call>, k: nat): Service
    requires k <= |calls|
  {
    if k == 0 then s else Complete(f, AfterCalls(f, s, calls, k - 1), calls[k - 1]).service
  }

  function OneIf(b: bool): nat {
    if b then 1 else 0
  }

  /** How many of the first `k` calls with primary `p` invoked a fallback through the given door. */
  function Fallbacks(f: FB.Config, s: Service, calls: seq<Call>, k: nat, p: string, via: Via): nat
    requires k <= |calls|
  {
    if k == 0 then 0
    else
      Fallbacks(f, s, calls, k - 1, p, via)
      + OneIf(PrimaryOf(f, calls[k - 1]) == p
              && Complete(f, AfterCalls(f, s, calls, k - 1), calls[k - 1]).via == via)
  }

  /** One more call keeps twice the fallbacks after errors, and those on open circuits, paid for. */
  lemma CallKeepsBudget(f: FB.Config, s: Service, call: Call, p: string, onError: nat, onOpen: nat)
    requires 2 * onError + onOpen <= FB.CountOf(s.counts, p) <= f.maxFallbackAttempts
    ensures var done, mine := Complete(f, s, call), PrimaryOf(f, call) == p;
      2 * (onError + OneIf(mine && done.via == OnError)) + onOpen + OneIf(mine && done.via == OnOpenCircuit)
      <= FB.CountOf(done.service.counts, p) <= f.maxFallbackAttempts
  {
    CallSpends(f, s, call, p);
  }

  /** Over any sequence of calls, per primary: twice the fallbacks executed after an error and once
      those executed on an open circuit stay within the maximum number of attempts. */
  lemma {:induction false} FallbackBudget(f: FB.Config, s: Service, calls: seq<Call>, k: nat, p: string)
    requires k <= |calls| && FB.CountOf(s.counts, p) == 0
    ensures FB.CountOf(AfterCalls(f, s, calls, k).counts, p) <= f.maxFallbackAttempts
    ensures 2 * Fallbacks(f, s, calls, k, p, OnError) + Fallbacks(f, s, calls, k, p, OnOpenCircuit)
         <= FB.CountOf(AfterCalls(f, s, calls, k).counts, p)
  {
    if 0 < k {
      FallbackBudget(f, s, calls, k - 1, p);
      CallKeepsBudget(f, AfterCalls(f, s, calls, k - 1), calls[k - 1], p,
                      Fallbacks(f, s, calls, k - 1, p, OnError), Fallbacks(f, s, calls, k - 1, p, OnOpenCircuit));
    }
  }

  /** With a single attempt allowed, no error ever leads to a fallback. */
  lemma SingleAttemptNeverHelpsErrors(f: FB.Config, s: Service, calls: seq<Call>, k: nat, p: string)
    requires k <= |calls| && FB.CountOf(s.counts, p) == 0 && f.maxFallbackAttempts <= 1
    ensures Fallbacks(f, s, calls, k, p, OnError) == 0
  {
    FallbackBudget(f, s, calls, k, p);
  }

  /** Starting with no attempts spent, and with fallbacks that can all stand in, some sequence of calls
      answers an error of `p` by a fallback exactly if at least two attempts are allowed. */
  lemma ErrorsHelpedExactly(f: FB.Config, s: Service, p: string, now: int)
    requires FB.CountOf(s.counts, p) == 0 && AllUsable(f, s, p)
    requires p != "" && p in s.registered && !Refused(s, p, now)
    ensures (exists calls :: 0 < Fallbacks(f, s, calls, |calls|, p, OnError)) <==> 2 <= f.maxFallbackAttempts
  {
    if 2 <= f.maxFallbackAttempts {
      var call := Call(Some(p), true, now, Readings(now, now, now, now), Raised(FB.TIMEOUT), Raised(FB.TIMEOUT));
      ErrorPathSkipsOneExactly(f, s, call);
      assert AfterCalls(f, s, [call], 0) == s;
      assert Fallbacks(f, s, [call], |[call]|, p, OnError) == Fallbacks(f, s, [call], 0, p, OnError) + 1;
    }
    if calls :| 0 < Fallbacks(f, s, calls, |calls|, p, OnError) {
      FallbackBudget(f, s, calls, |calls|, p);
    }
  }

  /** The selections granted to a call of primary `p`, whether or not they came to be invoked. */
  function Granted(f: FB.Config, s: Service, call: Call, p: string): seq<string> {
    var asked := SelectionsOf(f, s, call);
    var first, second := Candidate(f, s, p, false), Candidate(f, s, p, true);
    if PrimaryOf(f, call) != p || asked == 0 || first.None? then []
    else if asked == 1 || second.None? then [first.value]
    else [first.value, second.value]
  }

  function AllGranted(f: FB.Config, s: Service, calls: seq<Call>, k: nat, p: string): seq<string>
    requires k <= |calls|
  {
    if k == 0 then [] else
      AllGranted(f, s, calls, k - 1, p) + Granted(f, AfterCalls(f, s, calls, k - 1), calls[k - 1], p)
  }

  /** What a call was granted continues the round, is counted, and includes the fallback it invoked. */
  lemma GrantedContinues(f: FB.Config, s: Service, call: Call, p: string)
    ensures var granted, count, fb := Granted(f, s, call, p), FB.CountOf(s.counts, p), f.fallbackProviders;
      && FB.CountOf(Complete(f, s, call).service.counts, p) == count + |granted|
      && (granted != [] ==> 0 < |fb| && granted[0] == FB.Nth(f, count))
      && (|granted| == 2 ==> granted[1] == FB.Nth(f, count + 1))
      && |granted| <= 2
  {
    SelectionsMade(f, s, call);
  }

  lemma InvokedIsGranted(f: FB.Config, s: Service, call: Call)
    ensures var done, granted := Complete(f, s, call), Granted(f, s, call, PrimaryOf(f, call));
      && (done.via == OnError ==> |granted| == 2 && done.invoked[1] == granted[1])
      && (done.via == OnOpenCircuit ==> |granted| == 1 && done.invoked[0] == granted[0])
  {
  }

  /** The selections granted so far are the first ones of the round, and all are counted. */
  ghost predicate InRound(f: FB.Config, selections: seq<string>, count: nat) {
    selections == FB.Round(f, count)
  }

  lemma CallContinuesRound(f: FB.Config, s: Service, call: Call, p: string, before: seq<string>)
    requires InRound(f, before, FB.CountOf(s.counts, p))
    ensures InRound(f, before + Granted(f, s, call, p), FB.CountOf(Complete(f, s, call).service.counts, p))
  {
    GrantedContinues(f, s, call, p);
  }

  /** The selections granted by the first `k` calls are the first ones of the round, and are counted. */
  ghost predicate KeepsRound(f: FB.Config, s: Service, calls: seq<Call>, k: nat, p: string)
    requires k <= |calls|
  {
    InRound(f, AllGranted(f, s, calls, k, p), FB.CountOf(AfterCalls(f, s, calls, k).counts, p))
  }

  lemma FirstRound(f: FB.Config, s: Service, calls: seq<Call>, p: string)
    requires FB.CountOf(s.counts, p) == 0
    ensures KeepsRound(f, s, calls, 0, p)
  {
  }

  lemma OneMoreCall(f: FB.Config, s: Service, calls: seq<Call>, k: nat, p: string)
    requires 0 < k <= |calls| && KeepsRound(f, s, calls, k - 1, p)
    ensures KeepsRound(f, s, calls, k, p)
  {
    CallContinuesRound(f, AfterCalls(f, s, calls, k - 1), calls[k - 1], p, AllGranted(f, s, calls, k - 1, p));
  }

  lemma {:induction false} GrantedIsRound(f: FB.Config, s: Service, calls: seq<Call>, k: nat, p: string)
    requires k <= |calls| && FB.CountOf(s.counts, p) == 0
    ensures KeepsRound(f, s, calls, k, p)
  {
    if k == 0 {
      FirstRound(f, s, calls, p);
    } else {
      GrantedIsRound(f, s, calls, k - 1, p);
      OneMoreCall(f, s, calls, k, p);
    }
  }

  /** Over any sequence of calls, the k-th selection granted to `p` is fallback k mod n, and all of them
      are counted. */
  lemma SelectionsGoRound(f: FB.Config, s: Service, calls: seq<Call>, p: string)
    requires FB.CountOf(s.counts, p) == 0 && 0 < |f.fallbackProviders|
    ensures var granted := AllGranted(f, s, calls, |calls|, p);
      && |granted| == FB.CountOf(AfterCalls(f, s, calls, |calls|).counts, p)
      && forall k :: 0 <= k < |granted| ==> granted[k] == f.fallbackProviders[k % |f.fallbackProviders|]
  {
    GrantedIsRound(f, s, calls, |calls|, p);
    FB.RoundRobin(f, FB.CountOf(AfterCalls(f, s, calls, |calls|).counts, p));
  }

  // ------------------------------------------------------------------ breakers and health records

  datatype Op =
    | Register(name: string, config: Option<CB.Config>)
    | Calling(call: Call)
    | ResetBreaker(name: string)

  /** Registering with a config puts a new breaker in place, also of an old one. */
  function Guarded(guards: map<string, Guard>, name: string, config: Option<CB.Config>): map<string, Guard> {
    if config.Some? then guards[name := Guard(config.value, CB.FRESH)] else guards
  }

  function Apply(f: FB.Config, s: Service, op: Op): Service {
    match op
    case Calling(call) => Complete(f, s, call).service
    case Register(name, config) =>
      Service(
        s.registered + {name},
        Guarded(s.guards, name, config),
        H.Registered(s.health, name),
        s.counts)
    case ResetBreaker(name) => WithEvent(s, name, CB.Reset)
  }

  function AfterOps(f: FB.Config, ops: seq<Op>, k: nat): Service
    requires k <= |ops|
  {
    if k == 0 then EMPTY else Apply(f, AfterOps(f, ops, k - 1), ops[k - 1])
  }

  /** What a call tells the breaker of `p`: it asks, and reports the outcome of its primary if that was invoked. */
  function EventsOf(f: FB.Config, s: Service, call: Call, p: string): seq<CB.Event> {
    if PrimaryOf(f, call) != p || p !in s.registered then []
    else if Refused(s, p, call.askedAt) then [CB.Probe(call.askedAt)]
    else
      var at := call.answered;
      match call.primaryOutcome
      case Response(_) => [CB.Probe(call.askedAt), CB.Success(at.outcome)]
      case Raised(_) => [CB.Probe(call.askedAt), CB.Failure(at.outcome, at.opening)]
  }

  /** What the first `k` operations tell the breaker that `p` has now. */
  function EventsOver(f: FB.Config, ops: seq<Op>, k: nat, p: string): seq<CB.Event>
    requires k <= |ops|
  {
    if k == 0 then []
    else
      match ops[k - 1]
      case Register(name, config) => if name == p && config.Some? then [] else EventsOver(f, ops, k - 1, p)
      case Calling(call) => EventsOver(f, ops, k - 1, p) + EventsOf(f, AfterOps(f, ops, k - 1), call, p)
      case ResetBreaker(name) => EventsOver(f, ops, k - 1, p) + if name == p then [CB.Reset] else []
  }

  /** The breaker of `p`, if it has one, is where these events have brought a fresh one. */
  ghost predicate Follows(s: Service, p: string, events: seq<CB.Event>) {
    p in s.guards ==> s.guards[p].breaker == CB.After(s.guards[p].config, CB.FRESH, events, |events|)
  }

  lemma FollowsOne(s: Service, p: string, events: seq<CB.Event>, e: CB.Event)
    requires Follows(s, p, events)
    ensures Follows(WithEvent(s, p, e), p, events + [e])
  {
    if p in s.guards {
      CB.AfterPrefix(s.guards[p].config, CB.FRESH, events, e, |events|);
    }
  }

  lemma CallFollows(f: FB.Config, s: Service, call: Call, p: string, events: seq<CB.Event>)
    requires Follows(s, p, events)
    ensures Follows(Complete(f, s, call).service, p, events + EventsOf(f, s, call, p))
  {
    FallbackRecordsNothing(f, s, call);
    var more := EventsOf(f, s, call, p);
    if more == [] {
      assert events + more == events;
    } else {
      var asked := WithEvent(s, p, CB.Probe(call.askedAt));
      FollowsOne(s, p, events, CB.Probe(call.askedAt));
      if 1 < |more| {
        FollowsOne(asked, p, events + [more[0]], more[1]);
        assert events + [more[0]] + [more[1]] == events + more;
      }
    }
  }

  /** After any operations, the breaker of a provider is where what it was told since its registration, and
      nothing else, brings a fresh one; so what is proved about breakers holds for it. */
  lemma {:induction false} BreakerFollowsCalls(f: FB.Config, ops: seq<Op>, k: nat, p: string)
    requires k <= |ops|
    ensures Follows(AfterOps(f, ops, k), p, EventsOver(f, ops, k, p))
  {
    if 0 < k {
      BreakerFollowsCalls(f, ops, k - 1, p);
      var s, events := AfterOps(f, ops, k - 1), EventsOver(f, ops, k - 1, p);
      match ops[k - 1]
      case Calling(call) => CallFollows(f, s, call, p, events);
      case Register(name, config) =>
        assert config.Some? && name == p ==> CB.After(config.value, CB.FRESH, [], 0) == CB.FRESH;
      case ResetBreaker(name) =>
        if name == p {
          FollowsOne(s, p, events, CB.Reset);
        } else {
          assert events + [] == events;
        }
    }
  }

  /** The breaker config of the last registration of `p` that had one. */
  function LatestConfig(ops: seq<Op>, k: nat, p: string): Option<CB.Config>
    requires k <= |ops|
  {
    if k == 0 then None
    else if ops[k - 1].Register? && ops[k - 1].name == p && ops[k - 1].config.Some? then ops[k - 1].config
    else LatestConfig(ops, k - 1, p)
  }

  /** Only registering makes a provider known, with a health record and, if there was a config, a breaker with the
      latest one. */
  ghost predicate Enlisted(s: Service, p: string, known: bool, config: Option<CB.Config>) {
    && (p in s.registered <==> known) && (p in s.health <==> known)
    && (p in s.guards <==> config.Some?)
    && (p in s.guards ==> s.guards[p].config == config.value)
  }

  lemma CallKeepsEnlisted(f: FB.Config, s: Service, call: Call, p: string, known: bool, config: Option<CB.Config>)
    requires Enlisted(s, p, known, config)
    ensures Enlisted(Complete(f, s, call).service, p, known, config)
  {
    FallbackRecordsNothing(f, s, call);
  }

  lemma {:induction false} EnlistedExactly(f: FB.Config, ops: seq<Op>, k: nat, p: string)
    requires k <= |ops|
    ensures Enlisted(AfterOps(f, ops, k), p, Known(ops, k, p), LatestConfig(ops, k, p))
  {
    if 0 < k {
      EnlistedExactly(f, ops, k - 1, p);
      if ops[k - 1].Calling? {
        CallKeepsEnlisted(f, AfterOps(f, ops, k - 1), ops[k - 1].call, p,
                          Known(ops, k - 1, p), LatestConfig(ops, k - 1, p));
      }
    }
  }

  /** So a provider is refused, after any operations, exactly if it has a breaker that is open and was opened less
      than its timeout ago. */
  lemma RefusedInService(f: FB.Config, ops: seq<Op>, k: nat, p: string, now: int)
    requires k <= |ops|
    ensures var s := AfterOps(f, ops, k);
      Refused(s, p, now) <==> p in s.guards && var Guard(c, b) := s.guards[p];
        b.state == CB.OPEN && b.openTimestamp.Some? && now - b.openTimestamp.value < c.openTimeout
  {
    BreakerFollowsCalls(f, ops, k, p);
    var s, events := AfterOps(f, ops, k), EventsOver(f, ops, k, p);
    if p in s.guards {
      CB.RefusedExactly(s.guards[p].config, events, |events|, now);
    }
  }

  /** What a call notes in the health record of `p`: the outcome of its primary, if that was invoked, with the
      latency of its response. */
  function ChecksOf(f: FB.Config, s: Service, call: Call, p: string): seq<H.Check> {
    if PrimaryOf(f, call) != p || p !in s.registered || Refused(s, p, call.askedAt) then []
    else
      match call.primaryOutcome
      case Response(latency) => [H.Check(true, latency, call.answered.check, call.answered.noted)]
      case Raised(_) => [H.Check(false, 0.0, call.answered.check, call.answered.noted)]
  }

  function ChecksOver(f: FB.Config, ops: seq<Op>, k: nat, p: string): seq<H.Check>
    requires k <= |ops|
  {
    if k == 0 then []
    else if ops[k - 1].Calling? then
      ChecksOver(f, ops, k - 1, p) + ChecksOf(f, AfterOps(f, ops, k - 1), ops[k - 1].call, p)
    else ChecksOver(f, ops, k - 1, p)
  }

  /** The health record of `p` holds these checks; a provider without a record has had none. */
  ghost predicate Holds(s: Service, p: string, checks: seq<H.Check>) {
    if p in s.health then s.health[p] == H.After(checks, |checks|) else checks == []
  }

  lemma HoldsOne(s: Service, p: string, checks: seq<H.Check>, check: H.Check)
    requires Holds(s, p, checks)
    ensures Holds(WithCheck(s, p, check), p, checks + [check])
  {
    H.AfterPrefix(checks, check, |checks|);
  }

  lemma CallHolds(f: FB.Config, s: Service, call: Call, p: string, checks: seq<H.Check>)
    requires Holds(s, p, checks)
    ensures Holds(Complete(f, s, call).service, p, checks + ChecksOf(f, s, call, p))
  {
    FallbackRecordsNothing(f, s, call);
    var more := ChecksOf(f, s, call, p);
    if more == [] {
      assert checks + more == checks;
    } else {
      assert more == [more[0]];
      HoldsOne(s, p, checks, more[0]);
    }
  }

  /** After any operations, the health record of a provider holds the outcomes of its own calls, in order. */
  lemma {:induction false} HealthFollowsCalls(f: FB.Config, ops: seq<Op>, k: nat, p: string)
    requires k <= |ops|
    ensures Holds(AfterOps(f, ops, k), p, ChecksOver(f, ops, k, p))
  {
    if 0 < k {
      HealthFollowsCalls(f, ops, k - 1, p);
      if ops[k - 1].Calling? {
        CallHolds(f, AfterOps(f, ops, k - 1), ops[k - 1].call, p, ChecksOver(f, ops, k - 1, p));
      }
    }
  }

  /** Both or neither happened, and the first no later than the second. */
  predicate NoLater(a: Option<int>, b: Option<int>) {
    if a.Some? then b.Some? && a.value <= b.value else b.None?
  }

  /** A provider's breaker and its health record have counted the same requests, and the breaker read
      the clock for the last success and the last failure no later. */
  ghost predicate Agree(s: Service, p: string) {
    && p in s.guards && p in s.health
    && var m, h := s.guards[p].breaker.metrics, s.health[p];
       && m.totalRequests == h.totalChecks
       && m.successfulRequests == h.successfulChecks
       && m.failedRequests == h.failedChecks
       && m.consecutiveSuccesses == h.consecutiveSuccesses
       && m.consecutiveFailures == h.consecutiveFailures
       && NoLater(m.lastSuccessTime, h.lastSuccessTime)
       && NoLater(m.lastFailureTime, h.lastFailureTime)
       && |s.guards[p].breaker.failureWindow| == |h.latencySamples| <= H.SAMPLES_KEPT
  }

  /** What a call records about its primary, apart from the attempts it uses up. */
  function Recorded(f: FB.Config, s: Service, call: Call): Service {
    var name := PrimaryOf(f, call);
    if name !in s.registered then s
    else
      var asked := WithEvent(s, name, CB.Probe(call.askedAt));
      if Refused(s, name, call.askedAt) then asked
      else
        match call.primaryOutcome
        case Response(latency) => WithOutcome(asked, name, true, latency, call.answered)
        case Raised(_) => WithOutcome(asked, name, false, 0.0, call.answered)
  }

  predicate SameRecords(s: Service, t: Service) {
    s.guards == t.guards && s.health == t.health && s.registered == t.registered
  }

  lemma RecoverRecordsNothing(f: FB.Config, s: Service, primary: string, call: Call, errorType: FB.ErrorType)
    ensures SameRecords(Recover(f, s, primary, call, errorType).service, s)
  {
  }

  /** Falling back, or trying to, records nothing but attempts. */
  lemma FallbackRecordsNothing(f: FB.Config, s: Service, call: Call)
    ensures SameRecords(Complete(f, s, call).service, Recorded(f, s, call))
  {
    var name := PrimaryOf(f, call);
    if name in s.registered && !Refused(s, name, call.askedAt) && call.primaryOutcome.Raised? {
      RecoverRecordsNothing(f, Recorded(f, s, call), name, call, call.primaryOutcome.errorType);
    }
  }

  lemma ProbeKeepsAgreement(s: Service, name: string, now: int, p: string)
    requires Agree(s, p)
    ensures Agree(WithEvent(s, name, CB.Probe(now)), p)
  {
  }

  lemma OutcomeKeepsAgreement(s: Service, name: string, healthy: bool, latency: real, at: Clock, p: string)
    requires Agree(s, p)
    ensures Agree(WithOutcome(s, name, healthy, latency, at), p)
  {
  }

  lemma RecordedKeepsAgreement(f: FB.Config, s: Service, call: Call, p: string)
    requires Agree(s, p)
    ensures Agree(Recorded(f, s, call), p)
  {
    var name := PrimaryOf(f, call);
    ProbeKeepsAgreement(s, name, call.askedAt, p);
    var asked := WithEvent(s, name, CB.Probe(call.askedAt));
    match call.primaryOutcome
    case Response(latency) => OutcomeKeepsAgreement(asked, name, true, latency, call.answered, p);
    case Raised(_) => OutcomeKeepsAgreement(asked, name, false, 0.0, call.answered, p);
  }

  lemma CompleteKeepsAgreement(f: FB.Config, s: Service, call: Call, p: string)
    requires Agree(s, p)
    ensures Agree(Complete(f, s, call).service, p)
  {
    FallbackRecordsNothing(f, s, call);
    RecordedKeepsAgreement(f, s, call, p);
  }

  /** Calls record nothing about providers that are not registered. */
  lemma CompleteSparesUnknown(f: FB.Config, s: Service, call: Call, p: string)
    requires p !in s.registered && p !in s.guards && p !in s.health
    ensures var s' := Complete(f, s, call).service;
      p !in s'.registered && p !in s'.guards && p !in s'.health
  {
    FallbackRecordsNothing(f, s, call);
  }

  /** One of the first `k` operations registered `p`. */
  predicate Known(ops: seq<Op>, k: nat, p: string)
    requires k <= |ops|
  {
    0 < k && (Known(ops, k - 1, p) || (ops[k - 1].Register? && ops[k - 1].name == p))
  }

  /** The first `k` operations register `p` at most once, then with a breaker, and never reset it. */
  ghost predicate Undisturbed(ops: seq<Op>, k: nat, p: string)
    requires k <= |ops|
  {
    forall i :: 0 <= i < k ==>
      && ops[i] != ResetBreaker(p)
      && (ops[i].Register? && ops[i].name == p ==> ops[i].config.Some? && !Known(ops, i, p))
  }

  ghost predicate Consistent(s: Service, p: string, known: bool) {
    if known then p in s.registered && Agree(s, p)
    else p !in s.registered && p !in s.guards && p !in s.health
  }

  lemma CallKeepsConsistent(f: FB.Config, s: Service, call: Call, p: string, known: bool)
    requires Consistent(s, p, known)
    ensures Consistent(Complete(f, s, call).service, p, known)
  {
    FallbackRecordsNothing(f, s, call);
    if known {
      CompleteKeepsAgreement(f, s, call, p);
    } else {
      CompleteSparesUnknown(f, s, call, p);
    }
  }

  lemma RegistrationKeepsConsistent(f: FB.Config, s: Service, name: string, config: Option<CB.Config>,
                                    p: string, known: bool)
    requires Consistent(s, p, known) && (name == p ==> config.Some? && !known)
    ensures Consistent(Apply(f, s, Register(name, config)), p, known || name == p)
  {
  }

  lemma ResetKeepsConsistent(f: FB.Config, s: Service, name: string, p: string, known: bool)
    requires Consistent(s, p, known) && name != p
    ensures Consistent(Apply(f, s, ResetBreaker(name)), p, known)
  {
  }

  /** Until a reset or another registration, breaker and health record agree after any operations. */
  lemma {:induction false} BreakerAgreesWithHealth(f: FB.Config, ops: seq<Op>, k: nat, p: string)
    requires k <= |ops| && Undisturbed(ops, k, p)
    ensures Consistent(AfterOps(f, ops, k), p, Known(ops, k, p))
  {
    if 0 < k {
      BreakerAgreesWithHealth(f, ops, k - 1, p);
      var s, known := AfterOps(f, ops, k - 1), Known(ops, k - 1, p);
      match ops[k - 1]
      case Calling(call) => CallKeepsConsistent(f, s, call, p, known);
      case Register(name, config) => RegistrationKeepsConsistent(f, s, name, config, p, known);
      case ResetBreaker(name) => ResetKeepsConsistent(f, s, name, p, known);
    }
  }

  // ------------------------------------------------------------------ the service

  class ProviderService {
    const config: FB.Config
    const handler: FB.FallbackHandler
    const monitor: H.ProviderHealthMonitor
    var registered: set<string>
    var breakers: map<string, CB.CircuitBreaker>

    /** No two providers share a breaker, and the parts are in order. */
    ghost predicate Valid()
      reads this, handler, monitor
    {
      && handler.config == config && handler.Valid() && monitor.Valid()
      && forall a, b :: a in breakers && b in breakers && a != b ==> breakers[a] != breakers[b]
    }

    ghost function Guards(): map<string, Guard>
      reads `breakers, breakers.Values
    {
      map name | name in breakers :: Guard(breakers[name].config, breakers[name].Snapshot())
    }

    ghost function View(): Service
      reads this, handler, monitor, breakers.Values, monitor.providers.Values
    {
      Service(registered, Guards(), monitor.View(), handler.counts)
    }

    constructor (config: FB.Config)
      ensures Valid() && this.config == config && View() == EMPTY
      ensures fresh(handler) && fresh(monitor)
    {
      this.config := config;
      handler := new FB.FallbackHandler(config);
      monitor := new H.ProviderHealthMonitor();
      registered, breakers := {}, map[];
    }

    method RegisterProvider(name: string, breakerConfig: Option<CB.Config>)
      requires Valid()
      modifies this, monitor
      ensures Valid() && fresh(breakers.Values - old(breakers.Values))
      ensures fresh(monitor.providers.Values - old(monitor.providers.Values))
      ensures View() == Apply(config, old(View()), Register(name, breakerConfig))
    {
      RegisterName(name);
      RegisterParts(name, breakerConfig);
    }

    method RegisterName(name: string)
      requires Valid()
      modifies `registered
      ensures Valid() && registered == old(registered) + {name}
      ensures Guards() == old(Guards()) && monitor.View() == old(monitor.View())
    {
      registered := registered + {name};
    }

    method RegisterParts(name: string, breakerConfig: Option<CB.Config>)
      requires Valid()
      modifies `breakers, monitor
      ensures Valid() && fresh(breakers.Values - old(breakers.Values))
      ensures fresh(monitor.providers.Values - old(monitor.providers.Values))
      ensures monitor.View() == H.Registered(old(monitor.View()), name)
      ensures Guards() == Guarded(old(Guards()), name, breakerConfig)
    {
      RegisterHealth(name);
      if breakerConfig.Some? {
        AddBreaker(name, breakerConfig.value);
      }
    }

    method RegisterHealth(name: string)
      requires Valid()
      modifies monitor
      ensures Valid() && fresh(monitor.providers.Values - old(monitor.providers.Values))
      ensures monitor.View() == H.Registered(old(monitor.View()), name)
      ensures Guards() == old(Guards())
    {
      monitor.RegisterProvider(name);
    }

    method AddBreaker(name: string, breakerConfig: CB.Config)
      requires Valid()
      modifies `breakers
      ensures Valid() && fresh(breakers.Values - old(breakers.Values))
      ensures Guards() == old(Guards())[name := Guard(breakerConfig, CB.FRESH)]
      ensures monitor.View() == old(monitor.View())
    {
      var breaker := new CB.CircuitBreaker(breakerConfig);
      breakers := breakers[name := breaker];
    }

    /** Passes an event on to the breaker of a provider, if it has one. */
    method Tell(name: string, e: CB.Event)
      requires Valid() && !e.Probe?
      modifies breakers.Values
      ensures Valid()
      ensures Guards() == Told(old(Guards()), name, e)
      ensures monitor.View() == old(monitor.View())
    {
      if name in breakers {
        var breaker := breakers[name];
        assert breaker in breakers.Values;
        match e
        case Success(now) => breaker.RecordSuccess(now);
        case Failure(now, openedAt) => breaker.RecordFailure(now, openedAt);
        case Reset => breaker.ResetAll();
      }
    }

    method ResetCircuitBreaker(name: string) returns (found: bool)
      requires Valid()
      modifies breakers.Values
      ensures Valid() && found == (name in breakers)
      ensures View() == Apply(config, old(View()), ResetBreaker(name))
    {
      found := name in breakers;
      Tell(name, CB.Reset);
    }

    /** Asks the breaker of a provider, if it has one, whether a request may run. */
    method AskBreaker(name: string, now: int) returns (allowed: bool)
      requires Valid()
      modifies breakers.Values
      ensures Valid() && allowed == !Refused(old(View()), name, now)
      ensures View() == WithEvent(old(View()), name, CB.Probe(now))
    {
      allowed := true;
      if name in breakers {
        var breaker := breakers[name];
        assert breaker in breakers.Values;
        allowed := breaker.Ask(now);
      }
    }

    method CheckHealth(name: string, check: H.Check)
      requires Valid()
      modifies monitor, monitor.providers.Values
      ensures Valid() && fresh(monitor.providers.Values - old(monitor.providers.Values))
      ensures monitor.View() == H.Checked(old(monitor.View()), name, check)
      ensures Guards() == old(Guards())
    {
      monitor.RecordHealthCheck(name, check);
    }

    /** Records the outcome of a request with the provider's breaker and its health record. */
    method Record(name: string, healthy: bool, latency: real, at: Clock)
      requires Valid()
      modifies breakers.Values, monitor, monitor.providers.Values
      ensures Valid() && fresh(monitor.providers.Values - old(monitor.providers.Values))
      ensures View() == WithOutcome(old(View()), name, healthy, latency, at)
    {
      Tell(name, EventOf(healthy, at));
      CheckHealth(name, CheckOf(healthy, latency, at));
    }

    method FallBack(primary: string, call: Call, invoked: seq<string>, via: Via)
        returns (calls: seq<string>, through: Via, reply: Reply)
      requires Valid()
      modifies handler
      ensures Valid()
      ensures Done(View(), calls, through, reply)
           == AttemptFallback(config, old(View()), primary, call, invoked, via)
    {
      var name := handler.GetFallbackProvider(primary);
      if !(name.Some? && name.value != "") || !FB.Compatible(config, primary, name.value)
         || name.value !in registered {
        return invoked, NoFallback, Unavailable;
      }
      reply := match call.fallbackOutcome
        case Response(_) => Answer(name.value)
        case Raised(errorType) => Reraised(errorType);
      return invoked + [name.value], via, reply;
    }

    /** The decision to fall back, and the fallback. */
    method RecoverFrom(primary: string, call: Call, errorType: FB.ErrorType)
        returns (invoked: seq<string>, via: Via, reply: Reply)
      requires Valid()
      modifies handler
      ensures Valid() && monitor.providers == old(monitor.providers)
      ensures Done(View(), invoked, via, reply) == Recover(config, old(View()), primary, call, errorType)
    {
      var circuitOpen := primary in breakers && breakers[primary].state == CB.OPEN;
      var decision := handler.ShouldFallback(primary, errorType, circuitOpen, false);
      if decision.shouldFallback {
        invoked, via, reply := FallBack(primary, call, [primary], OnError);
        return;
      }
      return [primary], NoFallback, Reraised(errorType);
    }

    method Fail(primary: string, call: Call, errorType: FB.ErrorType)
        returns (invoked: seq<string>, via: Via, reply: Reply)
      requires Valid()
      modifies handler, monitor, breakers.Values, monitor.providers.Values
      ensures Valid() && fresh(monitor.providers.Values - old(monitor.providers.Values))
      ensures Done(View(), invoked, via, reply) == Failed(config, old(View()), primary, call, errorType)
    {
      Record(primary, false, 0.0, call.answered);
      if call.enableFallback {
        invoked, via, reply := RecoverFrom(primary, call, errorType);
        return;
      }
      return [primary], NoFallback, Reraised(errorType);
    }

    method CompleteRequest(call: Call) returns (invoked: seq<string>, via: Via, reply: Reply)
      requires Valid()
      modifies handler, monitor, breakers.Values, monitor.providers.Values
      ensures Valid() && fresh(monitor.providers.Values - old(monitor.providers.Values))
      ensures Done(View(), invoked, via, reply) == Complete(config, old(View()), call)
    {
      var name := PrimaryOf(config, call);
      if name !in registered {
        return [], NoFallback, NoSuchProvider;
      }
      var allowed := AskBreaker(name, call.askedAt);
      if !allowed {
        if call.enableFallback {
          invoked, via, reply := FallBack(name, call, [], OnOpenCircuit);
          return;
        }
        return [], NoFallback, Unavailable;
      }
      match call.primaryOutcome
      case Response(latency) =>
        Record(name, true, latency, call.answered);
        return [name], NoFallback, Answer(name);
      case Raised(errorType) =>
        invoked, via, reply := Fail(name, call, errorType);
    }
  }
}
