/**
 Executing a tool on behalf of a run: grant, rate limit, approval, execution, and only then counting.

 The two readings of the clock, and whether the tool handler raises, are supplied with each call.
*/
module ToolExecution {
  import opened Wrappers
  import opened RateLimiter
  import P = Policy
  import R = Run
  import Protocol = ToolProtocol

  /** How a call ends.  The result for a call that waits for approval is never built: the method that
      should build it is shadowed by the field of the same name, and calling it raises. */
  datatype Result =
    | NoGrant
    | RateLimited(limit: P.RateLimit)
    | RequestRejected
    | ApprovalFailed(error: R.Error)
    | ResultNotBuilt
    | HandlerRaised
    | Executed
  {
    /** The call returned, instead of raising. */
    predicate Returned() {
      NoGrant? || RateLimited? || Executed?
    }
  }

  /** What an approver is asked; time stamps and the identity of the request are not modelled. */
  datatype ApprovalRequest = ApprovalRequest(
    runId: string,
    stepSequence: nat,
    toolName: string,
    action: string,
    resource: Option<string>,
    inputData: string,
    policyReason: P.Reason,
    requestedBy: string)

  predicate Blank(name: string, spaces: set<char>) {
    forall c :: c in name ==> c in spaces
  }

  /** Requests that name no tool or no action are not created. */
  predicate Rejected(request: ApprovalRequest, spaces: set<char>) {
    Blank(request.toolName, spaces) || Blank(request.action, spaces)
  }

  /** Stores approval requests. */
  class ApprovalCoordinator {
    const spaces: set<char>
    var requests: seq<ApprovalRequest>

    constructor (spaces: set<char>)
      ensures this.spaces == spaces && requests == []
    {
      this.spaces, requests := spaces, [];
    }

    method RequestApproval(request: ApprovalRequest) returns (stored: bool)
      modifies `requests
      ensures stored == !Rejected(request, spaces)
      ensures requests == if stored then old(requests) + [request] else old(requests)
    {
      stored := !Rejected(request, spaces);
      if stored {
        requests := requests + [request];
      }
    }
  }

  /** One call: the decision of its grant, if there is one, and what happens around it. */
  datatype Call = Call(
    key: string,
    decision: Option<P.Decision>,
    request: ApprovalRequest,
    handlerRaises: bool,
    checkedAt: nat,
    finishedAt: nat)

  /** What a caller asks for, and all that decides what comes of it. */
  datatype Asked = Asked(
    runId: string,
    tenant: string,
    toolName: string,
    req: P.Request,
    inputData: string,
    decision: Option<P.Decision>,
    handlerRaises: bool,
    checkedAt: nat,
    finishedAt: nat)

  function LimitKey(toolName: string, action: string, tenant: string): string {
    "tool:" + toolName + ":" + action + ":" + tenant
  }

  /** The number of the step is looked up under a name that runs do not have, so it is always 0. */
  function RequestOf(runId: string, toolName: string, req: P.Request, inputData: string, reason: P.Reason)
      : ApprovalRequest {
    ApprovalRequest(runId, 0, toolName, req.action, req.resource, inputData, reason, "executor")
  }

  function CallOf(a: Asked): Call {
    var reason := if a.decision.Some? then a.decision.value.reason else P.Denies;
    Call(LimitKey(a.toolName, a.req.action, a.tenant), a.decision,
         RequestOf(a.runId, a.toolName, a.req, a.inputData, reason), a.handlerRaises, a.checkedAt, a.finishedAt)
  }

  function ScopeName(scope: P.Scope): string {
    match scope
    case MINUTE => "minute"
    case HOUR => "hour"
    case DAY => "day"
  }

  function LimitTicks(limit: P.RateLimit): Ticks {
    WindowTicks(ScopeName(limit.scope))
  }

  /** The window a limit is checked under is as long as its scope says. */
  lemma ScopeIsWindow(limit: P.RateLimit)
    ensures LimitTicks(limit) == P.ScopeSeconds(limit.scope) * TICKS_PER_SECOND
  {
    match limit.scope
    case MINUTE => assert ScopeName(limit.scope) == "minute";
    case HOUR => assert ScopeName(limit.scope) == "hour" != "minute";
    case DAY => assert ScopeName(limit.scope) == "day" && "day"[0] == 'd';
  }

  predicate HasLimit(call: Call) {
    call.decision.Some? && call.decision.value.rateLimit.Some?
  }

  /** The call is turned away by the rate limiter. */
  predicate OverLimit(log: seq<Hit>, call: Call) {
    && HasLimit(call)
    && var limit := call.decision.value.rateLimit.value;
       limit.limit <= Estimate(Replay(log), call.key, LimitTicks(limit), call.checkedAt)
  }

  /** The tool runs to its end. */
  predicate Completes(log: seq<Hit>, call: Call) {
    && call.decision.Some? && !OverLimit(log, call)
    && !call.decision.value.requiresApproval && !call.handlerRaises
  }

  /** The log of increments: it grows exactly when a rate-limited tool ran to its end. */
  function LogAfterCall(log: seq<Hit>, call: Call): seq<Hit> {
    if Completes(log, call) && HasLimit(call)
    then log + [Hit(call.key, LimitTicks(call.decision.value.rateLimit.value), call.finishedAt)]
    else log
  }

  /** An approver is asked about a call that needs approval and is within its limit. */
  predicate Asks(log: seq<Hit>, call: Call, spaces: set<char>) {
    && call.decision.Some? && !OverLimit(log, call)
    && call.decision.value.requiresApproval && !Rejected(call.request, spaces)
  }

  function RequestsAfterCall(log: seq<Hit>, requests: seq<ApprovalRequest>, call: Call, spaces: set<char>)
      : seq<ApprovalRequest> {
    if Asks(log, call, spaces) then requests + [call.request] else requests
  }

  /** Only such a call touches the run, after the request is stored. */
  function RunAfterCall(log: seq<Hit>, r: R.RunData, call: Call, spaces: set<char>): R.Done {
    if Asks(log, call, spaces) then R.Do(r, R.RequestApproval) else R.Done(r, None)
  }

  function ResultOf(log: seq<Hit>, r: R.RunData, call: Call, spaces: set<char>): Result {
    if call.decision.None? then NoGrant
    else if OverLimit(log, call) then RateLimited(call.decision.value.rateLimit.value)
    else if call.decision.value.requiresApproval then
      var moved := RunAfterCall(log, r, call, spaces);
      if !Asks(log, call, spaces) then RequestRejected
      else if moved.error.Some? then ApprovalFailed(moved.error.value)
      else ResultNotBuilt
    else if call.handlerRaises then HandlerRaised
    else Executed
  }

  /** A request is stored even when the run cannot wait for its answer: the run waits exactly if it was
      running, and otherwise the request stays behind.  The call raises either way. */
  lemma OrphanedExactly(log: seq<Hit>, r: R.RunData, requests: seq<ApprovalRequest>, call: Call, spaces: set<char>)
    requires Asks(log, call, spaces)
    ensures RequestsAfterCall(log, requests, call, spaces) == requests + [call.request]
    ensures ResultOf(log, r, call, spaces) == ResultNotBuilt <==> r.state == R.RUNNING
    ensures r.state == R.RUNNING <==> RunAfterCall(log, r, call, spaces).run.state == R.AWAITING_APPROVAL != r.state
    ensures !ResultOf(log, r, call, spaces).Returned()
  {
  }

  /** A call returns without raising exactly if there is no grant, or it is over its limit, or it needs no
      approval and its handler does not raise. */
  lemma ReturnsExactly(log: seq<Hit>, r: R.RunData, call: Call, spaces: set<char>)
    ensures ResultOf(log, r, call, spaces).Returned() <==>
      || call.decision.None?
      || OverLimit(log, call)
      || (!call.decision.value.requiresApproval && !call.handlerRaises)
  {
  }

  /** Which result a call has: turned away without a grant; then, over its limit, with that limit; then, if it
      needs approval, by what is wrong with its request or its run, and never with a result; and else by
      its handler. */
  lemma ResultExactly(log: seq<Hit>, r: R.RunData, a: Asked, spaces: set<char>)
    ensures var call := CallOf(a);
      var result, passes := ResultOf(log, r, call, spaces), a.decision.Some? && !OverLimit(log, call);
      var asking, blank := passes && a.decision.value.requiresApproval,
                           Blank(a.toolName, spaces) || Blank(a.req.action, spaces);
      && (result.NoGrant? <==> a.decision.None?)
      && (result.RateLimited? <==> OverLimit(log, call))
      && (result.RateLimited? ==> a.decision.value.rateLimit == Some(result.limit))
      && (result.RequestRejected? <==> asking && blank)
      && (result.ApprovalFailed? <==> asking && !blank && r.state != R.RUNNING)
      && (result.ResultNotBuilt? <==> asking && !blank && r.state == R.RUNNING)
      && (result.HandlerRaised? <==> passes && !a.decision.value.requiresApproval && a.handlerRaises)
      && (result.Executed? <==> passes && !a.decision.value.requiresApproval && !a.handlerRaises)
  {
  }

  /** What an approver is told: the run, the tool, action, resource and input of the call, and why it needs approval;
      but always the first step. */
  lemma ApproverIsTold(log: seq<Hit>, requests: seq<ApprovalRequest>, a: Asked, spaces: set<char>)
    requires Asks(log, CallOf(a), spaces)
    ensures var told := RequestsAfterCall(log, requests, CallOf(a), spaces);
      && |told| == |requests| + 1 && told[..|requests|] == requests
      && var request := told[|requests|];
         && request.runId == a.runId && request.toolName == a.toolName && request.action == a.req.action
         && request.resource == a.req.resource && request.inputData == a.inputData
         && request.policyReason == a.decision.value.reason && request.stepSequence == 0
         && request.requestedBy == "executor"
  {
  }

  /** A call is over its limit exactly if its decision carries one and, of the executions in the window and the
      one before it, those that the sliding window still covers are no fewer. */
  lemma OverLimitExactly(log: seq<Hit>, call: Call)
    requires HasLimit(call) ==> SingleWindow(log, call.key, LimitTicks(call.decision.value.rateLimit.value))
    ensures OverLimit(log, call) <==>
      HasLimit(call) && var limit := call.decision.value.rateLimit.value;
        limit.limit <= SlidingCount(log, call.key, LimitTicks(limit), call.checkedAt)
  {
    if HasLimit(call) {
      ReadExactly(log, call.key, LimitTicks(call.decision.value.rateLimit.value), call.checkedAt);
    }
  }

  /** Whatever a call comes to, it does at most one thing: count an execution, or ask an approver; and a
      call that returns has neither asked an approver nor moved the run. */
  lemma CountsOrAsks(log: seq<Hit>, r: R.RunData, requests: seq<ApprovalRequest>, call: Call, spaces: set<char>)
    ensures LogAfterCall(log, call) == log || RequestsAfterCall(log, requests, call, spaces) == requests
    ensures LogAfterCall(log, call) != log ==> ResultOf(log, r, call, spaces) == Executed
    ensures RunAfterCall(log, r, call, spaces).run != r ==> ResultOf(log, r, call, spaces) == ResultNotBuilt
    ensures ResultOf(log, r, call, spaces).Returned() ==>
      RequestsAfterCall(log, requests, call, spaces) == requests && RunAfterCall(log, r, call, spaces).run == r
  {
  }

  // ------------------------------------------------------------------ whose calls are counted together

  lemma PrefixCancels(prefix: string, a: string, b: string)
    ensures prefix + a == prefix + b <==> a == b
  {
    assert (prefix + a)[|prefix|..] == a && (prefix + b)[|prefix|..] == b;
  }

  lemma SuffixCancels(a: string, b: string, suffix: string)
    ensures a + suffix == b + suffix <==> a == b
  {
    if a + suffix == b + suffix {
      assert (a + suffix)[..|a|] == a && (b + suffix)[..|b|] == b;
    }
  }

  /** Two calls that agree in two of tool, action and tenant are counted together exactly if they agree in the
      third as well. */
  lemma KeysAgreeExactly(t: string, t': string, a: string, a': string, x: string, x': string)
    ensures LimitKey(t, a, x) == LimitKey(t, a, x') <==> x == x'
    ensures LimitKey(t, a, x) == LimitKey(t, a', x) <==> a == a'
    ensures LimitKey(t, a, x) == LimitKey(t', a, x) <==> t == t'
  {
    PrefixCancels("tool:" + t + ":" + a + ":", x, x');
    SuffixCancels("tool:" + t + ":" + a, "tool:" + t + ":" + a', ":" + x);
    PrefixCancels("tool:" + t + ":", a, a');
    assert LimitKey(t, a, x) == ("tool:" + t + ":" + a) + (":" + x);
    assert LimitKey(t, a', x) == ("tool:" + t + ":" + a') + (":" + x);
    assert LimitKey(t, a, x) == ("tool:" + t) + (":" + a + ":" + x);
    assert LimitKey(t', a, x) == ("tool:" + t') + (":" + a + ":" + x);
    SuffixCancels("tool:" + t, "tool:" + t', ":" + a + ":" + x);
    PrefixCancels("tool:", t, t');
  }

  predicate EndsIn(text: string, end: string) {
    |end| <= |text| && text[|text| - |end|..] == end
  }

  /** Some calls of the tenants, for whatever tools and actions, are counted together. */
  ghost predicate TenantsShare(x: string, y: string) {
    exists t, a, t', a' :: LimitKey(t, a, x) == LimitKey(t', a', y)
  }

  /** Some calls of the tools, for whatever actions, are counted together for a tenant. */
  ghost predicate ToolsShare(t: string, t': string, tenant: string) {
    exists a, a' :: LimitKey(t, a, tenant) == LimitKey(t', a', tenant)
  }

  lemma SameLengthsSame(t: string, a: string, x: string, t': string, a': string, y: string)
    requires LimitKey(t, a, x) == LimitKey(t', a', y)
    ensures |x| == |y| ==> x == y
    ensures |t| == |t'| ==> t == t'
  {
    var key := LimitKey(t, a, x);
    assert key[|key| - |x|..] == x && key[|key| - |y|..] == y;
    assert key == "tool:" + t + (":" + a + ":" + x) == "tool:" + t' + (":" + a' + ":" + y);
    assert key[5..][..|t|] == t && key[5..][..|t'|] == t';
  }

  lemma LongerTenantEnds(t: string, a: string, x: string, t': string, a': string, y: string)
    requires LimitKey(t, a, x) == LimitKey(t', a', y) && |x| < |y|
    ensures EndsIn(y, ":" + x)
  {
    var key, n := LimitKey(t, a, x), |y| - |x| - 1;
    assert key == ("tool:" + t + ":" + a) + (":" + x);
    assert key[|key| - |y|..] == y;
    assert key[|key| - |x| - 1..] == ":" + x;
    assert y[n..] == key[|key| - |y|..][n..] == key[|key| - |x| - 1..];
  }

  lemma EndSharesKey(x: string, y: string)
    requires EndsIn(y, ":" + x)
    ensures TenantsShare(x, y) && TenantsShare(y, x)
  {
    var start := y[..|y| - |x| - 1];
    assert y == start + ":" + x;
    assert LimitKey("", ":" + start, x) == LimitKey("", "", y);
  }

  /** Tenants are never counted together, whatever tools and actions they call, exactly if they differ and
      neither is the end of the other, set off by a colon. */
  lemma TenantsShareExactly(x: string, y: string)
    ensures TenantsShare(x, y) <==> x == y || EndsIn(y, ":" + x) || EndsIn(x, ":" + y)
  {
    if x == y {
      assert LimitKey("", "", x) == LimitKey("", "", y);
    } else if EndsIn(y, ":" + x) {
      EndSharesKey(x, y);
    } else if EndsIn(x, ":" + y) {
      EndSharesKey(y, x);
    } else {
      forall t, a, t', a' ensures LimitKey(t, a, x) != LimitKey(t', a', y) {
        if LimitKey(t, a, x) == LimitKey(t', a', y) {
          if |x| < |y| {
            LongerTenantEnds(t, a, x, t', a', y);
          } else if |y| < |x| {
            LongerTenantEnds(t', a', y, t, a, x);
          } else {
            SameLengthsSame(t, a, x, t', a', y);
          }
        }
      }
    }
  }

  /** Identifiers without colons, such as UUIDs, are counted apart. */
  lemma PlainTenantsApart(x: string, y: string)
    requires ':' !in x && ':' !in y
    ensures TenantsShare(x, y) <==> x == y
  {
    TenantsShareExactly(x, y);
    assert forall z: string :: (":" + z)[0] == ':';
  }

  lemma LongerToolStarts(t: string, a: string, t': string, a': string, tenant: string)
    requires LimitKey(t, a, tenant) == LimitKey(t', a', tenant) && |t| < |t'|
    ensures t + ":" <= t'
  {
    var key, n := LimitKey(t, a, tenant), |t| + 1;
    assert key == "tool:" + (t + ":") + (a + ":" + tenant) == "tool:" + t' + (":" + a' + ":" + tenant);
    assert key[5..][..n] == t + ":";
    assert key[5..][..|t'|] == t';
  }

  lemma StartSharesKey(t: string, t': string, tenant: string)
    requires t + ":" <= t'
    ensures ToolsShare(t, t', tenant) && ToolsShare(t', t, tenant)
  {
    var rest := t'[|t| + 1..];
    assert t' == t + ":" + rest;
    assert LimitKey(t, rest + ":", tenant) == LimitKey(t', "", tenant);
  }

  /** Two tools are never counted together, whatever their actions, exactly if they differ and neither name is
      the other followed by a colon and anything. */
  lemma ToolsShareExactly(t: string, t': string, tenant: string)
    ensures ToolsShare(t, t', tenant) <==> t == t' || t + ":" <= t' || t' + ":" <= t
  {
    if t == t' {
      assert LimitKey(t, "", tenant) == LimitKey(t', "", tenant);
    } else if t + ":" <= t' {
      StartSharesKey(t, t', tenant);
    } else if t' + ":" <= t {
      StartSharesKey(t', t, tenant);
    } else {
      forall a, a' ensures LimitKey(t, a, tenant) != LimitKey(t', a', tenant) {
        if LimitKey(t, a, tenant) == LimitKey(t', a', tenant) {
          if |t| < |t'| {
            LongerToolStarts(t, a, t', a', tenant);
          } else if |t'| < |t| {
            LongerToolStarts(t', a', t, a, tenant);
          } else {
            SameLengthsSame(t, a, tenant, t', a', tenant);
          }
        }
      }
    }
  }

  lemma OtherHitIgnored(log: seq<Hit>, h: Hit, key: string, T: Ticks, now: nat)
    requires h.key != key
    ensures Estimate(Replay(log + [h]), key, T, now) == Estimate(Replay(log), key, T, now)
  {
    assert (log + [h])[..|log|] == log;
  }

  lemma {:induction false} OtherCallsIgnored(log: seq<Hit>, calls: seq<Call>, k: nat, key: string, T: Ticks, now: nat)
    requires k <= |calls| && forall i :: 0 <= i < k ==> calls[i].key != key
    ensures Estimate(Replay(LogFrom(log, calls, k)), key, T, now) == Estimate(Replay(log), key, T, now)
  {
    if 0 < k {
      OtherCallsIgnored(log, calls, k - 1, key, T, now);
      var before, call := LogFrom(log, calls, k - 1), calls[k - 1];
      if LogAfterCall(before, call) != before {
        OtherHitIgnored(before, Hit(call.key, LimitTicks(call.decision.value.rateLimit.value), call.finishedAt),
                        key, T, now);
      }
    }
  }

  /** What is asked is never counted together with `other`: it names the same tool and action for another
      tenant, or comes from a tenant that shares no key with that of `other`. */
  ghost predicate Apart(a: Asked, other: Asked) {
    || (a.toolName == other.toolName && a.req.action == other.req.action && a.tenant != other.tenant)
    || !TenantsShare(a.tenant, other.tenant)
  }

  function CallsOf(asked: seq<Asked>): seq<Call> {
    seq(|asked|, i requires 0 <= i < |asked| => CallOf(asked[i]))
  }

  /** Tenants do not use up each other's limits: whatever one tenant's calls come to, from any log on, they
      leave what another's check reads, at any time, and so whether it is turned away, as it was. */
  lemma TenantsAreIsolated(log: seq<Hit>, asked: seq<Asked>, other: Asked, T: Ticks, now: nat)
    requires forall a :: a in asked ==> Apart(a, other)
    ensures var log', call := LogFrom(log, CallsOf(asked), |asked|), CallOf(other);
      && Estimate(Replay(log'), call.key, T, now) == Estimate(Replay(log), call.key, T, now)
      && (OverLimit(log', call) <==> OverLimit(log, call))
  {
    var calls, call := CallsOf(asked), CallOf(other);
    forall i | 0 <= i < |calls| ensures calls[i].key != call.key {
      var a := asked[i];
      assert a in asked;
      KeysAgreeExactly(a.toolName, a.toolName, a.req.action, a.req.action, a.tenant, other.tenant);
    }
    OtherCallsIgnored(log, calls, |calls|, call.key, T, now);
    if HasLimit(call) {
      OtherCallsIgnored(log, calls, |calls|, call.key, LimitTicks(call.decision.value.rateLimit.value), call.checkedAt);
    }
  }

  // ------------------------------------------------------------------ calls one after the other

  /** The log after the first `k` calls. */
  function LogFrom(log: seq<Hit>, calls: seq<Call>, k: nat): seq<Hit>
    requires k <= |calls|
  {
    if k == 0 then log else LogAfterCall(LogFrom(log, calls, k - 1), calls[k - 1])
  }

  function LogAfter(calls: seq<Call>, k: nat): seq<Hit>
    requires k <= |calls|
  {
    LogFrom([], calls, k)
  }

  function TimeAfter(calls: seq<Call>, k: nat): nat
    requires k <= |calls|
  {
    if k == 0 then 0 else calls[k - 1].finishedAt
  }

  /** Each call starts when the one before it has ended. */
  ghost predicate OneAtATime(calls: seq<Call>) {
    && (forall k :: 0 <= k < |calls| ==> calls[k].checkedAt <= calls[k].finishedAt)
    && (forall k :: 0 <= k < |calls| ==> TimeAfter(calls, k) <= calls[k].checkedAt)
  }

  /** Calls under the key all have the same limit. */
  ghost predicate SteadyLimit(c: Protocol.Config, calls: seq<Call>) {
    forall k :: 0 <= k < |calls| && calls[k].key == c.key && HasLimit(calls[k]) ==>
      var limit := calls[k].decision.value.rateLimit.value;
      limit.limit == c.limit && LimitTicks(limit) == c.T
  }

  /** A call under the watched key is a check by a worker, then an abandoned or a finished call. */
  lemma WatchedCallIsSteps(c: Protocol.Config, s: Protocol.State, call: Call, w: nat)
    requires Protocol.Reachable(c, s) && s.inflight == {} && w in c.workers
    requires s.now == call.checkedAt <= call.finishedAt && call.key == c.key
    requires HasLimit(call)
    requires var limit := call.decision.value.rateLimit.value;
      limit.limit == c.limit && LimitTicks(limit) == c.T
    ensures Protocol.Reachable(c, Protocol.State(LogAfterCall(s.log, call), call.finishedAt, {}))
  {
    Protocol.Extend(c, s, Protocol.Check(w));
    var s1 := Protocol.Apply(c, s, Protocol.Check(w));
    Protocol.Extend(c, s1, Protocol.Tick(call.finishedAt));
    var s2 := Protocol.Apply(c, s1, Protocol.Tick(call.finishedAt));
    if OverLimit(s.log, call) {
      assert s2 == Protocol.State(s.log, call.finishedAt, {});
    } else {
      var e := if Completes(s.log, call) then Protocol.Finish(w) else Protocol.Abandon(w);
      Protocol.Extend(c, s2, e);
      assert s2.inflight - {w} == {};
    }
  }

  /** A call under another key, or without a rate limit, is a foreign increment or nothing at all. */
  lemma OtherCallIsSteps(c: Protocol.Config, s: Protocol.State, call: Call)
    requires Protocol.Reachable(c, s) && s.inflight == {}
    requires s.now == call.checkedAt <= call.finishedAt
    requires call.key != c.key || !HasLimit(call)
    ensures Protocol.Reachable(c, Protocol.State(LogAfterCall(s.log, call), call.finishedAt, {}))
  {
    Protocol.Extend(c, s, Protocol.Tick(call.finishedAt));
    var s1 := Protocol.Apply(c, s, Protocol.Tick(call.finishedAt));
    if LogAfterCall(s.log, call) == s.log {
      assert s1 == Protocol.State(LogAfterCall(s.log, call), call.finishedAt, {});
    } else {
      var e := Protocol.Foreign(call.key, LimitTicks(call.decision.value.rateLimit.value));
      Protocol.Extend(c, s1, e);
      assert Protocol.Apply(c, s1, e) == Protocol.State(LogAfterCall(s.log, call), call.finishedAt, {});
    }
  }

  /** Calls of the service made one at a time are a run of the protocol with a single worker. */
  lemma {:induction false} ServiceRefinesProtocol(c: Protocol.Config, calls: seq<Call>, k: nat, w: nat)
    requires k <= |calls| && c.workers == {w} && OneAtATime(calls) && SteadyLimit(c, calls)
    ensures Protocol.Reachable(c, Protocol.State(LogAfter(calls, k), TimeAfter(calls, k), {}))
  {
    if k == 0 {
      assert Protocol.Run(c, []) == Some(Protocol.INITIAL);
    } else {
      var call := calls[k - 1];
      ServiceRefinesProtocol(c, calls, k - 1, w);
      var s := Protocol.State(LogAfter(calls, k - 1), TimeAfter(calls, k - 1), {});
      Protocol.Extend(c, s, Protocol.Tick(call.checkedAt));
      var s1 := Protocol.Apply(c, s, Protocol.Tick(call.checkedAt));
      if call.key == c.key && HasLimit(call) {
        WatchedCallIsSteps(c, s1, call, w);
      } else {
        OtherCallIsSteps(c, s1, call);
      }
    }
  }

  lemma LaterIsReachable(c: Protocol.Config, calls: seq<Call>, k: nat, w: nat, now: nat)
    requires k <= |calls| && c.workers == {w} && OneAtATime(calls) && SteadyLimit(c, calls)
    requires TimeAfter(calls, k) <= now
    ensures Protocol.Reachable(c, Protocol.State(LogAfter(calls, k), now, {}))
  {
    ServiceRefinesProtocol(c, calls, k, w);
    Protocol.Extend(c, Protocol.State(LogAfter(calls, k), TimeAfter(calls, k), {}), Protocol.Tick(now));
  }

  /** So at any later moment, with `p` completed executions in the window before and at offset `x`, the
      last `T` ticks hold at most limit + ceil(p*x/T) of them, and at most twice the limit. */
  lemma ServiceIsSafe(c: Protocol.Config, calls: seq<Call>, k: nat, w: nat, now: nat)
    requires k <= |calls| && c.workers == {w} && OneAtATime(calls) && SteadyLimit(c, calls)
    requires TimeAfter(calls, k) <= now
    ensures SlidesWithin(LogAfter(calls, k), c.key, c.T, now, c.limit)
  {
    LaterIsReachable(c, calls, k, w, now);
    Protocol.SingleWorkerSafety(c, Protocol.State(LogAfter(calls, k), now, {}), w);
  }

  // ------------------------------------------------------------------ overlapping calls

  /** A call enters with its check, at `checkedAt`, and leaves when it is done, at `finishedAt`; others may
      enter and leave in between. */
  datatype Move = Enter(id: nat, call: Call) | Leave(id: nat)

  /** The shared log, the clock, and the calls that passed their check and have not left. */
  datatype Live = Live(log: seq<Hit>, now: nat, open: map<nat, Call>)

  const NOBODY := Live([], 0, map[])

  predicate CanMove(s: Live, m: Move) {
    match m
    case Enter(id, call) => id !in s.open && s.now <= call.checkedAt
    case Leave(id) => id in s.open && s.now <= s.open[id].finishedAt
  }

  /** What a call that passed its check adds to the log when it leaves. */
  function LogOnLeaving(log: seq<Hit>, call: Call): seq<Hit>
    requires call.decision.Some?
  {
    if HasLimit(call) && !call.decision.value.requiresApproval && !call.handlerRaises
    then log + [Hit(call.key, LimitTicks(call.decision.value.rateLimit.value), call.finishedAt)]
    else log
  }

  function MoveOn(s: Live, m: Move): Live {
    match m
    case Enter(id, call) =>
      if call.decision.None? || OverLimit(s.log, call) then s.(now := call.checkedAt)
      else Live(s.log, call.checkedAt, s.open[id := call])
    case Leave(id) =>
      if id in s.open && s.open[id].decision.Some?
      then Live(LogOnLeaving(s.log, s.open[id]), s.open[id].finishedAt, s.open - {id})
      else s
  }

  /** Entering and leaving at once is what one undisturbed call does. */
  lemma EnterLeaveIsCall(s: Live, id: nat, call: Call)
    requires CanMove(s, Enter(id, call)) && call.checkedAt <= call.finishedAt
    ensures var entered := MoveOn(s, Enter(id, call));
      && MoveOn(entered, Leave(id)).log == LogAfterCall(s.log, call)
      && MoveOn(entered, Leave(id)).open == s.open
      && (id in entered.open ==> CanMove(entered, Leave(id)))
  {
  }

  function AfterMoves(moves: seq<Move>, k: nat): Live
    requires k <= |moves|
  {
    if k == 0 then NOBODY else MoveOn(AfterMoves(moves, k - 1), moves[k - 1])
  }

  predicate Watched(c: Protocol.Config, call: Call) {
    call.key == c.key && HasLimit(call)
  }

  /** The calls in flight that count under the watched key. */
  function InFlight(c: Protocol.Config, open: map<nat, Call>): set<nat> {
    set id | id in open && Watched(c, open[id])
  }

  ghost predicate Steady(c: Protocol.Config, call: Call) {
    Watched(c, call) ==>
      var limit := call.decision.value.rateLimit.value;
      limit.limit == c.limit && LimitTicks(limit) == c.T
  }

  /** The move can be made, does not bring more calls in flight than there are workers, and checks under
      the watched key against its one limit. */
  ghost predicate Allowed(c: Protocol.Config, s: Live, m: Move) {
    && CanMove(s, m)
    && (m.Enter? ==> Steady(c, m.call))
    && |InFlight(c, MoveOn(s, m).open)| <= |c.workers|
  }

  /** The first `k` moves are allowed one after the other. */
  ghost predicate Possible(c: Protocol.Config, moves: seq<Move>, k: nat)
    requires k <= |moves|
  {
    k == 0 || (Possible(c, moves, k - 1) && Allowed(c, AfterMoves(moves, k - 1), moves[k - 1]))
  }

  /** Live calls as a state of the protocol: as many workers are busy as watched calls are in flight. */
  ghost predicate Simulates(c: Protocol.Config, s: Live, busy: set<nat>) {
    && busy <= c.workers && |busy| == |InFlight(c, s.open)|
    && (forall id :: id in s.open ==> s.open[id].decision.Some? && Steady(c, s.open[id]))
    && Protocol.Reachable(c, Protocol.State(s.log, s.now, busy))
  }

  lemma FreeWorker(c: Protocol.Config, busy: set<nat>) returns (w: nat)
    requires busy <= c.workers && |busy| < |c.workers|
    ensures w in c.workers && w !in busy
  {
    var free := c.workers - busy;
    assert c.workers == busy + free;
    w :| w in free;
  }

  lemma ClockMoves(c: Protocol.Config, s: Live, busy: set<nat>, now: nat)
    requires Simulates(c, s, busy) && s.now <= now
    ensures Simulates(c, s.(now := now), busy)
  {
    Protocol.Extend(c, Protocol.State(s.log, s.now, busy), Protocol.Tick(now));
  }

  lemma CheckPasses(c: Protocol.Config, s: Protocol.State, call: Call, w: nat)
    requires Protocol.Reachable(c, s) && w in c.workers && w !in s.inflight
    requires Watched(c, call) && Steady(c, call) && s.now == call.checkedAt && !OverLimit(s.log, call)
    ensures Protocol.Reachable(c, Protocol.State(s.log, s.now, s.inflight + {w}))
  {
    Protocol.Extend(c, s, Protocol.Check(w));
  }

  lemma OneMoreInFlight(c: Protocol.Config, open: map<nat, Call>, id: nat, call: Call)
    requires id !in open && Watched(c, call)
    ensures |InFlight(c, open[id := call])| == |InFlight(c, open)| + 1
  {
    assert InFlight(c, open[id := call]) == InFlight(c, open) + {id};
  }

  lemma WatchedEnters(c: Protocol.Config, s: Live, id: nat, call: Call, busy: set<nat>) returns (busy': set<nat>)
    requires Simulates(c, s, busy) && id !in s.open && s.now == call.checkedAt
    requires Watched(c, call) && Steady(c, call) && !OverLimit(s.log, call)
    requires |InFlight(c, s.open[id := call])| <= |c.workers|
    ensures Simulates(c, s.(open := s.open[id := call]), busy')
  {
    OneMoreInFlight(c, s.open, id, call);
    var w := FreeWorker(c, busy);
    CheckPasses(c, Protocol.State(s.log, s.now, busy), call, w);
    busy' := busy + {w};
  }

  lemma UnwatchedEnters(c: Protocol.Config, s: Live, id: nat, call: Call, busy: set<nat>)
    requires Simulates(c, s, busy) && id !in s.open && call.decision.Some? && !Watched(c, call)
    ensures Simulates(c, s.(open := s.open[id := call]), busy)
  {
    assert InFlight(c, s.open[id := call]) == InFlight(c, s.open);
  }

  lemma EnterIsSteps(c: Protocol.Config, s: Live, id: nat, call: Call, busy: set<nat>) returns (busy': set<nat>)
    requires Simulates(c, s, busy) && id !in s.open && s.now == call.checkedAt && Steady(c, call)
    requires |InFlight(c, MoveOn(s, Enter(id, call)).open)| <= |c.workers|
    ensures Simulates(c, MoveOn(s, Enter(id, call)), busy')
  {
    busy' := busy;
    if call.decision.Some? && !OverLimit(s.log, call) {
      if Watched(c, call) {
        busy' := WatchedEnters(c, s, id, call, busy);
      } else {
        UnwatchedEnters(c, s, id, call, busy);
      }
    }
  }

  lemma LeaveIsSteps(c: Protocol.Config, s: Live, id: nat, busy: set<nat>) returns (busy': set<nat>)
    requires Simulates(c, s, busy) && id in s.open && s.now == s.open[id].finishedAt
    ensures Simulates(c, MoveOn(s, Leave(id)), busy')
  {
    var s', call := MoveOn(s, Leave(id)), s.open[id];
    var state := Protocol.State(s.log, s.now, busy);
    busy' := busy;
    if Watched(c, call) {
      assert InFlight(c, s'.open) == InFlight(c, s.open) - {id};
      assert id in InFlight(c, s.open) && busy != {};
      var w :| w in busy;
      busy' := busy - {w};
      Protocol.Extend(c, state, if s'.log == s.log then Protocol.Abandon(w) else Protocol.Finish(w));
    } else {
      assert InFlight(c, s'.open) == InFlight(c, s.open);
      if s'.log != s.log {
        Protocol.Extend(c, state, Protocol.Foreign(call.key, LimitTicks(call.decision.value.rateLimit.value)));
      }
    }
  }

  lemma MoveIsSteps(c: Protocol.Config, s: Live, m: Move, busy: set<nat>) returns (busy': set<nat>)
    requires Simulates(c, s, busy) && Allowed(c, s, m)
    ensures Simulates(c, MoveOn(s, m), busy')
  {
    match m
    case Enter(id, call) =>
      ClockMoves(c, s, busy, call.checkedAt);
      busy' := EnterIsSteps(c, s.(now := call.checkedAt), id, call, busy);
    case Leave(id) =>
      ClockMoves(c, s, busy, s.open[id].finishedAt);
      busy' := LeaveIsSteps(c, s.(now := s.open[id].finishedAt), id, busy);
  }

  lemma NobodySimulates(c: Protocol.Config)
    ensures Simulates(c, NOBODY, {})
  {
    assert Protocol.Run(c, []) == Some(Protocol.INITIAL);
    assert InFlight(c, NOBODY.open) == {};
  }

  /** Calls of the service that overlap in any way are a run of the protocol, with as many workers as
      watched calls are ever in flight. */
  lemma {:induction false} OverlappingCallsRefineProtocol(c: Protocol.Config, moves: seq<Move>, k: nat)
      returns (busy: set<nat>)
    requires k <= |moves| && Possible(c, moves, k)
    ensures Simulates(c, AfterMoves(moves, k), busy)
  {
    if k == 0 {
      busy := {};
      NobodySimulates(c);
    } else {
      busy := OverlappingCallsRefineProtocol(c, moves, k - 1);
      busy := MoveIsSteps(c, AfterMoves(moves, k - 1), moves[k - 1], busy);
    }
  }

  /** So with K watched calls in flight at most, the estimate and the calls in flight are at most
      limit - 1 + K, and any `T` ticks hold at most limit + K - 1 and ceil(p*x/T) executions. */
  lemma OverlappingCallsAreSafe(c: Protocol.Config, moves: seq<Move>, k: nat, now: nat)
    requires k <= |moves| && Possible(c, moves, k) && AfterMoves(moves, k).now <= now
    ensures var s, cap := AfterMoves(moves, k), c.limit - 1 + |c.workers|;
      && LogEstimate(s.log, c.key, c.T, now) + |InFlight(c, s.open)| <= cap
      && SlidesWithin(s.log, c.key, c.T, now, cap)
  {
    var busy := OverlappingCallsRefineProtocol(c, moves, k);
    var s := AfterMoves(moves, k);
    ClockMoves(c, s, busy, now);
    Protocol.OvershootBound(c, Protocol.State(s.log, now, busy));
    Protocol.SlidingWindowSafety(c, Protocol.State(s.log, now, busy));
  }

  // ------------------------------------------------------------------ the service

  class ToolExecutionService {
    const grants: map<(string, string), P.ToolGrant>
    const approvals: ApprovalCoordinator
    const limiter: RedisRateLimiter

    constructor (grants: map<(string, string), P.ToolGrant>, approvals: ApprovalCoordinator, limiter: RedisRateLimiter)
      ensures this.grants == grants && this.approvals == approvals && this.limiter == limiter
    {
      this.grants, this.approvals, this.limiter := grants, approvals, limiter;
    }

    function DecisionFor(agentVersion: string, toolName: string, req: P.Request): Option<P.Decision>
      reads grants.Values
    {
      if (agentVersion, toolName) in grants then Some(grants[(agentVersion, toolName)].Evaluate(req)) else None
    }

    method ExecuteTool(run: R.Run, runId: string, tenant: string, agentVersion: string, toolName: string,
                       req: P.Request, inputData: string, handlerRaises: bool, checkedAt: nat, finishedAt: nat)
        returns (result: Result)
      requires limiter.Valid() && run.Valid()
      modifies limiter, approvals, run
      ensures limiter.Valid() && run.Valid()
      ensures var call := CallOf(Asked(runId, tenant, toolName, req, inputData,
                                       old(DecisionFor(agentVersion, toolName, req)),
                                       handlerRaises, checkedAt, finishedAt));
        && limiter.log == LogAfterCall(old(limiter.log), call)
        && approvals.requests == RequestsAfterCall(old(limiter.log), old(approvals.requests), call, approvals.spaces)
        && run.Data() == RunAfterCall(old(limiter.log), old(run.Data()), call, approvals.spaces).run
        && result == ResultOf(old(limiter.log), old(run.Data()), call, approvals.spaces)
    {
      if (agentVersion, toolName) !in grants {
        return NoGrant;
      }
      var decision := grants[(agentVersion, toolName)].Evaluate(req);
      var key := LimitKey(toolName, req.action, tenant);
      if decision.rateLimit.Some? {
        var limit := decision.rateLimit.value;
        var allowed := limiter.CheckLimit(key, limit.limit, ScopeName(limit.scope), checkedAt);
        if !allowed {
          return RateLimited(limit);
        }
      }
      if decision.requiresApproval {
        result := AskApprover(run, RequestOf(runId, toolName, req, inputData, decision.reason));
        return;
      }
      if handlerRaises {
        return HandlerRaised;
      }
      if decision.rateLimit.Some? {
        var weighted := limiter.Increment(key, ScopeName(decision.rateLimit.value.scope), finishedAt);
      }
      return Executed;
    }

    /** Stores the request first, then moves the run, which may raise; then raises when building its result. */
    method AskApprover(run: R.Run, request: ApprovalRequest) returns (result: Result)
      requires run.Valid()
      modifies approvals, run
      ensures run.Valid()
      ensures Rejected(request, approvals.spaces) ==>
        && result == RequestRejected
        && approvals.requests == old(approvals.requests) && run.Data() == old(run.Data())
      ensures !Rejected(request, approvals.spaces) ==>
        var moved := R.Do(old(run.Data()), R.RequestApproval);
        && approvals.requests == old(approvals.requests) + [request] && run.Data() == moved.run
        && result == if moved.error.Some? then ApprovalFailed(moved.error.value) else ResultNotBuilt
    {
      var stored := approvals.RequestApproval(request);
      if !stored {
        return RequestRejected;
      }
      var error := run.AskApproval();
      return if error.Some? then ApprovalFailed(error.value) else ResultNotBuilt;
    }
  }
}
