/**
 Tool policies: prioritized rules, the decision they lead to, and the translation of legacy policies.

 Which globs match which resources, and what an expression evaluates to in the context of a request,
 is part of the request; an expression without a verdict is one whose evaluation raises.
*/
module Policy {
  import opened Wrappers

  datatype RuleType = ALLOW | DENY | REQUIRE_APPROVAL | RATE_LIMIT | CONDITIONAL

  datatype Condition = Condition(action: Option<string>, resource: Option<string>, expression: Option<string>)

  datatype Effect = Effect(
    allow: bool,
    requiresApproval: bool,
    maxCallsPerMinute: Option<int>,
    maxCallsPerHour: Option<int>,
    maxCallsPerDay: Option<int>)

  datatype Rule = Rule(ruleType: RuleType, condition: Condition, effect: Effect, priority: int)

  datatype ToolPolicy = ToolPolicy(toolName: string, rules: seq<Rule>, defaultEffect: Effect)

  datatype Request = Request(
    action: string,
    resource: Option<string>,
    globs: set<(string, string)>,
    verdicts: map<string, bool>)

  datatype Scope = MINUTE | HOUR | DAY

  datatype RateLimit = RateLimit(limit: int, remaining: int, scope: Scope)

  datatype Reason = NeedsApproval | Denies | Allows | InactiveGrant

  datatype Decision = Decision(
    allowed: bool,
    requiresApproval: bool,
    reason: Reason,
    matchedRule: Option<Rule>,
    rateLimit: Option<RateLimit>)

  predicate Given(text: Option<string>) {
    text.Some? && text.value != ""
  }

  predicate NonZero(n: Option<int>) {
    n.Some? && n.value != 0
  }

  /** Parts of a condition that are absent or empty do not restrict anything. */
  predicate Matches(c: Condition, req: Request) {
    && (Given(c.action) ==> c.action.value == req.action)
    && (Given(c.resource) && Given(req.resource) ==> (c.resource.value, req.resource.value) in req.globs)
    && (Given(c.expression) ==> c.expression.value in req.verdicts && req.verdicts[c.expression.value])
  }

  /** One part of a condition restricts nothing, or the same as in the other condition. */
  predicate PartNoStricter(part: Option<string>, other: Option<string>) {
    !Given(part) || part == other
  }

  /** A request that satisfies a condition: everything the condition asks for, and nothing else. */
  function Satisfying(c: Condition, resource: Option<string>): Request {
    Request(
      if Given(c.action) then c.action.value else "",
      resource,
      if Given(c.resource) && Given(resource) then {(c.resource.value, resource.value)} else {},
      if Given(c.expression) then map[c.expression.value := true] else map[])
  }

  /** A condition matches every request that another one matches exactly when each of its parts is absent,
      empty, or the same as the other's: there is no other way for rules to shadow each other. */
  lemma SubsumesExactly(c: Condition, other: Condition)
    ensures (forall req :: Matches(other, req) ==> Matches(c, req)) <==>
      && PartNoStricter(c.action, other.action)
      && PartNoStricter(c.resource, other.resource)
      && PartNoStricter(c.expression, other.expression)
  {
    var bare, named := Satisfying(other, None), Satisfying(other, Some("r"));
    assert Matches(other, bare) && Matches(other, named);
    if !PartNoStricter(c.action, other.action) {
      assert !Matches(c, bare);
    } else if !PartNoStricter(c.expression, other.expression) {
      assert !Matches(c, bare);
    } else if !PartNoStricter(c.resource, other.resource) {
      assert !Matches(c, named);
    }
  }

  function BuildRateLimit(e: Effect): Option<RateLimit> {
    if NonZero(e.maxCallsPerMinute) then Some(RateLimit(e.maxCallsPerMinute.value, e.maxCallsPerMinute.value, MINUTE))
    else if NonZero(e.maxCallsPerHour) then Some(RateLimit(e.maxCallsPerHour.value, e.maxCallsPerHour.value, HOUR))
    else if NonZero(e.maxCallsPerDay) then Some(RateLimit(e.maxCallsPerDay.value, e.maxCallsPerDay.value, DAY))
    else None
  }

  function ApplyEffect(e: Effect, rule: Option<Rule>): Decision {
    if e.requiresApproval then Decision(false, true, NeedsApproval, rule, BuildRateLimit(e))
    else if !e.allow then Decision(false, false, Denies, rule, None)
    else Decision(true, false, Allows, rule, BuildRateLimit(e))
  }

  function ScopeSeconds(scope: Scope): nat {
    match scope
    case MINUTE => 60
    case HOUR => 3600
    case DAY => 86400
  }

  function MaxCalls(e: Effect, scope: Scope): Option<int> {
    match scope
    case MINUTE => e.maxCallsPerMinute
    case HOUR => e.maxCallsPerHour
    case DAY => e.maxCallsPerDay
  }

  /** Needing approval overrules allowing and denying.  Only an outright denial drops the rate limit,
      which is that of the shortest scope that has one; a maximum of zero is none. */
  lemma EffectMeaning(e: Effect, rule: Option<Rule>)
    ensures var d := ApplyEffect(e, rule);
      && (d.allowed <==> e.allow && !e.requiresApproval)
      && (d.requiresApproval <==> e.requiresApproval)
      && d.matchedRule == rule
      && (d.reason == NeedsApproval <==> e.requiresApproval)
      && (d.reason == Denies <==> !e.requiresApproval && !e.allow)
      && (d.reason == Allows <==> d.allowed)
      && (d.rateLimit.Some? <==> (e.allow || e.requiresApproval) && exists scope :: NonZero(MaxCalls(e, scope)))
      && (d.rateLimit.Some? ==>
            var RateLimit(limit, remaining, scope) := d.rateLimit.value;
            && NonZero(MaxCalls(e, scope)) && limit == remaining == MaxCalls(e, scope).value
            && forall s :: NonZero(MaxCalls(e, s)) ==> ScopeSeconds(scope) <= ScopeSeconds(s))
  {
    assert MaxCalls(e, MINUTE) == e.maxCallsPerMinute;
    assert MaxCalls(e, HOUR) == e.maxCallsPerHour;
    assert MaxCalls(e, DAY) == e.maxCallsPerDay;
  }

  // ------------------------------------------------------------------ sorting by priority

  /** Rule `i` comes before rule `j`: higher priority, or the same and listed earlier. */
  predicate Before(rules: seq<Rule>, i: nat, j: nat)
    requires i < |rules| && j < |rules|
  {
    rules[j].priority < rules[i].priority || (rules[i].priority == rules[j].priority && i < j)
  }

  ghost predicate Ordered(rules: seq<Rule>, order: seq<nat>) {
    && (forall k :: 0 <= k < |order| ==> order[k] < |rules|)
    && (forall a, b :: 0 <= a < b < |order| ==> Before(rules, order[a], order[b]))
  }

  /** The first `n` rules, named by their indices, in a stable order of descending priority. */
  ghost predicate StableOrder(rules: seq<Rule>, order: seq<nat>, n: nat)
    requires n <= |rules|
  {
    && Ordered(rules, order)
    && forall i: nat :: i in order <==> i < n
  }

  /** Puts rule `i` behind everything of at least its priority. */
  function Insert(rules: seq<Rule>, order: seq<nat>, i: nat): (r: seq<nat>)
    requires i < |rules| && forall j :: j in order ==> j < i
    ensures forall j :: j in r <==> j == i || j in order
  {
    if |order| == 0 then [i]
    else
      var last, rest := order[|order| - 1], order[..|order| - 1];
      assert order == rest + [last] && last in order && forall j :: j in rest ==> j in order;
      if rules[i].priority <= rules[last].priority then order + [i]
      else Insert(rules, rest, i) + [last]
  }

  /** sorted(rules, key=-priority), as indices. */
  function SortedRules(rules: seq<Rule>, n: nat): (order: seq<nat>)
    requires n <= |rules|
    ensures forall i: nat :: i in order <==> i < n
  {
    if n == 0 then [] else Insert(rules, SortedRules(rules, n - 1), n - 1)
  }

  lemma Append(rules: seq<Rule>, order: seq<nat>, i: nat)
    requires Ordered(rules, order) && i < |rules|
    requires forall j :: j in order ==> j < |rules| && Before(rules, j, i)
    ensures Ordered(rules, order + [i])
  {
    forall a | 0 <= a < |order| ensures Before(rules, order[a], i) {
      assert order[a] in order;
    }
  }

  lemma AllBeforeLast(rules: seq<Rule>, rest: seq<nat>, last: nat)
    requires Ordered(rules, rest + [last])
    ensures Ordered(rules, rest) && last < |rules|
    ensures forall j :: j in rest ==> j < |rules| && Before(rules, j, last)
  {
    var order := rest + [last];
    assert order[|rest|] == last;
    assert forall k :: 0 <= k < |rest| ==> order[k] == rest[k];
    forall j | j in rest ensures j < |rules| && Before(rules, j, last) {
      var k :| 0 <= k < |rest| && rest[k] == j;
      assert Before(rules, order[k], order[|rest|]);
    }
  }

  lemma {:induction false} InsertKeepsOrder(rules: seq<Rule>, order: seq<nat>, i: nat)
    requires i < |rules| && (forall j :: j in order ==> j < i) && Ordered(rules, order)
    ensures Ordered(rules, Insert(rules, order, i))
  {
    if 0 < |order| {
      var last, rest := order[|order| - 1], order[..|order| - 1];
      assert order == rest + [last] && forall j :: j in rest ==> j in order;
      AllBeforeLast(rules, rest, last);
      if rules[last].priority < rules[i].priority {
        InsertKeepsOrder(rules, rest, i);
        Append(rules, Insert(rules, rest, i), last);
      } else {
        Append(rules, order, i);
      }
    }
  }

  lemma {:induction false} SortIsStable(rules: seq<Rule>, n: nat)
    requires n <= |rules|
    ensures StableOrder(rules, SortedRules(rules, n), n)
  {
    if 0 < n {
      SortIsStable(rules, n - 1);
      InsertKeepsOrder(rules, SortedRules(rules, n - 1), n - 1);
    }
  }

  // ------------------------------------------------------------------ evaluation

  /** The first rule from position `k` of the order on that matches. */
  function FirstMatch(rules: seq<Rule>, order: seq<nat>, k: nat, req: Request): (first: Option<nat>)
    requires k <= |order| && forall a :: 0 <= a < |order| ==> order[a] < |rules|
    ensures first.Some? ==>
      first.value < |rules|
      && exists a :: k <= a < |order| && order[a] == first.value && Matches(rules[order[a]].condition, req)
           && forall b :: k <= b < a ==> !Matches(rules[order[b]].condition, req)
    ensures first.None? ==> forall a :: k <= a < |order| ==> !Matches(rules[order[a]].condition, req)
    decreases |order| - k
  {
    if k == |order| then None
    else if Matches(rules[order[k]].condition, req) then Some(order[k])
    else FirstMatch(rules, order, k + 1, req)
  }

  function EvaluateInOrder(policy: ToolPolicy, order: seq<nat>, req: Request): Decision
    requires forall a :: 0 <= a < |order| ==> order[a] < |policy.rules|
  {
    match FirstMatch(policy.rules, order, 0, req)
    case Some(i) => ApplyEffect(policy.rules[i].effect, Some(policy.rules[i]))
    case None => ApplyEffect(policy.defaultEffect, None)
  }

  function EvaluatePolicy(policy: ToolPolicy, req: Request): Decision {
    var order := SortedRules(policy.rules, |policy.rules|);
    assert forall a :: 0 <= a < |order| ==> order[a] in order;
    EvaluateInOrder(policy, order, req)
  }

  /** Rule `i` matches, and comes before every other rule that does. */
  predicate Best(rules: seq<Rule>, req: Request, i: nat) {
    && i < |rules| && Matches(rules[i].condition, req)
    && forall j :: 0 <= j < |rules| && j != i && Matches(rules[j].condition, req) ==> Before(rules, i, j)
  }

  ghost predicate NoneMatches(rules: seq<Rule>, req: Request) {
    forall j :: 0 <= j < |rules| ==> !Matches(rules[j].condition, req)
  }

  /** Whatever stable sort is used, the decision is that of the matching rule with the greatest
      priority and, among those, the least index; without a matching rule it is the default. */
  lemma AnyStableSortFindsBest(policy: ToolPolicy, order: seq<nat>, req: Request)
    requires StableOrder(policy.rules, order, |policy.rules|)
    ensures NoneMatches(policy.rules, req) ==>
      EvaluateInOrder(policy, order, req) == ApplyEffect(policy.defaultEffect, None)
    ensures forall i: nat :: Best(policy.rules, req, i) ==>
      EvaluateInOrder(policy, order, req) == ApplyEffect(policy.rules[i].effect, Some(policy.rules[i]))
    ensures NoneMatches(policy.rules, req) || exists i: nat :: Best(policy.rules, req, i)
  {
    var rules := policy.rules;
    var first := FirstMatch(rules, order, 0, req);
    match first
    case None =>
      forall j | 0 <= j < |rules| ensures !Matches(rules[j].condition, req) {
        assert j in order;
      }
    case Some(i) =>
      var a :| 0 <= a < |order| && order[a] == i && Matches(rules[order[a]].condition, req)
               && forall b :: 0 <= b < a ==> !Matches(rules[order[b]].condition, req);
      forall j | 0 <= j < |rules| && j != i && Matches(rules[j].condition, req) ensures Before(rules, i, j) {
        assert j in order;
        var b :| 0 <= b < |order| && order[b] == j;
        assert a < b;
      }
      assert Best(rules, req, i);
  }

  lemma EvaluateFindsBest(policy: ToolPolicy, req: Request) returns (best: Option<nat>)
    ensures best.None? ==>
      NoneMatches(policy.rules, req) && EvaluatePolicy(policy, req) == ApplyEffect(policy.defaultEffect, None)
    ensures best.Some? ==>
      Best(policy.rules, req, best.value)
      && EvaluatePolicy(policy, req) == ApplyEffect(policy.rules[best.value].effect, Some(policy.rules[best.value]))
  {
    SortIsStable(policy.rules, |policy.rules|);
    AnyStableSortFindsBest(policy, SortedRules(policy.rules, |policy.rules|), req);
    if i: nat :| Best(policy.rules, req, i) {
      best := Some(i);
    } else {
      best := None;
    }
  }

  lemma BestOrDefault(policy: ToolPolicy, req: Request)
    ensures NoneMatches(policy.rules, req) ==>
      EvaluatePolicy(policy, req) == ApplyEffect(policy.defaultEffect, None)
    ensures forall i: nat :: Best(policy.rules, req, i) ==>
      EvaluatePolicy(policy, req) == ApplyEffect(policy.rules[i].effect, Some(policy.rules[i]))
  {
    SortIsStable(policy.rules, |policy.rules|);
    AnyStableSortFindsBest(policy, SortedRules(policy.rules, |policy.rules|), req);
  }

  // ------------------------------------------------------------------ changing the list of rules

  /** The rules with `r` added at position `p`. */
  function Added(rules: seq<Rule>, p: nat, r: Rule): (rules': seq<Rule>)
    requires p <= |rules|
    ensures |rules'| == |rules| + 1 && rules'[p] == r
    ensures forall i :: 0 <= i < p ==> rules'[i] == rules[i]
    ensures forall i :: p < i < |rules'| ==> rules'[i] == rules[i - 1]
  {
    rules[..p] + [r] + rules[p..]
  }

  predicate Wins(rules: seq<Rule>, p: nat, r: Rule, req: Request) {
    && Matches(r.condition, req)
    && forall i :: 0 <= i < |rules| && Matches(rules[i].condition, req) ==>
         rules[i].priority < r.priority || (rules[i].priority == r.priority && p <= i)
  }

  lemma WinnerIsBest(rules: seq<Rule>, p: nat, r: Rule, req: Request)
    requires p <= |rules| && Wins(rules, p, r, req)
    ensures Best(Added(rules, p, r), req, p)
  {
    var rules' := Added(rules, p, r);
    forall j | 0 <= j < |rules'| && j != p && Matches(rules'[j].condition, req) ensures Before(rules', p, j) {
      var i := if j < p then j else j - 1;
      assert rules'[j] == rules[i];
    }
  }

  lemma BestStays(rules: seq<Rule>, p: nat, r: Rule, req: Request, b: nat)
    requires p <= |rules| && Best(rules, req, b) && !Wins(rules, p, r, req)
    ensures Best(Added(rules, p, r), req, if b < p then b else b + 1)
  {
    var rules', b' := Added(rules, p, r), if b < p then b else b + 1;
    assert rules'[b'] == rules[b];
    forall j | 0 <= j < |rules'| && j != b' && Matches(rules'[j].condition, req) ensures Before(rules', b', j) {
      if j == p {
        var i :| 0 <= i < |rules| && Matches(rules[i].condition, req)
          && !(rules[i].priority < r.priority || (rules[i].priority == r.priority && p <= i));
        assert i != b ==> Before(rules, b, i);
      } else {
        var i := if j < p then j else j - 1;
        assert rules'[j] == rules[i];
        assert Before(rules, b, i);
      }
    }
  }

  lemma NoneMatchesStays(rules: seq<Rule>, p: nat, r: Rule, req: Request)
    requires p <= |rules| && NoneMatches(rules, req) && !Wins(rules, p, r, req)
    ensures NoneMatches(Added(rules, p, r), req)
  {
  }

  /** A rule added at position `p` decides exactly when it matches and comes before all rules that
      did; otherwise nothing changes. */
  lemma AddingARule(policy: ToolPolicy, p: nat, r: Rule, req: Request)
    requires p <= |policy.rules|
    ensures EvaluatePolicy(policy.(rules := Added(policy.rules, p, r)), req)
         == if Wins(policy.rules, p, r, req) then ApplyEffect(r.effect, Some(r)) else EvaluatePolicy(policy, req)
  {
    var rules, policy' := policy.rules, policy.(rules := Added(policy.rules, p, r));
    if Wins(rules, p, r, req) {
      WinnerIsBest(rules, p, r, req);
      BestOrDefault(policy', req);
    } else {
      var best := EvaluateFindsBest(policy, req);
      if best.Some? {
        BestStays(rules, p, r, req, best.value);
        BestOrDefault(policy', req);
      } else {
        NoneMatchesStays(rules, p, r, req);
        BestOrDefault(policy', req);
      }
    }
  }

  // ------------------------------------------------------------------ rules that cannot apply

  predicate WrongAction(rule: Rule, req: Request) {
    match rule.condition.action
    case Some(action) => action != "" && action != req.action
    case None => false
  }

  predicate WrongResource(rule: Rule, req: Request) {
    match (rule.condition.resource, req.resource)
    case (Some(glob), Some(resource)) => glob != "" && resource != "" && (glob, resource) !in req.globs
    case _ => false
  }

  /** The expression came out false, or its evaluation raised. */
  predicate NotTrue(rule: Rule, req: Request) {
    match rule.condition.expression
    case Some(expression) => expression != "" && (expression in req.verdicts ==> !req.verdicts[expression])
    case None => false
  }

  /** One of three reasons keeps the rule from applying to the request. */
  predicate Excluded(rule: Rule, req: Request) {
    WrongAction(rule, req) || WrongResource(rule, req) || NotTrue(rule, req)
  }

  lemma ExcludedNeverWins(rules: seq<Rule>, p: nat, r: Rule, req: Request)
    requires p <= |rules| && Excluded(r, req)
    ensures !Wins(rules, p, r, req)
  {
  }

  /** The rules without those that are `idle`. */
  function Kept(rules: seq<Rule>, idle: Rule -> bool): seq<Rule> {
    if rules == [] then []
    else
      var last, rest := rules[|rules| - 1], rules[..|rules| - 1];
      if idle(last) then Kept(rest, idle) else Kept(rest, idle) + [last]
  }

  lemma {:induction false} KeptExactly(rules: seq<Rule>, idle: Rule -> bool)
    ensures forall r :: r in Kept(rules, idle) <==> r in rules && !idle(r)
  {
    if rules != [] {
      var last, rest := rules[|rules| - 1], rules[..|rules| - 1];
      KeptExactly(rest, idle);
      assert rules == rest + [last];
    }
  }

  /** Whether a rule at the end wins over all others does not depend on rules that cannot apply. */
  lemma LastWinsOverKept(rules: seq<Rule>, idle: Rule -> bool, r: Rule, req: Request)
    requires forall x :: idle(x) ==> Excluded(x, req)
    ensures Wins(Kept(rules, idle), |Kept(rules, idle)|, r, req) <==> Wins(rules, |rules|, r, req)
  {
    var kept := Kept(rules, idle);
    KeptExactly(rules, idle);
    forall i | 0 <= i < |kept| ensures kept[i] in rules {
      assert kept[i] in kept;
    }
    forall i | 0 <= i < |rules| && Matches(rules[i].condition, req) ensures rules[i] in kept {
      assert rules[i] in rules && !Excluded(rules[i], req);
    }
  }

  /** Deleting rules that cannot apply to a request, for whichever of the three reasons and however many of
      them, never changes the decision on it. */
  lemma {:induction false} DeletingExcluded(policy: ToolPolicy, idle: Rule -> bool, req: Request)
    requires forall r :: idle(r) ==> Excluded(r, req)
    ensures EvaluatePolicy(policy.(rules := Kept(policy.rules, idle)), req) == EvaluatePolicy(policy, req)
    decreases |policy.rules|
  {
    var rules := policy.rules;
    if rules != [] {
      var r, rest := rules[|rules| - 1], rules[..|rules| - 1];
      var before := policy.(rules := rest);
      DeletingExcluded(before, idle, req);
      AddingARule(before, |rest|, r, req);
      assert Added(rest, |rest|, r) == rules;
      var kept := Kept(rest, idle);
      if idle(r) {
        ExcludedNeverWins(rest, |rest|, r, req);
      } else {
        AddingARule(policy.(rules := kept), |kept|, r, req);
        assert Added(kept, |kept|, r) == kept + [r];
        LastWinsOverKept(rest, idle, r, req);
      }
    }
  }

  /** The first of the rules with the greatest priority. */
  ghost predicate FirstOfGreatest(rules: seq<Rule>, i: nat) {
    && i < |rules|
    && forall j :: 0 <= j < |rules| && j != i ==> Before(rules, i, j)
  }

  /** So the decision is that of the first rule of the greatest priority among those that nothing excludes, or
      the default if there are none. */
  lemma DecidedByLiveRules(policy: ToolPolicy, req: Request)
    ensures var live := Kept(policy.rules, r => Excluded(r, req));
      && (live == [] ==> EvaluatePolicy(policy, req) == ApplyEffect(policy.defaultEffect, None))
      && (forall i: nat :: FirstOfGreatest(live, i) ==>
            EvaluatePolicy(policy, req) == ApplyEffect(live[i].effect, Some(live[i])))
      && (live != [] ==> exists i: nat :: FirstOfGreatest(live, i))
  {
    var idle := r => Excluded(r, req);
    var live := Kept(policy.rules, idle);
    var trimmed := policy.(rules := live);
    DeletingExcluded(policy, idle, req);
    KeptExactly(policy.rules, idle);
    forall i | 0 <= i < |live| ensures Matches(live[i].condition, req) {
      assert live[i] in live && !Excluded(live[i], req);
      NothingExcludesAMatch(live[i], req);
    }
    BestOrDefault(trimmed, req);
    forall i: nat | FirstOfGreatest(live, i) ensures Best(live, req, i) {
    }
    var best := EvaluateFindsBest(trimmed, req);
    if best.Some? {
      assert FirstOfGreatest(live, best.value);
    }
  }

  lemma NothingExcludesAMatch(rule: Rule, req: Request)
    ensures Matches(rule.condition, req) <==> !Excluded(rule, req)
  {
  }

  /** Finding an expression true that was not only adds matching rules: those with that expression which nothing
      else excludes. */
  lemma TrueVerdictAdds(rule: Rule, req: Request, x: string)
    requires x in req.verdicts ==> !req.verdicts[x]
    ensures var told := req.(verdicts := req.verdicts[x := true]);
      && (Matches(rule.condition, req) ==> Matches(rule.condition, told))
      && (Matches(rule.condition, told) && !Matches(rule.condition, req) <==>
            x != "" && rule.condition.expression == Some(x) && !WrongAction(rule, req) && !WrongResource(rule, req))
  {
    var told := req.(verdicts := req.verdicts[x := true]);
    NothingExcludesAMatch(rule, req);
    NothingExcludesAMatch(rule, told);
  }

  /** One more glob that matches the resource named by the request only adds matching rules: those with that glob
      which nothing else excludes. */
  lemma MatchingGlobAdds(rule: Rule, req: Request, glob: string)
    requires req.resource.Some? && (glob, req.resource.value) !in req.globs
    ensures var told := req.(globs := req.globs + {(glob, req.resource.value)});
      && (Matches(rule.condition, req) ==> Matches(rule.condition, told))
      && (Matches(rule.condition, told) && !Matches(rule.condition, req) <==>
            glob != "" && req.resource.value != "" && rule.condition.resource == Some(glob)
            && !WrongAction(rule, req) && !NotTrue(rule, req))
  {
    var told := req.(globs := req.globs + {(glob, req.resource.value)});
    NothingExcludesAMatch(rule, req);
    NothingExcludesAMatch(rule, told);
  }

  // ------------------------------------------------------------------ reordering the rules

  ghost predicate SameRules(p: ToolPolicy, q: ToolPolicy) {
    && p.defaultEffect == q.defaultEffect
    && multiset(p.rules) == multiset(q.rules)
  }

  predicate Top(rules: seq<Rule>, req: Request, i: nat) {
    && i < |rules| && Matches(rules[i].condition, req)
    && forall j :: 0 <= j < |rules| && Matches(rules[j].condition, req) ==> rules[j].priority <= rules[i].priority
  }

  /** All matching rules of the greatest matching priority are the same rule. */
  ghost predicate Unambiguous(rules: seq<Rule>, req: Request) {
    forall i: nat, j: nat :: Top(rules, req, i) && Top(rules, req, j) ==> rules[i] == rules[j]
  }

  lemma SameElements(p: ToolPolicy, q: ToolPolicy)
    requires SameRules(p, q)
    ensures forall r :: r in p.rules <==> r in q.rules
  {
    assert forall r :: r in p.rules <==> r in multiset(p.rules);
  }

  lemma ReorderingIsHarmless(p: ToolPolicy, q: ToolPolicy, req: Request)
    requires SameRules(p, q) && Unambiguous(p.rules, req)
    ensures EvaluatePolicy(q, req) == EvaluatePolicy(p, req)
  {
    SameElements(p, q);
    var bp := EvaluateFindsBest(p, req);
    var bq := EvaluateFindsBest(q, req);
    if bp.None? {
      forall j | 0 <= j < |q.rules| ensures !Matches(q.rules[j].condition, req) {
        assert q.rules[j] in p.rules;
      }
    } else {
      assert p.rules[bp.value] in q.rules;
      assert q.rules[bq.value] in p.rules;
      var k :| 0 <= k < |p.rules| && p.rules[k] == q.rules[bq.value];
      assert Top(p.rules, req, bp.value);
      forall j | 0 <= j < |p.rules| && Matches(p.rules[j].condition, req)
        ensures p.rules[j].priority <= p.rules[k].priority {
        assert p.rules[j] in q.rules;
      }
      assert Top(p.rules, req, k);
    }
  }

  lemma ExchangedIsBest(rules: seq<Rule>, req: Request, b: nat, k: nat)
    requires Best(rules, req, b) && Top(rules, req, k) && k != b
    ensures Best(rules[b := rules[k]][k := rules[b]], req, b)
  {
    var rules' := rules[b := rules[k]][k := rules[b]];
    forall m | 0 <= m < |rules'| && m != b && Matches(rules'[m].condition, req) ensures Before(rules', b, m) {
      assert Before(rules, b, k);
      assert m != k ==> rules'[m] == rules[m] && Before(rules, b, m);
    }
  }

  lemma ExchangeKeepsRules(rules: seq<Rule>, b: nat, k: nat)
    requires b < |rules| && k < |rules|
    ensures multiset(rules[b := rules[k]][k := rules[b]]) == multiset(rules)
  {
  }

  /** Two different rules at the top: exchanging them changes the decision. */
  lemma ExchangeMatters(p: ToolPolicy, req: Request) returns (q: ToolPolicy)
    requires !Unambiguous(p.rules, req)
    ensures SameRules(p, q) && EvaluatePolicy(q, req) != EvaluatePolicy(p, req)
  {
    var rules := p.rules;
    var i: nat, j: nat :| Top(rules, req, i) && Top(rules, req, j) && rules[i] != rules[j];
    var best := EvaluateFindsBest(p, req);
    var b := best.value;
    var k := if rules[i] == rules[b] then j else i;
    ExchangedIsBest(rules, req, b, k);
    ExchangeKeepsRules(rules, b, k);
    q := p.(rules := rules[b := rules[k]][k := rules[b]]);
    BestOrDefault(q, req);
  }

  /** The decision does not depend on the order of the rules exactly when the matching rules of the
      greatest matching priority are all the same. */
  lemma OrderIrrelevantExactly(p: ToolPolicy, req: Request)
    ensures (forall q :: SameRules(p, q) ==> EvaluatePolicy(q, req) == EvaluatePolicy(p, req))
       <==> Unambiguous(p.rules, req)
  {
    if Unambiguous(p.rules, req) {
      forall q | SameRules(p, q) ensures EvaluatePolicy(q, req) == EvaluatePolicy(p, req) {
        ReorderingIsHarmless(p, q, req);
      }
    } else {
      var q := ExchangeMatters(p, req);
    }
  }

  ghost predicate DistinctPriorities(rules: seq<Rule>, req: Request) {
    forall i, j :: 0 <= i < j < |rules| && rules[i].priority == rules[j].priority ==>
      !Matches(rules[i].condition, req) || !Matches(rules[j].condition, req)
  }

  /** Distinct priorities of the matching rules suffice. */
  lemma DistinctPrioritiesSuffice(p: ToolPolicy, q: ToolPolicy, req: Request)
    requires SameRules(p, q)
    requires DistinctPriorities(p.rules, req)
    ensures EvaluatePolicy(q, req) == EvaluatePolicy(p, req)
  {
    ReorderingIsHarmless(p, q, req);
  }

  // ------------------------------------------------------------------ legacy policies

  datatype LegacyPolicy = LegacyPolicy(
    allowedActions: seq<string>,
    allowedResources: seq<string>,
    allowByDefault: Option<bool>)

  const PLAIN := Effect(true, false, None, None, None)

  /** What happens to actions that are not listed. */
  predicate DefaultAllow(l: LegacyPolicy) {
    if l.allowByDefault.Some? then l.allowByDefault.value else |l.allowedActions| == 0
  }

  function AllowRule(action: string): Rule {
    Rule(ALLOW, Condition(Some(action), None, None), PLAIN, 10)
  }

  ghost predicate IsTranslation(l: LegacyPolicy, policy: ToolPolicy) {
    && |policy.rules| == |l.allowedActions|
    && (forall i :: 0 <= i < |policy.rules| ==> policy.rules[i] == AllowRule(l.allowedActions[i]))
    && policy.defaultEffect == PLAIN.(allow := DefaultAllow(l))
  }

  /** The translation allows what was listed and, where that is the default, everything else; but an
      empty name in the list allows every action.  Resources play no part. */
  lemma LegacyDecision(l: LegacyPolicy, policy: ToolPolicy, req: Request)
    requires IsTranslation(l, policy)
    ensures var d := EvaluatePolicy(policy, req);
      && (d.allowed <==> req.action in l.allowedActions || "" in l.allowedActions || DefaultAllow(l))
      && !d.requiresApproval && d.rateLimit == None
  {
    var best := EvaluateFindsBest(policy, req);
    if best.Some? {
      assert l.allowedActions[best.value] in l.allowedActions;
    } else {
      forall i | 0 <= i < |l.allowedActions| ensures l.allowedActions[i] != req.action && l.allowedActions[i] != "" {
        assert !Matches(policy.rules[i].condition, req);
      }
    }
  }

  /** Spelled out: a list alone allows what it lists and no more; without either everything is allowed; and what
      is said of the default holds for whatever is not listed. */
  lemma LegacySpelledOut(l: LegacyPolicy, policy: ToolPolicy, req: Request)
    requires IsTranslation(l, policy)
    ensures var listed := req.action in l.allowedActions || "" in l.allowedActions;
      && (l.allowByDefault == None && l.allowedActions != [] ==> (EvaluatePolicy(policy, req).allowed <==> listed))
      && (l.allowByDefault == None && l.allowedActions == [] ==> EvaluatePolicy(policy, req).allowed)
      && (l.allowByDefault == Some(false) ==> (EvaluatePolicy(policy, req).allowed <==> listed))
      && (l.allowByDefault == Some(true) ==> EvaluatePolicy(policy, req).allowed)
  {
    LegacyDecision(l, policy, req);
  }

  lemma {:induction false} Unlisted(actions: seq<string>, n: nat) returns (action: string)
    requires n <= |actions|
    ensures forall i :: 0 <= i < n ==> |actions[i]| < |action|
  {
    if n == 0 {
      action := "";
    } else {
      action := Unlisted(actions, n - 1);
      if |action| <= |actions[n - 1]| {
        action := actions[n - 1] + "+";
      }
    }
  }

  /** The translation keeps the meaning of a legacy policy exactly when no listed action is empty, or
      everything is allowed anyway. */
  lemma LegacyPreservedExactly(l: LegacyPolicy, policy: ToolPolicy)
    requires IsTranslation(l, policy)
    ensures (forall req :: EvaluatePolicy(policy, req).allowed <==> req.action in l.allowedActions || DefaultAllow(l))
       <==> "" !in l.allowedActions || DefaultAllow(l)
  {
    if "" in l.allowedActions && !DefaultAllow(l) {
      var action := Unlisted(l.allowedActions, |l.allowedActions|);
      var req := Request(action, None, {}, map[]);
      LegacyDecision(l, policy, req);
      assert action !in l.allowedActions;
    } else {
      forall req ensures EvaluatePolicy(policy, req).allowed <==> req.action in l.allowedActions || DefaultAllow(l) {
        LegacyDecision(l, policy, req);
      }
    }
  }

  class ToolGrant {
    const toolName: string
    var policy: ToolPolicy
    var isActive: bool

    constructor (toolName: string, policy: ToolPolicy, isActive: bool)
      ensures this.toolName == toolName && this.policy == policy && this.isActive == isActive
    {
      this.toolName, this.policy, this.isActive := toolName, policy, isActive;
    }

    method UpdatePolicy(policy: ToolPolicy)
      modifies `policy
      ensures this.policy == policy
    {
      this.policy := policy;
    }

    /** An inactive grant denies everything, and asks for neither approval nor a rate limit; an active one
        decides by the best matching rule of its policy, or else by the default. */
    function Evaluate(req: Request): (d: Decision)
      reads this
      ensures !isActive ==> !d.allowed && !d.requiresApproval && d.rateLimit == None && d.matchedRule == None
      ensures d.reason == InactiveGrant <==> !isActive
      ensures isActive && NoneMatches(policy.rules, req) ==> d == ApplyEffect(policy.defaultEffect, None)
      ensures isActive ==> forall i: nat :: Best(policy.rules, req, i) ==>
        d == ApplyEffect(policy.rules[i].effect, Some(policy.rules[i]))
    {
      BestOrDefault(policy, req);
      if !isActive then Decision(false, false, InactiveGrant, None, None) else EvaluatePolicy(policy, req)
    }

    static method FromLegacyDict(toolName: string, l: LegacyPolicy, isActive: bool, spaces: set<char>)
        returns (grant: Result<ToolGrant, string>)
      ensures grant.Err? <==> forall c :: c in toolName ==> c in spaces
      ensures grant.Ok? ==>
        var g := grant.value;
        fresh(g) && g.toolName == g.policy.toolName == toolName && g.isActive == isActive
        && IsTranslation(l, g.policy)
    {
      var rules := [];
      for i := 0 to |l.allowedActions|
        invariant |rules| == i
        invariant forall k :: 0 <= k < i ==> rules[k] == AllowRule(l.allowedActions[k])
      {
        rules := rules + [AllowRule(l.allowedActions[i])];
      }
      var toolPolicy := ToolPolicy(toolName, rules, PLAIN.(allow := DefaultAllow(l)));
      if forall c :: c in toolName ==> c in spaces {
        return Err("Tool name cannot be empty");
      }
      var g := new ToolGrant(toolName, toolPolicy, isActive);
      return Ok(g);
    }
  }
}
