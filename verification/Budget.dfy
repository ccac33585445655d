/**
 Enforcing the budget of a run.

 The repository of runs is a map that hands out the stored run.  The age of a run and its timeout, in
 seconds, are supplied with each check.
*/
module Budget {
  import opened Wrappers
  import M = Money
  import R = Run

  datatype Verdict = Allowed | RunNotFound | OverCost | OverSteps | OverTime

  datatype CheckResult = CheckResult(
    verdict: Verdict,
    remainingBudget: nat,
    remainingSteps: nat,
    remainingSeconds: real)

  /** Spent cost in percent of the maximum, compared by cross-multiplication. */
  predicate NearBudget(spentCost: nat, maxCost: nat, percent: real) {
    percent * maxCost as real <= 100.0 * spentCost as real
  }

  function Warned(r: R.RunData, percent: real): R.RunData {
    if NearBudget(r.spentCost, r.maxCost, percent)
    then R.Emit(r, R.Noticed(R.BudgetWarning(r.maxCost, r.spentCost, percent)))
    else r
  }

  datatype Checked = Checked(run: R.RunData, result: CheckResult)

  /** The run and the result after a check. */
  function Check(r: R.RunData, additionalCost: nat, percent: real, elapsed: real, timeout: int): Checked
    requires r.spentCost <= r.maxCost
  {
    if r.maxCost < r.spentCost + additionalCost then
      Checked(R.Emit(r, R.Noticed(R.BudgetExceeded(r.maxCost, r.spentCost, additionalCost))),
              CheckResult(OverCost, r.maxCost - r.spentCost, 0, 0.0))
    else
      var r1 := Warned(r, percent);
      if r.maxSteps <= |r.steps| then
        Checked(R.Emit(r1, R.Noticed(R.StepLimitExceeded(r.maxSteps, |r.steps|))), CheckResult(OverSteps, 0, 0, 0.0))
      else if timeout as real < elapsed then
        Checked(R.Emit(r1, R.Noticed(R.TimeoutExceeded(timeout, elapsed.Floor))), CheckResult(OverTime, 0, 0, 0.0))
      else
        Checked(r1, CheckResult(Allowed, r.maxCost - (r.spentCost + additionalCost), r.maxSteps - |r.steps|,
                                timeout as real - elapsed))
  }

  /** Recording a cost; the event is added only if the run accepted it. */
  function RecordSpent(r: R.RunData, cost: nat, provider: string, model: string): R.Done {
    var d := R.Do(r, R.RecordCost(cost));
    if d.error.Some? then d
    else R.Done(R.Emit(d.run, R.Noticed(R.CostRecorded(cost, d.run.spentCost, provider, model))), None)
  }

  // ------------------------------------------------------------------ budget operations on a run

  /** A check allows a cost exactly when money, steps and time all suffice; money is checked first and
      time last.  It leaves the run alone exactly when it allows the cost and has nothing to warn of. */
  lemma VerdictExactly(r: R.RunData, additionalCost: nat, percent: real, elapsed: real, timeout: int)
    requires r.spentCost <= r.maxCost
    ensures var checked := Check(r, additionalCost, percent, elapsed, timeout);
      var verdict := checked.result.verdict;
      var fits := r.spentCost + additionalCost <= r.maxCost;
      && (verdict == Allowed <==> fits && |r.steps| < r.maxSteps && elapsed <= timeout as real)
      && (verdict == OverCost <==> !fits)
      && (verdict == OverSteps <==> fits && r.maxSteps <= |r.steps|)
      && (verdict == OverCost ==> checked.result.remainingBudget < additionalCost)
      && (checked.run == r <==> verdict == Allowed && !NearBudget(r.spentCost, r.maxCost, percent))
      && checked.run == r.(pending := checked.run.pending) && r.pending <= checked.run.pending
  {
  }

  lemma PercentOf(spent: real, most: real, percent: real)
    requires 0.0 < most
    ensures percent <= spent / most * 100.0 <==> percent * most <= 100.0 * spent
  {
    var share := spent / most;
    assert share * most == spent;
    if percent <= share * 100.0 {
      assert percent * most <= share * 100.0 * most;
    } else {
      assert share * 100.0 * most < percent * most;
    }
  }

  /** A run with a maximum cost is near its budget exactly if its spent cost is at least that many percent of it. */
  lemma NearExactly(spentCost: nat, maxCost: nat, percent: real)
    requires 0 < maxCost
    ensures NearBudget(spentCost, maxCost, percent) <==> percent <= spentCost as real / maxCost as real * 100.0
  {
    PercentOf(spentCost as real, maxCost as real, percent);
  }

  /** What a check reports as left makes up, with what is used or asked for, the whole of the budget, the steps and
      the time, if it allows the cost; a cost that does not fit is told what is left without it; and nothing else is
      reported. */
  lemma RemaindersExactly(r: R.RunData, additionalCost: nat, percent: real, elapsed: real, timeout: int)
    requires r.spentCost <= r.maxCost
    ensures var result := Check(r, additionalCost, percent, elapsed, timeout).result;
      && (result.verdict == Allowed ==>
            && r.spentCost + additionalCost + result.remainingBudget == r.maxCost
            && |r.steps| + result.remainingSteps == r.maxSteps
            && elapsed + result.remainingSeconds == timeout as real)
      && (result.verdict == OverCost ==> r.spentCost + result.remainingBudget == r.maxCost)
      && (result.verdict == OverSteps || result.verdict == OverTime ==> result.remainingBudget == 0)
      && (result.verdict != Allowed ==> result.remainingSteps == 0 && result.remainingSeconds == 0.0)
      && result.verdict != RunNotFound
  {
  }

  /** The events a check has added. */
  function NewEvents(r: R.RunData, checked: R.RunData): seq<R.Event> {
    if r.pending <= checked.pending then checked.pending[|r.pending|..] else []
  }

  /** Which notices a check gives, with which figures: a warning exactly if the cost fits but enough is spent
      already, and besides one for whatever denies the cost. */
  lemma NoticesExactly(r: R.RunData, additionalCost: nat, percent: real, elapsed: real, timeout: int, n: R.Notice)
    requires r.spentCost <= r.maxCost
    ensures var checked := Check(r, additionalCost, percent, elapsed, timeout);
      var verdict := checked.result.verdict;
      R.Noticed(n) in NewEvents(r, checked.run) <==>
        match n
        case BudgetExceeded(most, spent, more) =>
          verdict == OverCost && most == r.maxCost && spent == r.spentCost && more == additionalCost
        case BudgetWarning(most, spent, threshold) =>
          verdict != OverCost && NearBudget(r.spentCost, r.maxCost, percent)
          && most == r.maxCost && spent == r.spentCost && threshold == percent
        case StepLimitExceeded(most, steps) => verdict == OverSteps && most == r.maxSteps && steps == |r.steps|
        case TimeoutExceeded(most, seconds) =>
          verdict == OverTime && most == timeout && seconds as real <= elapsed < seconds as real + 1.0
        case CostRecorded(_, _, _, _) => false
  {
    var checked := Check(r, additionalCost, percent, elapsed, timeout);
    var warning :=
      if checked.result.verdict != OverCost && NearBudget(r.spentCost, r.maxCost, percent)
      then [R.Noticed(R.BudgetWarning(r.maxCost, r.spentCost, percent))]
      else [];
    var denial := match checked.result.verdict
      case OverCost => [R.Noticed(R.BudgetExceeded(r.maxCost, r.spentCost, additionalCost))]
      case OverSteps => [R.Noticed(R.StepLimitExceeded(r.maxSteps, |r.steps|))]
      case OverTime => [R.Noticed(R.TimeoutExceeded(timeout, elapsed.Floor))]
      case _ => [];
    AddedBehind(r.pending, warning + denial);
    assert checked.run.pending == r.pending + (warning + denial);
  }

  lemma AddedBehind(pending: seq<R.Event>, more: seq<R.Event>)
    ensures pending <= pending + more && (pending + more)[|pending|..] == more
  {
  }

  lemma Unfold(r: R.RunData, ops: seq<R.Op>)
    requires |ops| <= 2
    ensures R.After(r, ops, 0) == r
    ensures 1 <= |ops| ==> R.After(r, ops, 1) == R.Do(r, ops[0]).run
    ensures |ops| == 2 ==> R.After(r, ops, 2) == R.Do(R.Do(r, ops[0]).run, ops[1]).run
  {
  }

  /** The notices a check adds to a run. */
  function NoticesOf(r: R.RunData, additionalCost: nat, percent: real, elapsed: real, timeout: int): seq<R.Op> {
    var warning :=
      if NearBudget(r.spentCost, r.maxCost, percent)
      then [R.Notify(R.BudgetWarning(r.maxCost, r.spentCost, percent))]
      else [];
    if r.maxCost < r.spentCost + additionalCost then
      [R.Notify(R.BudgetExceeded(r.maxCost, r.spentCost, additionalCost))]
    else if r.maxSteps <= |r.steps| then
      warning + [R.Notify(R.StepLimitExceeded(r.maxSteps, |r.steps|))]
    else if timeout as real < elapsed then
      warning + [R.Notify(R.TimeoutExceeded(timeout, elapsed.Floor))]
    else warning
  }

  /** A check is nothing but at most two run operations, all notices, so all that holds of runs holds
      with checks interspersed. */
  lemma CheckIsNotices(r: R.RunData, additionalCost: nat, percent: real, elapsed: real, timeout: int)
    requires r.spentCost <= r.maxCost
    ensures var ops := NoticesOf(r, additionalCost, percent, elapsed, timeout);
      && |ops| <= 2 && (forall i :: 0 <= i < |ops| ==> ops[i].Notify?)
      && R.After(r, ops, |ops|) == Check(r, additionalCost, percent, elapsed, timeout).run
  {
    Unfold(r, NoticesOf(r, additionalCost, percent, elapsed, timeout));
  }

  function RecordingOf(r: R.RunData, cost: nat, provider: string, model: string): seq<R.Op> {
    var d := R.Do(r, R.RecordCost(cost));
    if d.error.Some? then [R.RecordCost(cost)]
    else [R.RecordCost(cost), R.Notify(R.CostRecorded(cost, d.run.spentCost, provider, model))]
  }

  /** Recording a cost is that run operation and, exactly if it is accepted, a notice. */
  lemma RecordSpentIsOperations(r: R.RunData, cost: nat, provider: string, model: string)
    ensures var ops := RecordingOf(r, cost, provider, model);
      && 1 <= |ops| <= 2 && ops[0] == R.RecordCost(cost)
      && (|ops| == 2 <==> R.Do(r, ops[0]).error.None?)
      && (|ops| == 2 ==> ops[1] == R.Notify(R.CostRecorded(cost, r.spentCost + cost, provider, model)))
      && R.After(r, ops, |ops|) == RecordSpent(r, cost, provider, model).run
  {
    Unfold(r, RecordingOf(r, cost, provider, model));
  }

  lemma CheckKeepsCosts(r: R.RunData, additionalCost: nat, percent: real, elapsed: real, timeout: int)
    requires r.spentCost <= r.maxCost
    ensures var run := Check(r, additionalCost, percent, elapsed, timeout).run;
      run.spentCost == r.spentCost && run.maxCost == r.maxCost
  {
  }

  lemma RecordsIfItFits(r: R.RunData, cost: nat, provider: string, model: string)
    ensures var d := RecordSpent(r, cost, provider, model);
      && (d.error.None? <==> r.spentCost + cost <= r.maxCost)
      && (d.error.None? ==> d.run.spentCost == r.spentCost + cost)
  {
  }

  /** An allowed check is as good as its word: the cost can be recorded later on exactly as long as what
      was spent in between fits into the remaining budget the check reported; right after it, always. */
  lemma AllowedCheckHolds(r: R.RunData, cost: nat, percent: real, elapsed: real, timeout: int,
                          ops: seq<R.Op>, provider: string, model: string)
    requires r.spentCost <= r.maxCost
    requires Check(r, cost, percent, elapsed, timeout).result.verdict == Allowed
    ensures var checked := Check(r, cost, percent, elapsed, timeout);
      var later := R.After(checked.run, ops, |ops|);
      && (RecordSpent(later, cost, provider, model).error.None? <==>
            R.AcceptedCosts(checked.run, ops, |ops|) <= checked.result.remainingBudget)
      && RecordSpent(checked.run, cost, provider, model).error.None?
      && RecordSpent(checked.run, cost, provider, model).run.spentCost
           == r.maxCost - checked.result.remainingBudget
  {
    var checked := Check(r, cost, percent, elapsed, timeout);
    CheckKeepsCosts(r, cost, percent, elapsed, timeout);
    RemaindersExactly(r, cost, percent, elapsed, timeout);
    R.SpendingIsConserved(checked.run, ops, |ops|);
    RecordsIfItFits(R.After(checked.run, ops, |ops|), cost, provider, model);
    RecordsIfItFits(checked.run, cost, provider, model);
  }

  // ------------------------------------------------------------------ the service

  const DEFAULT_PRICES := M.Prices(0.01, 0.02)

  class BudgetService {
    const runs: map<string, R.Run>
    const pricing: map<(string, string), M.Prices>
    const warningPercent: real

    /** The repository holds runs in order, each under one identity. */
    ghost predicate Valid()
      reads runs.Values
    {
      && (forall id :: id in runs ==> runs[id].Valid())
      && forall a, b :: a in runs && b in runs && a != b ==> runs[a] != runs[b]
    }

    constructor (runs: map<string, R.Run>, pricing: map<(string, string), M.Prices>, warningPercent: real)
      ensures this.runs == runs && this.pricing == pricing && this.warningPercent == warningPercent
    {
      this.runs, this.pricing, this.warningPercent := runs, pricing, warningPercent;
    }

    method CheckRunBudget(runId: string, additionalCost: nat, elapsed: real, timeout: int)
        returns (result: CheckResult)
      requires Valid()
      modifies if runId in runs then {runs[runId]} else {}
      ensures Valid()
      ensures runId !in runs ==> result == CheckResult(RunNotFound, 0, 0, 0.0)
      ensures runId in runs ==>
        Checked(runs[runId].Data(), result)
        == Check(old(runs[runId].Data()), additionalCost, warningPercent, elapsed, timeout)
    {
      if runId !in runs {
        return CheckResult(RunNotFound, 0, 0, 0.0);
      }
      result := CheckRun(runs[runId], additionalCost, elapsed, timeout);
    }

    method CheckRun(run: R.Run, additionalCost: nat, elapsed: real, timeout: int) returns (result: CheckResult)
      requires run.Valid()
      modifies run
      ensures run.Valid()
      ensures Checked(run.Data(), result) == Check(old(run.Data()), additionalCost, warningPercent, elapsed, timeout)
    {
      var newTotal := run.spentCost + additionalCost;
      if run.maxCost < newTotal {
        run.AddEvent(R.Noticed(R.BudgetExceeded(run.maxCost, run.spentCost, additionalCost)));
        var remaining := M.Minus(run.maxCost, run.spentCost);
        assert remaining.Ok?;
        return CheckResult(OverCost, remaining.value, 0, 0.0);
      }
      if NearBudget(run.spentCost, run.maxCost, warningPercent) {
        run.AddEvent(R.Noticed(R.BudgetWarning(run.maxCost, run.spentCost, warningPercent)));
      }
      if |run.steps| >= run.maxSteps {
        run.AddEvent(R.Noticed(R.StepLimitExceeded(run.maxSteps, |run.steps|)));
        return CheckResult(OverSteps, 0, 0, 0.0);
      }
      if timeout as real < elapsed {
        run.AddEvent(R.Noticed(R.TimeoutExceeded(timeout, elapsed.Floor)));
        return CheckResult(OverTime, 0, 0, 0.0);
      }
      var remaining := M.Minus(run.maxCost, newTotal);
      assert remaining.Ok?;
      return CheckResult(Allowed, remaining.value, run.maxSteps - |run.steps|, timeout as real - elapsed);
    }

    /** A run that is not found is ignored. */
    method RecordSpentCost(runId: string, cost: nat, provider: string, model: string)
        returns (error: Option<R.Error>)
      requires Valid()
      modifies if runId in runs then {runs[runId]} else {}
      ensures Valid()
      ensures runId !in runs ==> error == None
      ensures runId in runs ==>
        R.Done(runs[runId].Data(), error) == RecordSpent(old(runs[runId].Data()), cost, provider, model)
    {
      if runId !in runs {
        return None;
      }
      var run := runs[runId];
      error := run.AddCost(cost);
      if error.None? {
        run.AddEvent(R.Noticed(R.CostRecorded(cost, run.spentCost, provider, model)));
      }
    }

    function PricesFor(provider: string, model: string): M.Prices {
      if (provider, model) in pricing then pricing[(provider, model)] else DEFAULT_PRICES
    }

    /** Records the cost of tokens; costs that round to nothing (or less) are not recorded. */
    method RecordProviderUsage(runId: string, provider: string, model: string, usage: M.Usage)
        returns (priced: bool, error: Option<R.Error>)
      requires Valid()
      modifies if runId in runs then {runs[runId]} else {}
      ensures Valid()
      ensures runId !in runs ==> error == None
      ensures var prices := if (provider, model) in pricing then pricing[(provider, model)] else M.Prices(0.01, 0.02);
        var cost := M.CalculateCost(prices, usage);
        && priced == cost.Ok?
        && (runId in runs ==>
              R.Done(runs[runId].Data(), error)
              == if cost.Ok? && 0 < cost.value then RecordSpent(old(runs[runId].Data()), cost.value, provider, model)
                 else R.Done(old(runs[runId].Data()), None))
    {
      var cost := M.CalculateCost(PricesFor(provider, model), usage);
      if cost.Err? {
        return false, None;
      }
      priced, error := true, None;
      if cost.value > 0 {
        error := RecordSpentCost(runId, cost.value, provider, model);
      }
    }

    /** What is left of a run's budget; the subtraction never fails. */
    method GetRemainingBudget(runId: string) returns (remaining: nat)
      requires Valid()
      ensures remaining == if runId in runs then runs[runId].maxCost - runs[runId].spentCost else 0
    {
      if runId !in runs {
        return 0;
      }
      var difference := M.Minus(runs[runId].maxCost, runs[runId].spentCost);
      assert difference.Ok?;
      return difference.value;
    }
  }
}
