/**
 The run aggregate: a state machine that logs events, bounds its cost and numbers its steps.

 Costs are micro-units.  Readings of the clock are supplied with each operation that keeps them; the
 identities of run and tenant are not modelled.
*/
module Run {
  import opened Wrappers

  datatype RunState =
    | QUEUED | RUNNING | AWAITING_APPROVAL | RETRY_SCHEDULED
    | SUCCEEDED | FAILED | CANCELLED | TIMED_OUT

  predicate IsTerminal(s: RunState) {
    s in {SUCCEEDED, FAILED, CANCELLED, TIMED_OUT}
  }

  function ValidTransitions(s: RunState): set<RunState> {
    match s
    case QUEUED => {RUNNING, CANCELLED, TIMED_OUT}
    case RUNNING => {AWAITING_APPROVAL, SUCCEEDED, FAILED, CANCELLED, TIMED_OUT, RETRY_SCHEDULED}
    case AWAITING_APPROVAL => {RUNNING, FAILED, CANCELLED, TIMED_OUT}
    case RETRY_SCHEDULED => {QUEUED, RUNNING, CANCELLED, TIMED_OUT}
    case _ => {}
  }

  predicate CanTransition(from: RunState, to: RunState) {
    to in ValidTransitions(from)
  }

  datatype StepKind =
    | MODEL_CALL | TOOL_CALL | MEMORY_READ | MEMORY_WRITE | APPROVAL_REQUEST | CONDITIONAL | LOOP

  datatype Step = Step(sequence: int, kind: StepKind)

  /** What the budget service adds to the events of a run. */
  datatype Notice =
    | BudgetExceeded(maxCost: nat, spentCost: nat, additionalCost: nat)
    | BudgetWarning(maxCost: nat, spentCost: nat, thresholdPercent: real)
    | StepLimitExceeded(maxSteps: nat, currentStep: nat)
    | TimeoutExceeded(timeout: int, elapsed: int)
    | CostRecorded(cost: nat, totalSpent: nat, provider: string, model: string)

  datatype Event =
    | RunCreated
    | RunStateChanged(oldState: RunState, newState: RunState, reason: Option<string>)
    | RunCompleted(output: string, totalCost: nat, stepsCount: nat)
    | RunFailed(error: string, failedStep: Option<int>)
    | RunCancelled(why: Option<string>)
    | RunTimedOut(lastState: RunState)
    | RunStepCreated(step: Step)
    | Noticed(notice: Notice)

  datatype Error =
    | FromTerminalState | InvalidTransition
    | MaxStepsExceeded | DuplicateSequence | NegativeSequence
    | ExceedsMaxCost
    | LeaseSecondOutOfRange

  /** A run, with the events already collected and those still pending. */
  datatype RunData = RunData(
    state: RunState,
    attempt: nat,
    maxSteps: nat,
    maxCost: nat,
    spentCost: nat,
    output: Option<string>,
    leaseOwner: Option<string>,
    leaseExpiresAt: Option<int>,
    cancelRequestedAt: Option<int>,
    steps: seq<Step>,
    published: seq<Event>,
    pending: seq<Event>)

  function Log(r: RunData): seq<Event> {
    r.published + r.pending
  }

  type Second = s: nat | s < 60

  /** Starting reads the clock twice: the minute of the first reading, the second of the other. */
  datatype Op =
    | Start(owner: string, minute: int, second: Second, duration: int)
    | RequestApproval | ResumeFromApproval | ScheduleRetry | Requeue
    | Complete(output: string)
    | Fail(error: string, failedStep: Option<int>)
    | Cancel(reason: Option<string>, at: int)
    | Timeout
    | AddStep(sequence: int, kind: StepKind)
    | RecordCost(cost: nat)
    | RecordTokenUsage(totalTokens: nat)
    | Notify(notice: Notice)
    | CollectEvents

  /** The run after an operation, and the error if the operation raised one. */
  datatype Done = Done(run: RunData, error: Option<Error>)

  function Emit(r: RunData, e: Event): RunData {
    r.(pending := r.pending + [e])
  }

  function Transition(r: RunData, to: RunState, reason: Option<string>): Done {
    if IsTerminal(r.state) then Done(r, Some(FromTerminalState))
    else if !CanTransition(r.state, to) then Done(r, Some(InvalidTransition))
    else Done(Emit(r.(state := to), RunStateChanged(r.state, to, reason)), None)
  }

  function TokenCost(totalTokens: nat): nat {
    totalTokens * 10 / 1000
  }

  function Spend(r: RunData, cost: nat): Done {
    if r.maxCost < r.spentCost + cost then Done(r, Some(ExceedsMaxCost))
    else Done(r.(spentCost := r.spentCost + cost), None)
  }

  predicate HasStep(steps: seq<Step>, sequence: int) {
    exists i :: 0 <= i < |steps| && steps[i].sequence == sequence
  }

  function WithStep(r: RunData, sequence: int, kind: StepKind): Done {
    if r.maxSteps <= |r.steps| then Done(r, Some(MaxStepsExceeded))
    else if HasStep(r.steps, sequence) then Done(r, Some(DuplicateSequence))
    else if sequence < 0 then Done(r, Some(NegativeSequence))
    else
      var step := Step(sequence, kind);
      Done(Emit(r.(steps := r.steps + [step]), RunStepCreated(step)), None)
  }

  /** The lease is set after the transition, by replacing the second of the current time. */
  function Started(r: RunData, owner: string, minute: int, second: Second, duration: int): Done {
    var d := Transition(r, RUNNING, None);
    if d.error.Some? then d
    else
      var r1 := d.run.(leaseOwner := Some(owner));
      if 0 <= second + duration < 60 then Done(r1.(leaseExpiresAt := Some(minute + second + duration)), None)
      else Done(r1, Some(LeaseSecondOutOfRange))
  }

  function Do(r: RunData, op: Op): Done {
    match op
    case Start(owner, minute, second, duration) => Started(r, owner, minute, second, duration)
    case RequestApproval => Transition(r, AWAITING_APPROVAL, None)
    case ResumeFromApproval => Transition(r, RUNNING, None)
    case ScheduleRetry =>
      var d := Transition(r, RETRY_SCHEDULED, None);
      if d.error.Some? then d else Done(d.run.(attempt := d.run.attempt + 1), None)
    case Requeue => Transition(r, QUEUED, None)
    case Complete(output) =>
      var d := Transition(r, SUCCEEDED, None);
      if d.error.Some? then d
      else Done(Emit(d.run.(output := Some(output)), RunCompleted(output, r.spentCost, |r.steps|)), None)
    case Fail(error, failedStep) =>
      var d := Transition(r, FAILED, Some(error));
      if d.error.Some? then d else Done(Emit(d.run, RunFailed(error, failedStep)), None)
    case Cancel(reason, at) =>
      if IsTerminal(r.state) then Done(r, None)
      else
        var d := Transition(r.(cancelRequestedAt := Some(at)), CANCELLED, reason);
        if d.error.Some? then d else Done(Emit(d.run, RunCancelled(reason)), None)
    case Timeout =>
      if IsTerminal(r.state) then Done(r, None)
      else
        var d := Transition(r, TIMED_OUT, None);
        if d.error.Some? then d else Done(Emit(d.run, RunTimedOut(d.run.state)), None)
    case AddStep(sequence, kind) => WithStep(r, sequence, kind)
    case RecordCost(cost) => Spend(r, cost)
    case RecordTokenUsage(totalTokens) =>
      if 0 < TokenCost(totalTokens) then Spend(r, TokenCost(totalTokens)) else Done(r, None)
    case Notify(notice) => Done(Emit(r, Noticed(notice)), None)
    case CollectEvents => Done(r.(published := r.published + r.pending, pending := []), None)
  }

  function Created(attempt: nat, maxSteps: nat, maxCost: nat): RunData {
    RunData(QUEUED, attempt, maxSteps, maxCost, 0, None, None, None, None, [], [], [RunCreated])
  }

  /** The run after the first `k` operations. */
  function After(r: RunData, ops: seq<Op>, k: nat): RunData
    requires k <= |ops|
  {
    if k == 0 then r else Do(After(r, ops, k - 1), ops[k - 1]).run
  }

  // ------------------------------------------------------------------ single operations

  /** Cancelling and timing out never raise, and leave the run in a terminal state. */
  lemma CancelAndTimeoutNeverRaise(r: RunData, reason: Option<string>, at: int)
    ensures Do(r, Cancel(reason, at)).error == None && IsTerminal(Do(r, Cancel(reason, at)).run.state)
    ensures Do(r, Timeout).error == None && IsTerminal(Do(r, Timeout).run.state)
  {
  }

  /** An operation that raises has changed nothing, with the one exception of a start that fails to
      compute its lease: the run has then moved on and logged it. */
  lemma ErrorsChangeNothingExactly(r: RunData, op: Op)
    requires Do(r, op).error.Some?
    ensures Do(r, op).run == r <==> Do(r, op).error != Some(LeaseSecondOutOfRange)
    ensures Do(r, op).error == Some(LeaseSecondOutOfRange) ==> op.Start? && Do(r, op).run.state == RUNNING
  {
  }

  /** In which states an operation does not raise, apart from the lease of a start. */
  lemma EnabledExactly(r: RunData, output: string, message: string, failedStep: Option<int>)
    ensures Do(r, Complete(output)).error.None? <==> r.state == RUNNING
    ensures Do(r, Fail(message, failedStep)).error.None? <==> r.state in {RUNNING, AWAITING_APPROVAL}
    ensures Do(r, RequestApproval).error.None? <==> r.state == RUNNING
    ensures Do(r, ScheduleRetry).error.None? <==> r.state == RUNNING
    ensures Do(r, Requeue).error.None? <==> r.state == RETRY_SCHEDULED
    ensures Do(r, ResumeFromApproval).error.None? <==> r.state in {QUEUED, AWAITING_APPROVAL, RETRY_SCHEDULED}
    ensures CanTransition(r.state, RUNNING) <==> r.state in {QUEUED, AWAITING_APPROVAL, RETRY_SCHEDULED}
  {
  }

  predicate Logged(r: RunData, op: Op, events: seq<Event>) {
    Do(r, op).error.None? && Log(Do(r, op).run) == Log(r) + events
  }

  /** Completing and failing log the change of state and then the end: the output with the cost and the number of
      steps so far, the error with the step that failed.  Only completing leaves an output. */
  lemma EndIsLogged(r: RunData, output: string, message: string, failedStep: Option<int>)
    ensures r.state == RUNNING ==>
      Do(r, Complete(output)).run.output == Some(output)
      && Logged(r, Complete(output),
                [RunStateChanged(RUNNING, SUCCEEDED, None), RunCompleted(output, r.spentCost, |r.steps|)])
    ensures r.state in {RUNNING, AWAITING_APPROVAL} ==>
      Do(r, Fail(message, failedStep)).run.output == r.output
      && Logged(r, Fail(message, failedStep),
                [RunStateChanged(r.state, FAILED, Some(message)), RunFailed(message, failedStep)])
  {
  }

  /** Cancelling and timing out do the same for a run that has not ended, in whatever state; the time of the request
      to cancel is kept.  A run that has ended stays as it is. */
  lemma StopIsLogged(r: RunData, reason: Option<string>, at: int)
    ensures !IsTerminal(r.state) ==>
      Do(r, Cancel(reason, at)).run.cancelRequestedAt == Some(at)
      && Logged(r, Cancel(reason, at), [RunStateChanged(r.state, CANCELLED, reason), RunCancelled(reason)])
    ensures !IsTerminal(r.state) ==>
      Do(r, Timeout).run.cancelRequestedAt == r.cancelRequestedAt
      && Logged(r, Timeout, [RunStateChanged(r.state, TIMED_OUT, None), RunTimedOut(TIMED_OUT)])
    ensures IsTerminal(r.state) ==> Do(r, Cancel(reason, at)) == Do(r, Timeout) == Done(r, None)
  {
  }

  /** A step is added exactly if there is room for it and its number is new and not negative; it comes last, and is
      logged. */
  lemma StepAddedExactly(r: RunData, sequence: int, kind: StepKind)
    ensures var d, isNew := Do(r, AddStep(sequence, kind)), forall s :: s in r.steps ==> s.sequence != sequence;
      && (d.error.None? <==> |r.steps| < r.maxSteps && isNew && 0 <= sequence)
      && (d.error.None? ==>
            && d.run.steps == r.steps + [Step(sequence, kind)]
            && Logged(r, AddStep(sequence, kind), [RunStepCreated(Step(sequence, kind))]))
  {
    if HasStep(r.steps, sequence) {
      var i :| 0 <= i < |r.steps| && r.steps[i].sequence == sequence;
      assert r.steps[i] in r.steps;
    }
  }

  const DEFAULT_LEASE := 300

  /** A start succeeds exactly when it is legal and the second of the clock plus the duration is still a
      second of the minute; with the default duration it never is. */
  lemma StartSucceedsExactly(r: RunData, owner: string, minute: int, second: Second, duration: int)
    ensures Do(r, Start(owner, minute, second, duration)).error.None? <==>
      CanTransition(r.state, RUNNING) && 0 <= second + duration < 60
    ensures Do(r, Start(owner, minute, second, DEFAULT_LEASE)).error.Some?
    ensures CanTransition(r.state, RUNNING) ==>
      var r' := Do(r, Start(owner, minute, second, duration)).run;
      && r'.state == RUNNING && r'.leaseOwner == Some(owner)
      && r'.leaseExpiresAt == if 0 <= second + duration < 60 then Some(minute + second + duration)
                              else r.leaseExpiresAt
  {
  }

  /** A state is terminal exactly when no transition leaves it. */
  lemma TerminalExactly(s: RunState)
    ensures IsTerminal(s) <==> forall t :: !CanTransition(s, t)
  {
    assert CanTransition(QUEUED, RUNNING) && CanTransition(RUNNING, FAILED);
    assert CanTransition(AWAITING_APPROVAL, RUNNING) && CanTransition(RETRY_SCHEDULED, QUEUED);
  }

  lemma {:induction false} AfterBoth(r: RunData, a: seq<Op>, b: seq<Op>, k: nat)
    requires k <= |a + b|
    ensures After(r, a + b, k) == if k <= |a| then After(r, a, k) else After(After(r, a, |a|), b, k - |a|)
  {
    if 0 < k {
      AfterBoth(r, a, b, k - 1);
      if k == |a| + 1 {
        assert After(After(r, a, |a|), b, 0) == After(r, a, |a|);
      }
    }
  }

  lemma AfterOne(r: RunData, op: Op)
    ensures After(r, [op], 1) == Do(r, op).run
  {
    assert After(r, [op], 0) == r;
  }

  lemma IntoRunning(r: RunData) returns (ops: seq<Op>)
    requires !IsTerminal(r.state)
    ensures After(r, ops, |ops|).state == RUNNING
  {
    if r.state == RUNNING {
      ops := [];
    } else {
      var op := if r.state == AWAITING_APPROVAL then ResumeFromApproval else Start("", 0, 0, 0);
      ops := [op];
      AfterOne(r, op);
    }
  }

  lemma OutOfRunning(r: RunData, t: RunState) returns (ops: seq<Op>)
    requires r.state == RUNNING
    ensures After(r, ops, |ops|).state == t
  {
    if t == RUNNING {
      ops := [];
    } else {
      var op := match t
        case AWAITING_APPROVAL => RequestApproval
        case SUCCEEDED => Complete("")
        case FAILED => Fail("", None)
        case CANCELLED => Cancel(None, 0)
        case TIMED_OUT => Timeout
        case _ => ScheduleRetry;
      ops := [op];
      AfterOne(r, op);
      if t == QUEUED {
        ops := [op] + [Requeue];
        AfterBoth(r, [op], [Requeue], 2);
        AfterOne(After(r, [op], 1), Requeue);
      }
    }
  }

  lemma PathTo(r: RunData, t: RunState) returns (ops: seq<Op>)
    requires !IsTerminal(r.state)
    ensures After(r, ops, |ops|).state == t
  {
    var into := IntoRunning(r);
    var out := OutOfRunning(After(r, into, |into|), t);
    ops := into + out;
    AfterBoth(r, into, out, |ops|);
    if out == [] {
      assert ops == into;
    }
  }

  /** Which states a run can still get into: as long as it has not ended, every one, so that nothing gets
      it stuck and it can always still succeed; once it has ended, only the one it is in. */
  lemma ReachesExactly(r: RunData, t: RunState)
    ensures (exists ops :: After(r, ops, |ops|).state == t) <==> !IsTerminal(r.state) || t == r.state
  {
    if !IsTerminal(r.state) {
      var ops := PathTo(r, t);
    } else if t == r.state {
      var none: seq<Op> := [];
      assert After(r, none, |none|).state == t;
    } else if ops :| After(r, ops, |ops|).state == t {
      TerminalAbsorbs(r, ops, |ops|);
    }
  }

  // ------------------------------------------------------------------ the log tells the whole story

  /** What a reader of the log alone knows: where a connected path of legal transitions has led (or
      that there is none), how many retries there were, which ends were announced, which steps exist. */
  datatype Story = Story(path: Option<RunState>, retries: nat, ends: seq<RunState>, steps: seq<Step>)

  function ReadEvent(story: Story, e: Event): Story {
    match e
    case RunStateChanged(oldState, newState, _) =>
      story.(path := if story.path == Some(oldState) && CanTransition(oldState, newState) then Some(newState) else None,
             retries := story.retries + if newState == RETRY_SCHEDULED then 1 else 0)
    case RunCompleted(_, _, _) => story.(ends := story.ends + [SUCCEEDED])
    case RunFailed(_, _) => story.(ends := story.ends + [FAILED])
    case RunCancelled(_) => story.(ends := story.ends + [CANCELLED])
    case RunTimedOut(lastState) => story.(ends := story.ends + [lastState])
    case RunStepCreated(step) => story.(steps := story.steps + [step])
    case RunCreated => story
    case Noticed(_) => story
  }

  /** What the first `n` events tell. */
  function Read(log: seq<Event>, n: nat): Story
    requires n <= |log|
  {
    if n == 0 then Story(Some(QUEUED), 0, [], []) else ReadEvent(Read(log, n - 1), log[n - 1])
  }

  function Reading(r: RunData): Story {
    Read(Log(r), |Log(r)|)
  }

  lemma {:induction false} ReadPrefix(log: seq<Event>, e: Event, n: nat)
    requires n <= |log|
    ensures Read(log + [e], n) == Read(log, n)
  {
    if 0 < n {
      ReadPrefix(log, e, n - 1);
    }
  }

  lemma ReadAppended(log: seq<Event>, e: Event)
    ensures Read(log + [e], |log| + 1) == ReadEvent(Read(log, |log|), e)
  {
    ReadPrefix(log, e, |log|);
  }

  lemma ReadEmitted(r: RunData, e: Event)
    ensures Reading(Emit(r, e)) == ReadEvent(Reading(r), e)
  {
    assert Log(Emit(r, e)) == Log(r) + [e];
    ReadAppended(Log(r), e);
  }

  function StoryOf(r: RunData, attempt0: nat): Story
    requires attempt0 <= r.attempt
  {
    Story(Some(r.state), r.attempt - attempt0, if IsTerminal(r.state) then [r.state] else [], r.steps)
  }

  ghost predicate Told(r: RunData, attempt0: nat) {
    attempt0 <= r.attempt && Reading(r) == StoryOf(r, attempt0)
  }

  /** Two runs with the same log read the same. */
  lemma SameLog(r: RunData, r': RunData)
    requires r'.published == r.published && r'.pending == r.pending
    ensures Reading(r') == Reading(r)
  {
  }

  lemma ReadTransition(r: RunData, to: RunState, reason: Option<string>)
    requires Transition(r, to, reason).error.None?
    ensures Reading(Transition(r, to, reason).run)
         == ReadEvent(Reading(r), RunStateChanged(r.state, to, reason))
  {
    SameLog(r, r.(state := to));
    ReadEmitted(r.(state := to), RunStateChanged(r.state, to, reason));
  }

  /** Moves to a state that is not an end; `r'` is the moved run, up to what the log does not tell. */
  lemma MoveKeepsStory(r: RunData, to: RunState, r': RunData, attempt0: nat)
    requires Told(r, attempt0) && Transition(r, to, None).error.None? && !IsTerminal(to)
    requires var moved := Transition(r, to, None).run;
      && r'.published == moved.published && r'.pending == moved.pending
      && r'.state == to && r'.steps == r.steps
      && r'.attempt == r.attempt + if to == RETRY_SCHEDULED then 1 else 0
    ensures Told(r', attempt0)
  {
    ReadTransition(r, to, None);
    SameLog(Transition(r, to, None).run, r');
  }

  predicate Announces(e: Event, to: RunState) {
    match e
    case RunCompleted(_, _, _) => to == SUCCEEDED
    case RunFailed(_, _) => to == FAILED
    case RunCancelled(_) => to == CANCELLED
    case RunTimedOut(lastState) => to == TIMED_OUT == lastState
    case _ => false
  }

  /** Moves to an end, announced by the event `e`. */
  lemma EndKeepsStory(r: RunData, to: RunState, reason: Option<string>, moved: RunData, e: Event, attempt0: nat)
    requires Told(r, attempt0) && Transition(r, to, reason).error.None? && IsTerminal(to)
    requires var plain := Transition(r, to, reason).run;
      && moved.published == plain.published && moved.pending == plain.pending
      && moved.state == to && moved.steps == r.steps && moved.attempt == r.attempt
    requires Announces(e, to)
    ensures Told(Emit(moved, e), attempt0)
  {
    ReadTransition(r, to, reason);
    SameLog(Transition(r, to, reason).run, moved);
    ReadEmitted(moved, e);
  }

  lemma StepKeepsStory(r: RunData, step: Step, attempt0: nat)
    requires Told(r, attempt0)
    ensures Told(Emit(r.(steps := r.steps + [step]), RunStepCreated(step)), attempt0)
  {
    var r1 := r.(steps := r.steps + [step]);
    SameLog(r, r1);
    ReadEmitted(r1, RunStepCreated(step));
  }

  lemma NoticeKeepsStory(r: RunData, notice: Notice, attempt0: nat)
    requires Told(r, attempt0)
    ensures Told(Emit(r, Noticed(notice)), attempt0)
  {
    ReadEmitted(r, Noticed(notice));
  }

  lemma CostKeepsStory(r: RunData, spentCost: nat, attempt0: nat)
    requires Told(r, attempt0)
    ensures Told(r.(spentCost := spentCost), attempt0)
  {
    SameLog(r, r.(spentCost := spentCost));
  }

  lemma CollectingKeepsStory(r: RunData, attempt0: nat)
    requires Told(r, attempt0)
    ensures Told(r.(published := r.published + r.pending, pending := []), attempt0)
  {
    assert Log(r.(published := r.published + r.pending, pending := [])) == Log(r);
  }

  lemma MoveOperationKeepsStory(r: RunData, op: Op, attempt0: nat)
    requires Told(r, attempt0)
    requires op.Start? || op.RequestApproval? || op.ResumeFromApproval? || op.ScheduleRetry? || op.Requeue?
    ensures Told(Do(r, op).run, attempt0)
  {
    var to := match op
      case RequestApproval => AWAITING_APPROVAL
      case ScheduleRetry => RETRY_SCHEDULED
      case Requeue => QUEUED
      case _ => RUNNING;
    if Transition(r, to, None).error.None? {
      MoveKeepsStory(r, to, Do(r, op).run, attempt0);
    }
  }

  lemma CompleteKeepsStory(r: RunData, output: string, attempt0: nat)
    requires Told(r, attempt0)
    ensures Told(Do(r, Complete(output)).run, attempt0)
  {
    if Transition(r, SUCCEEDED, None).error.None? {
      var moved := Transition(r, SUCCEEDED, None).run.(output := Some(output));
      EndKeepsStory(r, SUCCEEDED, None, moved, RunCompleted(output, r.spentCost, |r.steps|), attempt0);
    }
  }

  lemma FailKeepsStory(r: RunData, error: string, failedStep: Option<int>, attempt0: nat)
    requires Told(r, attempt0)
    ensures Told(Do(r, Fail(error, failedStep)).run, attempt0)
  {
    if Transition(r, FAILED, Some(error)).error.None? {
      var moved := Transition(r, FAILED, Some(error)).run;
      EndKeepsStory(r, FAILED, Some(error), moved, RunFailed(error, failedStep), attempt0);
    }
  }

  lemma CancelKeepsStory(r: RunData, reason: Option<string>, at: int, attempt0: nat)
    requires Told(r, attempt0)
    ensures Told(Do(r, Cancel(reason, at)).run, attempt0)
  {
    if !IsTerminal(r.state) {
      var moved := Transition(r.(cancelRequestedAt := Some(at)), CANCELLED, reason).run;
      EndKeepsStory(r, CANCELLED, reason, moved, RunCancelled(reason), attempt0);
    }
  }

  lemma TimeoutKeepsStory(r: RunData, attempt0: nat)
    requires Told(r, attempt0)
    ensures Told(Do(r, Timeout).run, attempt0)
  {
    if !IsTerminal(r.state) {
      EndKeepsStory(r, TIMED_OUT, None, Transition(r, TIMED_OUT, None).run, RunTimedOut(TIMED_OUT), attempt0);
    }
  }

  lemma EndOperationKeepsStory(r: RunData, op: Op, attempt0: nat)
    requires Told(r, attempt0)
    requires op.Complete? || op.Fail? || op.Cancel? || op.Timeout?
    ensures Told(Do(r, op).run, attempt0)
  {
    match op
    case Complete(output) => CompleteKeepsStory(r, output, attempt0);
    case Fail(error, failedStep) => FailKeepsStory(r, error, failedStep, attempt0);
    case Cancel(reason, at) => CancelKeepsStory(r, reason, at, attempt0);
    case Timeout => TimeoutKeepsStory(r, attempt0);
  }

  lemma OtherOperationKeepsStory(r: RunData, op: Op, attempt0: nat)
    requires Told(r, attempt0)
    requires op.AddStep? || op.Notify? || op.RecordCost? || op.RecordTokenUsage? || op.CollectEvents?
    ensures Told(Do(r, op).run, attempt0)
  {
    if Do(r, op).error.None? {
      match op
      case AddStep(sequence, kind) => StepKeepsStory(r, Step(sequence, kind), attempt0);
      case Notify(notice) => NoticeKeepsStory(r, notice, attempt0);
      case CollectEvents => CollectingKeepsStory(r, attempt0);
      case _ => CostKeepsStory(r, Do(r, op).run.spentCost, attempt0);
    }
  }

  /** For every sequence of operations the log, collected events included, tells the run's story: the
      state changes form a connected path of legal transitions from QUEUED to the current state, each
      retry is logged, the end is announced once and correctly, and the steps are those created. */
  lemma {:induction false} LogTellsStory(attempt0: nat, maxSteps: nat, maxCost: nat, ops: seq<Op>, k: nat)
    requires k <= |ops|
    ensures Told(After(Created(attempt0, maxSteps, maxCost), ops, k), attempt0)
  {
    var r0 := Created(attempt0, maxSteps, maxCost);
    if k == 0 {
      assert Log(r0) == [RunCreated];
      assert Read([RunCreated], 1) == ReadEvent(Read([RunCreated], 0), RunCreated);
    } else {
      LogTellsStory(attempt0, maxSteps, maxCost, ops, k - 1);
      var r, op := After(r0, ops, k - 1), ops[k - 1];
      if op.Complete? || op.Fail? || op.Cancel? || op.Timeout? {
        EndOperationKeepsStory(r, op, attempt0);
      } else if op.AddStep? || op.Notify? || op.RecordCost? || op.RecordTokenUsage? || op.CollectEvents? {
        OtherOperationKeepsStory(r, op, attempt0);
      } else {
        MoveOperationKeepsStory(r, op, attempt0);
      }
    }
  }

  predicate SameEnd(r: RunData, r': RunData) {
    IsTerminal(r.state) && r'.state == r.state && r'.attempt == r.attempt && r'.output == r.output
  }

  lemma EndStays(r: RunData, op: Op)
    requires IsTerminal(r.state)
    ensures SameEnd(r, Do(r, op).run)
  {
  }

  /** Nothing moves a run out of a terminal state: state, attempt and output stay as they are. */
  lemma {:induction false} TerminalAbsorbs(r: RunData, ops: seq<Op>, k: nat)
    requires k <= |ops| && IsTerminal(r.state)
    ensures SameEnd(r, After(r, ops, k))
  {
    if 0 < k {
      TerminalAbsorbs(r, ops, k - 1);
      EndStays(After(r, ops, k - 1), ops[k - 1]);
    }
  }

  lemma OutputStep(r: RunData, op: Op)
    requires r.output.Some? <==> r.state == SUCCEEDED
    ensures Do(r, op).run.output.Some? <==> Do(r, op).run.state == SUCCEEDED
    ensures r.state != SUCCEEDED && Do(r, op).run.state == SUCCEEDED ==> op.Complete? && r.state == RUNNING
  {
  }

  /** A run has an output exactly if it has succeeded. */
  lemma {:induction false} OutputExactly(attempt0: nat, maxSteps: nat, maxCost: nat, ops: seq<Op>, k: nat)
    requires k <= |ops|
    ensures var r := After(Created(attempt0, maxSteps, maxCost), ops, k); r.output.Some? <==> r.state == SUCCEEDED
  {
    if 0 < k {
      OutputExactly(attempt0, maxSteps, maxCost, ops, k - 1);
      OutputStep(After(Created(attempt0, maxSteps, maxCost), ops, k - 1), ops[k - 1]);
    }
  }

  /** A run that has succeeded did so by completing a running run: it still has that output, and its log still
      tells the output, the sum of the costs accepted before, and the number of steps then. */
  lemma {:induction false} SuccessIsCompletion(attempt0: nat, maxSteps: nat, maxCost: nat, ops: seq<Op>, k: nat)
      returns (j: nat)
    requires k <= |ops| && After(Created(attempt0, maxSteps, maxCost), ops, k).state == SUCCEEDED
    ensures j < k && ops[j].Complete?
    ensures var r0 := Created(attempt0, maxSteps, maxCost);
      var before, now, output := After(r0, ops, j), After(r0, ops, k), ops[j].output;
      && before.state == RUNNING && now.output == Some(output)
      && Log(before) + [RunStateChanged(RUNNING, SUCCEEDED, None),
                        RunCompleted(output, AcceptedCosts(r0, ops, j), |before.steps|)] <= Log(now)
  {
    var r0 := Created(attempt0, maxSteps, maxCost);
    var last := After(r0, ops, k - 1);
    OutputExactly(attempt0, maxSteps, maxCost, ops, k - 1);
    if last.state == SUCCEEDED {
      j := SuccessIsCompletion(attempt0, maxSteps, maxCost, ops, k - 1);
      EndStays(last, ops[k - 1]);
      OneOperationAppends(last, ops[k - 1]);
    } else {
      j := k - 1;
      OutputStep(last, ops[j]);
      SpendingIsConserved(r0, ops, j);
      EndIsLogged(last, ops[j].output, "", None);
    }
  }

  // ------------------------------------------------------------------ conservation

  /** The events collected so far, then those pending, are only ever added to at the end: each event
      is delivered once and in order. */
  lemma {:induction false} EventsAreConserved(r: RunData, ops: seq<Op>, k: nat)
    requires k <= |ops|
    ensures Log(r) <= Log(After(r, ops, k)) && r.published <= After(r, ops, k).published
    ensures 0 < k && ops[k - 1] == CollectEvents ==>
      After(r, ops, k).published == Log(After(r, ops, k - 1)) && After(r, ops, k).pending == []
  {
    if 0 < k {
      EventsAreConserved(r, ops, k - 1);
      OneOperationAppends(After(r, ops, k - 1), ops[k - 1]);
    }
  }

  lemma OneOperationAppends(r: RunData, op: Op)
    ensures Log(r) <= Log(Do(r, op).run) && r.published <= Do(r, op).run.published
  {
  }

  /** The cost an operation tries to add. */
  function CostOf(op: Op): nat {
    match op
    case RecordCost(cost) => cost
    case RecordTokenUsage(totalTokens) => TokenCost(totalTokens)
    case _ => 0
  }

  /** The sum of the costs that were not rejected. */
  function AcceptedCosts(r: RunData, ops: seq<Op>, k: nat): nat
    requires k <= |ops|
  {
    if k == 0 then 0
    else
      AcceptedCosts(r, ops, k - 1)
      + if Do(After(r, ops, k - 1), ops[k - 1]).error.None? then CostOf(ops[k - 1]) else 0
  }

  /** A cost is rejected exactly when it does not fit into what is left, and an accepted one is added. */
  lemma SpendingExactly(r: RunData, op: Op)
    requires op.RecordCost? || op.RecordTokenUsage?
    requires r.spentCost <= r.maxCost
    ensures Do(r, op).error.Some? <==> r.maxCost < r.spentCost + CostOf(op)
    ensures Do(r, op).error.None? ==> Do(r, op).run == r.(spentCost := r.spentCost + CostOf(op))
  {
  }

  lemma SpendingStep(r: RunData, op: Op)
    requires r.spentCost <= r.maxCost
    ensures var d := Do(r, op);
      && d.run.maxCost == r.maxCost && d.run.spentCost <= r.maxCost
      && d.run.spentCost == r.spentCost + if d.error.None? then CostOf(op) else 0
  {
  }

  /** Spending is conserved: what was spent, plus the accepted costs, is what is spent. */
  lemma {:induction false} SpendingIsConserved(r: RunData, ops: seq<Op>, k: nat)
    requires k <= |ops| && r.spentCost <= r.maxCost
    ensures var r' := After(r, ops, k);
      r'.maxCost == r.maxCost && r'.spentCost == r.spentCost + AcceptedCosts(r, ops, k) <= r.maxCost
  {
    if 0 < k {
      SpendingIsConserved(r, ops, k - 1);
      SpendingStep(After(r, ops, k - 1), ops[k - 1]);
    }
  }

  ghost predicate GoodSteps(r: RunData) {
    && |r.steps| <= r.maxSteps
    && (forall i :: 0 <= i < |r.steps| ==> 0 <= r.steps[i].sequence)
    && (forall i, j :: 0 <= i < j < |r.steps| ==> r.steps[i].sequence != r.steps[j].sequence)
  }

  lemma StepsStayGood(r: RunData, op: Op)
    requires GoodSteps(r)
    ensures GoodSteps(Do(r, op).run) && r.steps <= Do(r, op).run.steps && Do(r, op).run.maxSteps == r.maxSteps
  {
  }

  lemma {:induction false} AllStepsGood(r: RunData, ops: seq<Op>, k: nat)
    requires k <= |ops| && GoodSteps(r)
    ensures GoodSteps(After(r, ops, k)) && After(r, ops, k).maxSteps == r.maxSteps
    ensures r.steps <= After(r, ops, k).steps
  {
    if 0 < k {
      AllStepsGood(r, ops, k - 1);
      StepsStayGood(After(r, ops, k - 1), ops[k - 1]);
    }
  }

  /** In every reachable run the spent cost is the sum of the accepted costs and within the maximum;
      steps have distinct non-negative numbers and are within their maximum. */
  lemma BudgetsHold(attempt0: nat, maxSteps: nat, maxCost: nat, ops: seq<Op>, k: nat)
    requires k <= |ops|
    ensures var r0 := Created(attempt0, maxSteps, maxCost);
      var r := After(r0, ops, k);
      && r.spentCost == AcceptedCosts(r0, ops, k) <= maxCost == r.maxCost
      && GoodSteps(r) && |r.steps| <= maxSteps
  {
    var r0 := Created(attempt0, maxSteps, maxCost);
    SpendingIsConserved(r0, ops, k);
    AllStepsGood(r0, ops, k);
  }

  // ------------------------------------------------------------------ the aggregate

  datatype CreationError = EmptyIdempotencyKey | MaxStepsNotPositive | MaxCostNotPositive | NegativeAttempt

  class Run {
    const maxSteps: nat
    const maxCost: nat
    var state: RunState
    var attempt: nat
    var spentCost: nat
    var outputData: Option<string>
    var leaseOwner: Option<string>
    var leaseExpiresAt: Option<int>
    var cancelRequestedAt: Option<int>
    var steps: seq<Step>
    var events: seq<Event>
    ghost var published: seq<Event>

    ghost function Data(): RunData
      reads this
    {
      RunData(state, attempt, maxSteps, maxCost, spentCost, outputData, leaseOwner, leaseExpiresAt,
              cancelRequestedAt, steps, published, events)
    }

    /** What the aggregate relies on and every operation keeps. */
    ghost predicate Valid()
      reads this
    {
      spentCost <= maxCost && GoodSteps(Data())
    }

    constructor (attempt: nat, maxSteps: nat, maxCost: nat)
      ensures Valid() && Data() == Created(attempt, maxSteps, maxCost)
    {
      this.attempt, this.maxSteps, this.maxCost := attempt, maxSteps, maxCost;
      state, spentCost, outputData, steps, events, published := QUEUED, 0, None, [], [RunCreated], [];
      leaseOwner, leaseExpiresAt, cancelRequestedAt := None, None, None;
    }

    static method Create(idempotencyKey: string, attempt: int, maxSteps: int, maxCost: nat)
        returns (run: Result<Run, CreationError>)
      ensures run.Err? <==> idempotencyKey == "" || maxSteps <= 0 || maxCost == 0 || attempt < 0
      ensures run.Ok? ==>
        fresh(run.value) && run.value.Valid() && run.value.Data() == Created(attempt, maxSteps, maxCost)
    {
      if idempotencyKey == "" {
        return Err(EmptyIdempotencyKey);
      }
      if maxSteps <= 0 {
        return Err(MaxStepsNotPositive);
      }
      if maxCost == 0 {
        return Err(MaxCostNotPositive);
      }
      if attempt < 0 {
        return Err(NegativeAttempt);
      }
      var r := new Run(attempt, maxSteps, maxCost);
      return Ok(r);
    }

    method AddEvent(e: Event)
      requires Valid()
      modifies `events
      ensures Valid() && Data() == Emit(old(Data()), e)
    {
      events := events + [e];
    }

    method TransitionTo(newState: RunState, reason: Option<string>) returns (error: Option<Error>)
      requires Valid()
      modifies `state, `events
      ensures Valid() && Done(Data(), error) == Transition(old(Data()), newState, reason)
    {
      if IsTerminal(state) {
        return Some(FromTerminalState);
      }
      if !CanTransition(state, newState) {
        return Some(InvalidTransition);
      }
      var oldState := state;
      state := newState;
      AddEvent(RunStateChanged(oldState, newState, reason));
      return None;
    }

    /** The lease comes after the transition, and may raise. */
    method StartRun(owner: string, minute: int, second: Second, duration: int) returns (error: Option<Error>)
      requires Valid()
      modifies `state, `events, `leaseOwner, `leaseExpiresAt
      ensures Valid() && Done(Data(), error) == Do(old(Data()), Start(owner, minute, second, duration))
    {
      error := TransitionTo(RUNNING, None);
      if error.None? {
        leaseOwner := Some(owner);
        if !(0 <= second + duration < 60) {
          return Some(LeaseSecondOutOfRange);
        }
        leaseExpiresAt := Some(minute + second + duration);
      }
    }

    method AskApproval() returns (error: Option<Error>)
      requires Valid()
      modifies `state, `events
      ensures Valid() && Done(Data(), error) == Do(old(Data()), RequestApproval)
    {
      error := TransitionTo(AWAITING_APPROVAL, None);
    }

    method Resume() returns (error: Option<Error>)
      requires Valid()
      modifies `state, `events
      ensures Valid() && Done(Data(), error) == Do(old(Data()), ResumeFromApproval)
    {
      error := TransitionTo(RUNNING, None);
    }

    method Retry() returns (error: Option<Error>)
      requires Valid()
      modifies `state, `events, `attempt
      ensures Valid() && Done(Data(), error) == Do(old(Data()), ScheduleRetry)
    {
      error := TransitionTo(RETRY_SCHEDULED, None);
      if error.None? {
        attempt := attempt + 1;
      }
    }

    method BackToQueue() returns (error: Option<Error>)
      requires Valid()
      modifies `state, `events
      ensures Valid() && Done(Data(), error) == Do(old(Data()), Requeue)
    {
      error := TransitionTo(QUEUED, None);
    }

    method Succeed(output: string) returns (error: Option<Error>)
      requires Valid()
      modifies `state, `events, `outputData
      ensures Valid() && Done(Data(), error) == Do(old(Data()), Complete(output))
    {
      error := TransitionTo(SUCCEEDED, None);
      if error.None? {
        outputData := Some(output);
        AddEvent(RunCompleted(output, spentCost, |steps|));
      }
    }

    method FailWith(message: string, failedStep: Option<int>) returns (error: Option<Error>)
      requires Valid()
      modifies `state, `events
      ensures Valid() && Done(Data(), error) == Do(old(Data()), Fail(message, failedStep))
    {
      error := TransitionTo(FAILED, Some(message));
      if error.None? {
        AddEvent(RunFailed(message, failedStep));
      }
    }

    method CancelRun(reason: Option<string>, at: int) returns (error: Option<Error>)
      requires Valid()
      modifies `state, `events, `cancelRequestedAt
      ensures Valid() && error == None && Done(Data(), error) == Do(old(Data()), Cancel(reason, at))
    {
      if IsTerminal(state) {
        return None;
      }
      cancelRequestedAt := Some(at);
      error := TransitionTo(CANCELLED, reason);
      AddEvent(RunCancelled(reason));
    }

    method TimeOut() returns (error: Option<Error>)
      requires Valid()
      modifies `state, `events
      ensures Valid() && error == None && Done(Data(), error) == Do(old(Data()), Timeout)
    {
      if IsTerminal(state) {
        return None;
      }
      error := TransitionTo(TIMED_OUT, None);
      AddEvent(RunTimedOut(state));
    }

    method NewStep(sequence: int, kind: StepKind) returns (error: Option<Error>)
      requires Valid()
      modifies `steps, `events
      ensures Valid() && Done(Data(), error) == Do(old(Data()), AddStep(sequence, kind))
    {
      if |steps| >= maxSteps {
        return Some(MaxStepsExceeded);
      }
      if HasStep(steps, sequence) {
        return Some(DuplicateSequence);
      }
      if sequence < 0 {
        return Some(NegativeSequence);
      }
      StepsStayGood(Data(), AddStep(sequence, kind));
      var step := Step(sequence, kind);
      steps := steps + [step];
      events := events + [RunStepCreated(step)];
      return None;
    }

    method AddCost(cost: nat) returns (error: Option<Error>)
      requires Valid()
      modifies `spentCost
      ensures Valid() && Done(Data(), error) == Do(old(Data()), RecordCost(cost))
    {
      var newTotal := spentCost + cost;
      if maxCost < newTotal {
        return Some(ExceedsMaxCost);
      }
      spentCost := newTotal;
      return None;
    }

    method AddTokenUsage(totalTokens: nat) returns (error: Option<Error>)
      requires Valid()
      modifies `spentCost
      ensures Valid() && Done(Data(), error) == Do(old(Data()), RecordTokenUsage(totalTokens))
    {
      var cost := TokenCost(totalTokens);
      if 0 < cost {
        error := AddCost(cost);
      } else {
        error := None;
      }
    }

    /** Hands over the pending events and forgets them. */
    method Collect() returns (collected: seq<Event>)
      requires Valid()
      modifies `events, `published
      ensures Valid() && Data() == Do(old(Data()), CollectEvents).run
      ensures collected == old(events)
    {
      collected := events;
      published, events := published + events, [];
    }
  }
}
