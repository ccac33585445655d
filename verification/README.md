# Agent runtime: verified core

A Dafny model of the parts of the agent runtime whose behaviour is hardest to see by reading one
function: the sliding-window rate limiter and the tool calls it guards, text chunking and truncation,
the resilience of model providers (circuit breaker, health records, fallback, retries), tool policies,
the run state machine with its budgets, and the rounding of costs.

Classes of the program are classes here, with the same fields; each of their methods is proved to take
the old state to the new one exactly as a specification function says, and the theorems are about those
functions, over every input and every sequence of operations. Frozen values and pure evaluation are
datatypes, functions and lemmas.

| file | what it models |
|---|---|
| `RateLimiter.dfy` | the two-key limiter over an expiring store, and the full log it approximates |
| `ToolProtocol.dfy` | K workers that check, execute and increment concurrently |
| `ToolExecution.dfy` | one tool call: grant, limit, approval, execution, increment |
| `Chunker.dfy`, `Normalizer.dfy` | splitting text into overlapping pieces; cutting it to a number of bytes |
| `CircuitBreaker.dfy`, `Health.dfy`, `Fallback.dfy`, `ProviderService.dfy` | provider resilience, and the service that composes it |
| `Retry.dfy` | the two retry loops, error classification and backoff |
| `Policy.dfy` | prioritized policy rules, tool grants and legacy policies |
| `Run.dfy`, `Budget.dfy`, `Money.dfy` | the run aggregate, budget enforcement, cost arithmetic |
| `Arith.dfy`, `Wrappers.dfy` | integer facts; optional values and results |

How the environment enters the model:

- Time is a parameter, on a clock that never runs backwards. The limiter counts integer ticks of a
  microsecond since the epoch; window starts are multiples of the window length. Where the program reads
  the clock several times in one step, the model takes as many readings.
- Failure rates, budget percentages and the limiter's weights are compared by exact arithmetic: rates by
  cross-multiplication, the weighted count as `current + floor(previous * (T - x) / T)`.
- Decimal amounts and backoff times are real numbers; a random draw is a fraction between 0 and 1 of its
  range. Money is a natural number of micro-units.
- What providers and tool handlers answer, and which errors they raise, are parameters of each call.
- Glob matching and expression evaluation are parameters of a policy request; an expression without a
  verdict is one whose evaluation raises. What counts as white space is a parameter of the chunker.
- The chunker is written with `half`, half a piece: a piece is `half + half` characters, and `half` is
  twice the chunk size.
- Arguments a constructor rejects are modelled by `Create` methods that return a result, or by types that
  exclude them (configuration values that must be positive).

## Findings

Properties one might expect of the program that do not hold, each with the exact condition under which
they do:

- Two window lengths used with one limiter key share counters: the limiter reads true counts, on all logs
  from any moment on, exactly when the lengths are equal (`RateLimiter.MixedWindowsExact`).
- The limit does not bound the executions of a window: it bounds every aligned window in all runs exactly
  when there is at most one worker (`ToolProtocol.AlignedLimitExactly`), and every sliding window exactly
  when nobody calls, or one worker does and windows are at most two ticks long
  (`ToolProtocol.SlidingLimitExactly`). What does hold is limit + K - 1 and twice that, and both are reached
  (`ToolProtocol.BoundsAreReached`).
- A tool call returns without raising exactly if there is no grant, or it is over its limit, or it needs no
  approval and its handler does not raise (`ToolExecution.ReturnsExactly`). A call that needs approval never
  returns: the class method that should build its result is shadowed by the slot of the field with the same
  name, so calling it raises, after the request is stored and the run moved.
- Calls of different tools are counted together, for some actions, exactly when one tool name is the other
  followed by a colon and anything (`ToolExecution.ToolsShareExactly`), as the parts of a limiter key are joined
  by colons. Tenants are never counted together, since their identifiers hold no colons
  (`ToolExecution.PlainTenantsApart`, `ToolExecution.TenantsAreIsolated`).
- An approval request is stored before the run is moved: it stays behind, unanswerable, exactly when the run
  was not running (`ToolExecution.OrphanedExactly`). Its step number is always 0, as it is looked up under a
  name that runs do not have.
- The character splitter loses the tail of some text exactly when the overlap exceeds half a piece plus 2
  (`Chunker.LosslessExactly`); the token splitter ends exactly when there are no tokens or no overlap
  (`Chunker.TokenLoopEndsExactly`), and otherwise repeats the same last tokens forever (`Chunker.TokenLoopRepeats`).
- Truncated text passes validation under the same limit exactly when the limit is absent or not negative
  (`Normalizer.TruncatedFitsExactly`).
- A half-open circuit refuses no call, although it is documented to allow only a few test calls
  (`CircuitBreaker.RefusedExactly`): their number is respected, by all histories with at most q of them
  outstanding, exactly if q is at most 1 (`CircuitBreaker.HalfOpenLimitExactly`). The window of recent outcomes
  is kept but never read; reading the rate off it would decide alike, for all configurations and histories, exactly up to 100 requests since the last
  reset (`CircuitBreaker.WindowAgreesExactly`).
- Deciding to fall back after an error spends an attempt by itself: an error leads to a fallback exactly under
  the conditions of `ProviderService.ErrorFallsBackExactly`; with fallbacks that can all stand in that is
  while two attempts are left, and the first candidate is the one invoked exactly if the next one is the same
  provider (`ProviderService.ErrorPathSkipsOneExactly`). So errors are ever helped exactly if at least two
  attempts are allowed (`ProviderService.ErrorsHelpedExactly`).
- Errors that are not worth a retry, such as a 404, still lead to a fallback; all but 400 and 401 do
  (`Retry.KindThatReachesService`).
- The order of policy rules is irrelevant exactly when the matching rules of the greatest matching priority
  are the same (`Policy.OrderIrrelevantExactly`); the legacy translation keeps its meaning exactly when no
  listed action is the empty string or everything is allowed anyway (`Policy.LegacyPreservedExactly`).
- Starting a run raises after the run has moved, unless the second of the clock and the lease duration
  together stay within the minute; with the default duration it always does (`Run.StartSucceedsExactly`).
  Every other operation that raises leaves the run as it was (`Run.ErrorsChangeNothingExactly`). The last
  state reported by a timeout event is always the timed-out one.
- Billing calls one by one charges what one bill would exactly when the rests of the exact costs add up to
  less than half a micro-unit, or to a half that one bill would round away as well
  (`Money.SplittingIsFairExactly`); the flat price
  of split tokens is the same exactly when less than a hundred tokens were ignored
  (`Money.FlatSplitExactly`).

## Model

| member | source | states |
|---|---|---|
| RateLimiter.StoreMatchesLog | app/infrastructure/security/rate_limiter.py:29-44 | for a key used with one window length, a counter is stored if and only if its window has increments, holds their number, and expires exactly two window lengths after the last of them, which is not before every read of it as previous is over |
| RateLimiter.StoreRefinesLog | app/infrastructure/security/rate_limiter.py:55-71 | at every time the current and previous counters read as the true counts of those windows, so the estimate equals that of the full log |
| RateLimiter.MixedWindowsExact | app/infrastructure/security/rate_limiter.py:29-40 | whatever moment a log starts from, two window lengths under one key are both read truly on all logs if and only if they are equal |
| RateLimiter.NoCountAhead | app/infrastructure/security/rate_limiter.py:90-94 | windows that start after every increment count nothing |
| RateLimiter.EstimateFades | app/infrastructure/security/rate_limiter.py:55-77 | without increments the estimate never rises as time passes, also across window boundaries, and is 0 from the second following window on |
| RateLimiter.DeniedKeyReopens | app/infrastructure/security/rate_limiter.py:18-21 | a denied key with a positive limit is admitted again by the start of the second following window |
| RateLimiter.SlidingWindowSplit | app/infrastructure/security/rate_limiter.py:55-77 | the last T ticks reach into two aligned windows only |
| RateLimiter.FadedPart | app/infrastructure/security/rate_limiter.py:73-77 | what rounding down leaves out of the previous window is ceil(p*x/T) |
| RateLimiter.FadedIsCeiling | app/infrastructure/security/rate_limiter.py:73-77 | the part that has faded is the least integer no less than p*x/T |
| RateLimiter.ReadExactly | app/infrastructure/security/rate_limiter.py:55-77 | for a key with one window length, counts n and p of the current and previous window and offset x, what is read off the store is n + p - ceil(p*x/T) |
| RateLimiter.WindowTicksExactly | app/infrastructure/security/rate_limiter.py:79-88 | windows last a minute, an hour or a day, and under any other name a minute |
| RateLimiter.SlidingWindowBound | app/infrastructure/security/rate_limiter.py:18-77 | an estimate of at most cap means at most cap + ceil(p*x/T), and at most 2*cap, increments in the last T ticks |
| RateLimiter.RedisRateLimiter.GetCurrentCount | app/infrastructure/security/rate_limiter.py:55-77 | for a key with one window length the count is n + p - ceil(p*x/T), of the true counts of the log |
| RateLimiter.RedisRateLimiter.CheckLimit | app/infrastructure/security/rate_limiter.py:18-21 | for a key with one window length a call is admitted if and only if n + p - ceil(p*x/T) is below the limit |
| RateLimiter.RedisRateLimiter.Increment | app/infrastructure/security/rate_limiter.py:23-53 | logs one increment, returns n + p - ceil(p*x/T) with the increment included, and leaves other keys alone |
| ToolProtocol.StepKeepsInv | app/application/services/tool_execution_service.py:90-127 | every interleaved step keeps estimate + in-flight, and every window count, within limit + K - 1 |
| ToolProtocol.OvershootBound | app/application/services/tool_execution_service.py:90-127 | in every reachable state of K workers the estimate and the calls in flight are at most limit - 1 + K, across window rollover and abandoned calls |
| ToolProtocol.SlidingWindowSafety | app/application/services/tool_execution_service.py:90-127 | in every reachable state the true sliding window holds at most limit + K - 1 + ceil(p*x/T) executions, and at most twice limit + K - 1 |
| ToolProtocol.SingleWorkerSafety | app/infrastructure/security/rate_limiter.py:18-77 | with one worker: at most limit + ceil(p*x/T), never more than 2*limit, and at most limit at a window start |
| ToolProtocol.Burst | app/application/services/tool_execution_service.py:90-127 | from a quiet moment K workers can add limit + K - 1 executions without the clock moving |
| ToolProtocol.BoundsAreReached | app/application/services/tool_execution_service.py:90-127 | both bounds are attained, for every limit and number of workers, by some run that logs nothing before any given moment |
| ToolProtocol.AlignedLimitExactly | app/application/services/tool_execution_service.py:90-127 | whatever moment runs start from, the limit bounds every aligned window in all of them if and only if there is at most one worker |
| ToolProtocol.SlidingLimitExactly | app/application/services/tool_execution_service.py:90-127 | whatever moment runs start from, the limit bounds every sliding window in all of them if and only if nobody calls, or one worker does and windows are at most two ticks long |
| ToolExecution.ScopeIsWindow | app/infrastructure/security/rate_limiter.py:79-88 | the scope of a policy's rate limit and the limiter's window of that name have the same length |
| ToolExecution.KeysAgreeExactly | app/application/services/tool_execution_service.py:92-94 | of tool, action and tenant, two calls that agree in two of them are counted under the same key if and only if they agree in the third |
| ToolExecution.TenantsShareExactly | app/application/services/tool_execution_service.py:92-94 | two tenants share a key, for some tools and actions, if and only if they are the same or one is the end of the other set off by a colon |
| ToolExecution.PlainTenantsApart | app/application/services/tool_execution_service.py:92-94 | tenants without colons, such as UUIDs, share a key if and only if they are the same |
| ToolExecution.ToolsShareExactly | app/application/services/tool_execution_service.py:92-94 | two tools share a key, for some actions, if and only if they are the same or one name is the other followed by a colon and anything |
| ToolExecution.TenantsAreIsolated | app/application/services/tool_execution_service.py:90-127 | whatever sequence of calls other tenants make, from any log on, they leave what a tenant's check reads at any time, and whether its call is turned away, as it was |
| ToolExecution.OverLimitExactly | app/application/services/tool_execution_service.py:90-98 | for a key with one window length a call is turned away if and only if its decision has a limit and n + p - ceil(p*x/T) has reached it |
| ToolExecution.ResultExactly | app/application/services/tool_execution_service.py:84-129 | for each of the seven outcomes of a call, from its grant, log, request, run and handler: it is the one if and only if |
| ToolExecution.ServiceRefinesProtocol | app/application/services/tool_execution_service.py:84-129 | any sequence of non-overlapping tool calls is a run of the protocol with one worker, whatever the grants decide and whichever handlers raise |
| ToolExecution.ServiceIsSafe | app/application/services/tool_execution_service.py:90-127 | so completed executions in any T ticks are at most limit + ceil(p*x/T), and at most 2*limit |
| ToolExecution.EnterLeaveIsCall | app/application/services/tool_execution_service.py:84-129 | a call split into its check and the rest, with nothing in between, is what the undisturbed call does to the log |
| ToolExecution.OverlappingCallsRefineProtocol | app/application/services/tool_execution_service.py:84-129 | calls that overlap in any way are a run of the protocol with as many workers as calls are ever in flight |
| ToolExecution.OverlappingCallsAreSafe | app/application/services/tool_execution_service.py:90-127 | with at most K calls in flight, estimate and calls in flight are at most limit - 1 + K, and any T ticks hold at most limit + K - 1 + ceil(p*x/T) executions |
| ToolExecution.OrphanedExactly | app/application/services/tool_execution_service.py:100-117 | an approval request is stored whether or not the run can wait; the run waits if and only if it was running; the call raises either way |
| ToolExecution.ApproverIsTold | app/application/services/tool_execution_service.py:100-112 | the stored request tells run, tool, action, resource, input and reason of the call, and 0 as the step |
| ToolExecution.ReturnsExactly | app/application/services/tool_execution_service.py:18-129 | a call returns without raising if and only if there is no grant, or it is over its limit, or it needs no approval and its handler does not raise |
| ToolExecution.CountsOrAsks | app/application/services/tool_execution_service.py:90-129 | a call counts an execution or asks an approver, never both; one that moves the run raises, and one that returns has neither asked nor moved |
| ToolExecution.ToolExecutionService.ExecuteTool | app/application/services/tool_execution_service.py:71-129 | counts the call under the key of its tool, action and tenant; the log grows exactly when a rate-limited tool ran to its end, a request is stored exactly when approval is needed within the limit, the run moves with it, and the call returns or raises as stated |
| ToolExecution.ToolExecutionService.AskApprover | app/application/services/tool_execution_service.py:100-117 | stores the request, moves the run, and then raises in every case: when the run cannot move, or else when the result is built; a request without tool or action name is neither stored nor moves the run |
| Chunker.RFindIsLast | app/infrastructure/text/chunker.py:119 | the break found is a sentence break, and no later one lies in the range |
| Chunker.EveryPieceCutWell | app/infrastructure/text/chunker.py:110-121 | every piece, for every text and overlap, ends with the text if that is within a full piece; else behind the last sentence break in its second half, if there is one; else it is full |
| Chunker.ExactOverlap | app/infrastructure/text/chunker.py:127-131 | each later piece starts exactly the overlap before its predecessor ends |
| Chunker.SpansLossless | app/infrastructure/text/chunker.py:97-133 | up to the threshold every position lies in a piece, and joining the pieces without their overlaps gives the text back |
| Chunker.StuckLosesTail | app/infrastructure/text/chunker.py:127-131 | above the threshold a witness text stops after its first piece and loses its tail |
| Chunker.LosslessExactly | app/infrastructure/text/chunker.py:97-133 | no text is lost, for all texts, if and only if the overlap is at most half a piece plus 2 |
| Chunker.PieceCount | app/infrastructure/text/chunker.py:106-131 | up to the threshold each piece but the last two advances by at least the least advance, which bounds their number |
| Chunker.SolidTextSurvives | app/infrastructure/text/chunker.py:122-125 | up to the threshold every character that is not white space is in some stripped chunk |
| Chunker.StrippedExactly | app/infrastructure/text/chunker.py:123 | stripping takes white space only, and leaves none at either end |
| Chunker.ChunksAreSolid | app/infrastructure/text/chunker.py:122-125 | every chunk is not empty, begins and ends with something other than white space, and is no longer than a piece |
| Chunker.HalfOverlapIsSafe | app/infrastructure/text/chunker.py:107-108 | an overlap ratio of at most one half loses no text, for every chunk size |
| Chunker.OverlapIsFloor | app/infrastructure/text/chunker.py:107-108 | the overlap is the ratio of the piece length, rounded down |
| Chunker.FindCut | app/infrastructure/text/chunker.py:113-121 | cuts after the last sentence break, if it lies beyond half the piece |
| Chunker.SplitAt | app/infrastructure/text/chunker.py:106-133 | the loop returns the stripped non-empty pieces, in order, for every overlap |
| Chunker.TextChunker.ChunkFallback | app/infrastructure/text/chunker.py:97-133 | the same for the piece length and overlap derived from the chunk size and ratio |
| Chunker.TextChunker.Create | app/infrastructure/text/chunker.py:34-41 | a chunker exists if and only if its size is within 100..1000 and its ratio within [0, 1) |
| Chunker.TokenLoopSticks | app/infrastructure/text/chunker.py:82-93 | with an overlap the loop reaches len - overlap and stays there, its guard true forever |
| Chunker.TokenLoopEndsExactly | app/infrastructure/text/chunker.py:82-93 | some number of turns ends the loop if and only if there are no tokens or no overlap |
| Chunker.TokenLoopRepeats | app/infrastructure/text/chunker.py:82-93 | once it is stuck every turn adds the same last tokens again: as many as overlap, or, where the start counts from the back, as it falls out |
| Chunker.TokenPiecesPartition | app/infrastructure/text/chunker.py:82-95 | without overlap the pieces so far, joined, are exactly the tokens up to where the loop stands |
| Chunker.ChunkTokens | app/infrastructure/text/chunker.py:78-95 | within any budget of turns the loop ends exactly when the specification does, with its pieces |
| Normalizer.SizeIsEncodedLength | app/infrastructure/text/normalizer.py:53 | the size of a prefix is the length of its UTF-8 encoding (section 3 of RFC 3629) |
| Normalizer.EncodingDecodes | app/infrastructure/text/normalizer.py:53 | the UTF-8 form of every character can be read back and has as many bytes as it counts for (section 3 of RFC 3629) |
| Normalizer.AcceptedExactly | app/infrastructure/text/normalizer.py:52-56 | a positive size is itself the limit, zero or none means 100000, and a negative one accepts nothing and truncates to nothing |
| Normalizer.ValidateSize | app/infrastructure/text/normalizer.py:39-58 | accepts if and only if the encoded size is within the limit, a limit of zero or none meaning the default |
| Normalizer.Truncate | app/infrastructure/text/normalizer.py:60-85 | the binary search returns the specified prefix |
| Normalizer.TruncatedIsLongestPrefix | app/infrastructure/text/normalizer.py:76-85 | for a positive limit the result is the longest prefix of whole characters that fits, and uses more than limit - 4 bytes whenever it cuts |
| Normalizer.TruncateIdempotent | app/infrastructure/text/normalizer.py:60-85 | truncating again changes nothing |
| Normalizer.TruncatedFitsExactly | app/infrastructure/text/normalizer.py:39-85 | truncated text passes validation with the same limit, for all texts, if and only if the limit is absent or not negative |
| CircuitBreaker.RefusedExactly | app/infrastructure/providers/circuit_breaker.py:131-151 | in every reachable state a request is refused if and only if the circuit is open and its timeout has not elapsed |
| CircuitBreaker.ProbedExactly | app/infrastructure/providers/circuit_breaker.py:131-151 | asking moves an open circuit to half-open if and only if the timeout has elapsed, however long ago, and otherwise changes nothing |
| CircuitBreaker.RecoversExactly | app/infrastructure/providers/circuit_breaker.py:91-151 | from every reachable open state, a probe at any time no earlier than the timeout, then successes with any probes between, close the circuit if and only if they are at least as many as configured, and leave it half-open otherwise |
| CircuitBreaker.LateOutcomes | app/infrastructure/providers/circuit_breaker.py:100-129 | a failure reopens a half-open circuit for another timeout; an outcome that reaches an open one changes neither state nor timeout |
| CircuitBreaker.AdmittedBound | app/infrastructure/providers/circuit_breaker.py:100-149 | a half-open period admits at most the configured number less one, and the calls outstanding |
| CircuitBreaker.HalfOpenLimitExactly | app/infrastructure/providers/circuit_breaker.py:100-149 | the number of test calls is respected by all histories with at most q outstanding if and only if q is at most 1 |
| CircuitBreaker.OpenSince | app/infrastructure/providers/circuit_breaker.py:191-207 | an open circuit was opened by a failure, and remembers the clock reading taken when it opened |
| CircuitBreaker.HalfOpenSince | app/infrastructure/providers/circuit_breaker.py:209-223 | a half-open circuit was probed no earlier than its timeout allows, and has counted every success since, without a failure |
| CircuitBreaker.ClosingEpisode | app/infrastructure/providers/circuit_breaker.py:91-151 | a circuit closes only after the timeout, then a probe, then exactly the configured number of half-open successes with no failure between |
| CircuitBreaker.StreakOpensExactly | app/infrastructure/providers/circuit_breaker.py:153-177 | a streak of failures has opened a closed circuit if and only if the lifetime totals with it meet the threshold and the minimum |
| CircuitBreaker.OpensAtTripPoint | app/infrastructure/providers/circuit_breaker.py:114-129 | from a fresh breaker with threshold num/den < 1 and s successes, it opens at failure max(1, minimum - s, ceil(num*s/(den-num))), never earlier |
| CircuitBreaker.FullThreshold | app/infrastructure/providers/circuit_breaker.py:153-177 | with threshold 1 a streak of failures opens a closed circuit if and only if no success was ever recorded and the minimum is reached |
| CircuitBreaker.OneSuccessProtects | app/infrastructure/providers/circuit_breaker.py:153-177 | with threshold 1 a recorded success keeps a closed circuit closed through every sequence of events without a reset |
| CircuitBreaker.WindowAgreesExactly | app/infrastructure/providers/circuit_breaker.py:73-177 | the rate of the recent window and the lifetime rate decide alike, for every config and every history of n requests since the reset, if and only if n is at most 100 |
| CircuitBreaker.MetricsRefineHistory | app/infrastructure/providers/circuit_breaker.py:91-121 | totals are counts, consecutive counters trailing run lengths, and the window the last 100 outcomes, of the history since the last reset |
| CircuitBreaker.TimesRefineHistory | app/infrastructure/providers/circuit_breaker.py:91-121 | the times of the last success and failure are those of the last ones since the reset |
| CircuitBreaker.ResetForgets | app/infrastructure/providers/circuit_breaker.py:242-258 | after a reset nothing that came before plays a part |
| CircuitBreaker.CircuitBreaker.RecordSuccess | app/infrastructure/providers/circuit_breaker.py:91-112 | the breaker after a success |
| CircuitBreaker.CircuitBreaker.RecordFailure | app/infrastructure/providers/circuit_breaker.py:114-129 | the breaker after a failure |
| CircuitBreaker.CircuitBreaker.Ask | app/infrastructure/providers/circuit_breaker.py:131-151 | the answer, and the move to half-open that asking an open circuit makes |
| CircuitBreaker.CircuitBreaker.ResetAll | app/infrastructure/providers/circuit_breaker.py:242-258 | a reset breaker is as good as new |
| Health.RecordRefinesChecks | app/infrastructure/providers/health.py:39-60 | healthy means the last check was; totals are the numbers of checks of each outcome, consecutive counters their trailing run lengths; the times are those of the last check and of the last one of either outcome |
| Health.SamplesAreLatest | app/infrastructure/providers/health.py:62-66 | the samples are the last 100 latencies in order, and the average is kept up to date with them |
| Health.AverageIsMean | app/infrastructure/providers/health.py:66 | the average times the number of kept samples is what the latest checks took altogether |
| Health.AverageBetween | app/infrastructure/providers/health.py:66 | the average latency lies between the shortest and the longest of the kept latencies |
| Health.ProviderHealth.RecordCheck | app/infrastructure/providers/health.py:39-66 | the record after a check |
| Health.ProviderHealthMonitor.RegisterProvider | app/infrastructure/providers/health.py:94-102 | registering adds an unchecked record and never touches an existing one |
| Health.ProviderHealthMonitor.RecordHealthCheck | app/infrastructure/providers/health.py:104-124 | changes one record only, registering the provider if needed |
| Fallback.RoundRobin | app/infrastructure/providers/fallback.py:126-169 | the k-th selection of a round is fallback number k mod n |
| Fallback.ReasonExactly | app/infrastructure/providers/fallback.py:100-124 | which reason is given if and only if: the open circuit before the error, and the error only if it is fallbackable |
| Fallback.FallbackHandler.GetFallbackProvider | app/infrastructure/providers/fallback.py:126-169 | grants the next selection of the round if the budget allows one, and counts it |
| Fallback.FallbackHandler.ShouldFallback | app/infrastructure/providers/fallback.py:58-124 | the decision, and the selection it spends if and only if the error is fallbackable |
| Fallback.FallbackHandler.CreateFallbackDecision | app/infrastructure/providers/fallback.py:269-296 | recommends the selected provider if and only if it is usable, and spends the selection either way |
| Fallback.FallbackHandler.ResetFallbackCount | app/infrastructure/providers/fallback.py:242-250 | forgets one primary's count only |
| ProviderService.AtMostTwoProviders | app/application/services/provider_service.py:84-171 | a call invokes at most two providers, the second a different, configured and registered fallback; the primary if and only if it is not refused |
| ProviderService.RepliesExactly | app/application/services/provider_service.py:110-171 | for each reply, if and only if: the answer of the primary if it is invoked and responds; that of a fallback if one is invoked and responds; whose error is raised; unavailable; no such provider |
| ProviderService.DefaultIsAsked | app/application/services/provider_service.py:103-111 | a call that names no provider, or the empty name, is a call of the configured primary |
| ProviderService.RefusalFailsFast | app/application/services/provider_service.py:115-129 | a refusal by an open circuit changes no breaker and no health record |
| ProviderService.SelectionsMade | app/application/services/provider_service.py:115-171 | how many selections a call makes on each of its paths |
| ProviderService.CallSpends | app/application/services/provider_service.py:206-264 | a fallback on an open circuit costs its primary one attempt, one after an error costs two; other primaries pay nothing |
| ProviderService.ErrorFallsBackExactly | app/application/services/provider_service.py:142-171 | when an error leads to a fallback, for all inputs, if and only if: two successive candidates have to be usable, and the second, which is the one invoked, registered |
| ProviderService.OpenCircuitFallsBackExactly | app/application/services/provider_service.py:115-129 | when an open circuit leads to a fallback, if and only if, and to which |
| ProviderService.ErrorPathSkipsOneExactly | app/application/services/provider_service.py:154-168 | with fallbacks that can all stand in, an error leads to one if and only if two attempts are left, and to the first candidate if and only if the next one is the same |
| ProviderService.ErrorsHelpedExactly | app/application/services/provider_service.py:142-171 | some sequence of calls answers an error by a fallback if and only if at least two attempts are allowed |
| ProviderService.SelectionsGoRound | app/infrastructure/providers/fallback.py:126-169 | over any sequence of calls the k-th selection granted to a primary is fallback k mod n, and all of them are counted |
| ProviderService.InvokedIsGranted | app/application/services/provider_service.py:206-264 | the fallback a call invokes is the last selection it was granted |
| ProviderService.FallbackBudget | app/application/services/provider_service.py:115-171 | over any sequence of calls, per primary, 2*E + O is at most the maximum number of attempts |
| ProviderService.FallbackRecordsNothing | app/application/services/provider_service.py:206-270 | falling back touches neither breakers nor health records |
| ProviderService.BreakerFollowsCalls | app/application/services/provider_service.py:115-152 | after any registrations, calls and resets, the breaker of a provider is where the events of its own calls since its registration bring a fresh one, so what is proved about breakers holds for it |
| ProviderService.RefusedInService | app/application/services/provider_service.py:115-129 | so after any operations a provider is refused if and only if it has a breaker that is open and was opened less than its timeout ago |
| ProviderService.HealthFollowsCalls | app/application/services/provider_service.py:131-152 | after any operations the health record of a provider holds the outcomes of its own calls, in order, and no others |
| ProviderService.EnlistedExactly | app/application/services/provider_service.py:50-82 | after any operations a provider is known, and has a health record, if and only if it was registered; it has a breaker if and only if some registration had a config, and then with the latest one |
| ProviderService.CompleteKeepsAgreement | app/application/services/provider_service.py:131-152 | a call keeps every provider's breaker and health record in agreement on totals and streaks, the breaker's times no later |
| ProviderService.BreakerAgreesWithHealth | app/application/services/provider_service.py:131-152 | over any sequence of registrations, calls and resets, totals, streaks and window lengths of breaker and health record agree until a reset or re-registration, and the last times of the breaker are no later |
| ProviderService.ProviderService.RegisterProvider | app/application/services/provider_service.py:50-82 | the service after a registration |
| ProviderService.ProviderService.Record | app/application/services/provider_service.py:131-152 | one outcome goes to the provider's breaker, then to its health record, each with its own clock readings, and to no other |
| ProviderService.ProviderService.FallBack | app/application/services/provider_service.py:206-270 | one more selection, and a call of it if it is usable and registered |
| ProviderService.ProviderService.CompleteRequest | app/application/services/provider_service.py:84-171 | breakers, records, counts, invoked providers and reply after a call, on every path; the reply as stated by RepliesExactly |
| ProviderService.ProviderService.ResetCircuitBreaker | app/application/services/provider_service.py:327-340 | resets one breaker and reports whether there was one |
| Retry.ClassificationsAgree | app/infrastructure/providers/retry.py:52-129 | both classifications retry the same errors and name them alike except lost connections |
| Retry.KindThatReachesService | app/infrastructure/providers/base.py:179-274 | which error kind the service sees after classification and exception mapping; all but 400 and 401 lead to a fallback |
| Retry.SucceedsExactly | app/infrastructure/providers/retry.py:178-227 | a request succeeds if and only if an allowed attempt does with only transient errors before it |
| Retry.BackoffWithinCap | app/infrastructure/providers/retry.py:132-148 | every wait lies between 0 and its cap, and caps never shrink |
| Retry.JitterIsUniform | app/infrastructure/providers/retry.py:145-147 | with jitter equal steps of the draw are equal steps of the wait, from nothing to the cap; without it the wait is the cap |
| Retry.JitterSpansExactly | app/infrastructure/providers/retry.py:145-147 | a wait is drawn somewhere if and only if it lies between nothing and the cap |
| Retry.DelayBounded | app/infrastructure/providers/retry.py:132-148 | n waits together are at most n*max and at most initial*(m^n - 1)/(m - 1) |
| Retry.GeometricBoundAttained | app/infrastructure/providers/base.py:276-295 | without jitter the geometric bound is attained while no wait is capped |
| Retry.FlatBoundAttained | app/infrastructure/providers/base.py:276-295 | without jitter the flat bound is attained when the first wait is capped |
| Retry.ExecuteWithRetry | app/infrastructure/providers/retry.py:157-227 | makes min(max_retries + 1, index of the first final outcome + 1) attempts, waits the backoffs between them, and passes on the last outcome |
| Retry.BaseComplete | app/infrastructure/providers/base.py:75-139 | makes as many attempts and waits as long, and raises the exception for the last error |
| Policy.SubsumesExactly | app/domain/value_objects/policy.py:117-140 | a condition matches all requests that another one matches if and only if each of its parts is absent, empty or the same as the other's |
| Policy.EffectMeaning | app/domain/value_objects/policy.py:156-211 | approval overrules allowing and denying, and the reason says which; the rate limit is that of the shortest scope that has a nonzero one, and absent on denial |
| Policy.SortIsStable | app/domain/value_objects/policy.py:108 | the sort is a stable order of all rules by descending priority |
| Policy.AnyStableSortFindsBest | app/domain/value_objects/policy.py:98-114 | first match in any stable order is the matching rule of greatest priority and least index, else the default |
| Policy.EvaluateFindsBest | app/domain/value_objects/policy.py:98-114 | the same for the evaluator, with the rule as witness |
| Policy.NothingExcludesAMatch | app/domain/value_objects/policy.py:125-140 | a rule matches if and only if none of three reasons excludes it: another action, a glob without the named resource, an expression without a true verdict |
| Policy.DeletingExcluded | app/domain/value_objects/policy.py:98-140 | deleting any rules that one of these reasons excludes never changes the decision |
| Policy.DecidedByLiveRules | app/domain/value_objects/policy.py:98-140 | the decision is that of the first rule of the greatest priority among those that nothing excludes, else the default |
| Policy.TrueVerdictAdds | app/domain/value_objects/policy.py:130-139 | finding an expression true only adds matching rules: exactly those with that expression that nothing else excludes |
| Policy.MatchingGlobAdds | app/domain/value_objects/policy.py:127-129 | one more glob that matches the named resource only adds matching rules: exactly those with that glob that nothing else excludes |
| Policy.AddingARule | app/domain/value_objects/policy.py:108-114 | a rule added anywhere decides if and only if it matches and comes before every match; otherwise the decision is unchanged |
| Policy.OrderIrrelevantExactly | app/domain/value_objects/policy.py:108-114 | every permutation of the rules gives the same decision if and only if the top matching rules are equal |
| Policy.DistinctPrioritiesSuffice | app/domain/value_objects/policy.py:108-114 | distinct priorities of matching rules make every permutation decide alike |
| Policy.LegacyDecision | app/domain/entities/tool_grant.py:64-103 | what a translated legacy policy allows, for every request; resources play no part |
| Policy.LegacySpelledOut | app/domain/entities/tool_grant.py:74-96 | a list alone allows what it lists and no more; neither list nor default allows everything; a given default holds for whatever is not listed |
| Policy.LegacyPreservedExactly | app/domain/entities/tool_grant.py:74-96 | the translation keeps the legacy meaning for all requests if and only if no listed action is empty or everything is allowed by default |
| Policy.ToolGrant.Evaluate | app/domain/entities/tool_grant.py:43-52 | an inactive grant denies everything without approval, rule or rate limit, and says so; an active one decides by the best matching rule of its policy, else by the default |
| Policy.ToolGrant.FromLegacyDict | app/domain/entities/tool_grant.py:64-103 | builds the translation rule by rule; fails if and only if the tool name is blank |
| Policy.ToolGrant.UpdatePolicy | app/domain/entities/tool_grant.py:36-41 | replaces the policy and nothing else |
| Run.TerminalExactly | app/domain/value_objects/state.py:20-28 | a state is terminal if and only if no transition leaves it |
| Run.ReachesExactly | app/domain/value_objects/state.py:46-79 | some operations lead to a state if and only if the run has not ended or is in that state; so a run that has not ended can always still succeed |
| Run.CancelAndTimeoutNeverRaise | app/domain/entities/run.py:135-160 | cancelling and timing out never raise and end the run |
| Run.ErrorsChangeNothingExactly | app/domain/entities/run.py:64-90 | an operation that raises leaves the run as it was if and only if it is not a start that fails to compute its lease |
| Run.EnabledExactly | app/domain/entities/run.py:84-133 | in which states each operation is legal, if and only if |
| Run.EndIsLogged | app/domain/entities/run.py:109-133 | completing stores the output and logs it with the cost and number of steps so far; failing logs the error and the step; both log the change of state before |
| Run.StopIsLogged | app/domain/entities/run.py:135-160 | cancelling keeps the time of the request and logs the reason, timing out logs the end; on ended runs they change nothing |
| Run.StepAddedExactly | app/domain/entities/run.py:178-206 | a step is added, as the last and logged, if and only if there is room and its number is new and not negative |
| Run.StartSucceedsExactly | app/domain/entities/run.py:84-90 | a start succeeds if and only if it is legal and second plus duration stay within the minute, and then sets the lease to that second; with the default duration never, though the run moves and its lease has an owner |
| Run.LogTellsStory | app/domain/entities/run.py:64-160 | for every sequence of operations, the state changes logged are a connected legal path from QUEUED to the current state, retries are counted, exactly one matching end is announced if and only if the run has ended, and the steps are those logged |
| Run.TerminalAbsorbs | app/domain/entities/run.py:66-67 | no operations change state, attempt or output of an ended run |
| Run.OutputExactly | app/domain/entities/run.py:109-121 | in every reachable run there is an output if and only if it has succeeded |
| Run.SuccessIsCompletion | app/domain/entities/run.py:109-121 | a run that has succeeded was completed while running, still has that output, and its log still tells the output, the costs accepted before and the number of steps then |
| Run.EventsAreConserved | app/domain/entities/base.py:44-52 | collected and pending events together only grow at the end; each is handed out once, in order |
| Run.SpendingExactly | app/domain/entities/run.py:212-232 | a cost is rejected if and only if it exceeds what is left |
| Run.SpendingIsConserved | app/domain/entities/run.py:212-218 | after any operations the spent cost has grown by exactly the accepted costs and is within the maximum |
| Run.BudgetsHold | app/domain/entities/run.py:178-218 | in every reachable run, spent is the sum of accepted costs and at most the maximum; step numbers are distinct, non-negative and at most max_steps many |
| Run.Run.Create | app/domain/entities/run.py:44-62 | a run is created if and only if its arguments are acceptable, and starts queued with one event |
| Run.Run.TransitionTo | app/domain/entities/run.py:64-82 | moves and logs exactly when the transition is legal |
| Run.Run.StartRun | app/domain/entities/run.py:84-90 | moves the run, then sets the lease, or raises where the new second is out of range |
| Run.Run.AskApproval | app/domain/entities/run.py:92-94 | requesting approval |
| Run.Run.Resume | app/domain/entities/run.py:96-98 | resuming from approval |
| Run.Run.Retry | app/domain/entities/run.py:100-103 | scheduling a retry counts an attempt only if it is legal |
| Run.Run.BackToQueue | app/domain/entities/run.py:105-107 | requeueing |
| Run.Run.Succeed | app/domain/entities/run.py:109-121 | completing stores the output and announces cost and number of steps |
| Run.Run.FailWith | app/domain/entities/run.py:123-133 | failing |
| Run.Run.CancelRun | app/domain/entities/run.py:135-147 | cancelling, with the time of the request; idempotent on ended runs |
| Run.Run.TimeOut | app/domain/entities/run.py:149-160 | timing out, idempotent on ended runs; the event carries the state after the transition |
| Run.Run.NewStep | app/domain/entities/run.py:178-206 | adds a step if and only if there is room and its number is new and not negative |
| Run.Run.AddCost | app/domain/entities/run.py:212-218 | records a cost if and only if it fits |
| Run.Run.AddTokenUsage | app/domain/entities/run.py:220-232 | records the flat price of tokens, if there is one |
| Run.Run.Collect | app/domain/entities/base.py:48-52 | hands over the pending events and forgets them |
| Budget.VerdictExactly | app/application/services/budget_service.py:83-187 | which verdict a check gives, in which order, and when it leaves the run untouched |
| Budget.NearExactly | app/application/services/budget_service.py:110-112 | a warning is due if and only if the spent cost is at least the threshold percent of the maximum |
| Budget.RemaindersExactly | app/application/services/budget_service.py:83-187 | what is reported as left makes up, with what is used and asked for, the whole budget, steps and time of an allowed cost |
| Budget.NoticesExactly | app/application/services/budget_service.py:86-180 | for every notice and its figures, a check gives it if and only if |
| Budget.CheckIsNotices | app/application/services/budget_service.py:83-187 | a check only adds notices, so every theorem about runs holds with checks interspersed |
| Budget.RecordSpentIsOperations | app/application/services/budget_service.py:246-296 | recording is a run operation and, if and only if it is accepted, a notice with the cost and the new total |
| Budget.AllowedCheckHolds | app/application/services/budget_service.py:83-187 | an allowed cost can be recorded right after the check, and later if and only if what was accepted in between fits the remaining budget the check reported |
| Budget.BudgetService.CheckRunBudget | app/application/services/budget_service.py:64-187 | the check of a stored run; no subtraction of money fails; a missing run is denied |
| Budget.BudgetService.RecordSpentCost | app/application/services/budget_service.py:246-296 | records with a notice if the run accepts the cost; a missing run is ignored |
| Budget.BudgetService.RecordProviderUsage | app/application/services/budget_service.py:298-319 | prices the tokens, by default at 0.01 and 0.02, and records what is positive; negative tokens record nothing, and a missing run is ignored |
| Budget.BudgetService.GetRemainingBudget | app/application/services/budget_service.py:354-367 | the difference of maximum and spent cost, which is never negative |
| Money.CostIsNear | app/domain/providers/value_objects.py:78-99 | the billed cost is the exact one rounded half to even, within half a micro-unit |
| Money.PriceOfAMillion | app/domain/providers/value_objects.py:78-99 | the prices are for a million prompt and a million completion tokens |
| Money.CostIsMonotone | app/domain/providers/value_objects.py:78-99 | with non-negative prices more tokens never cost less |
| Money.SplittingBills | app/domain/providers/value_objects.py:78-99 | n separate bills and one bill for the same tokens differ by at most (n + 1)/2 |
| Money.SplittingIsFairExactly | app/domain/providers/value_objects.py:78-99 | for all prices and usages, separate bills charge what one bill would if and only if the rests of the exact costs add up to less than half a micro-unit, or to a half that one bill would round away as well |
| Money.SmallCallsAreFree | app/domain/providers/value_objects.py:98-99 | how large the difference grows: calls at half a micro-unit are free one by one, however many, but not together |
| Money.FromDecimalExactly | app/domain/value_objects/money.py:21-25 | an amount is accepted if and only if it rounds to no less than zero, and which number of micro-units it becomes, if and only if |
| Money.DecimalRoundTrip | app/domain/value_objects/money.py:21-34 | from_decimal inverts to_decimal; to_decimal inverts from_decimal if and only if the amount is a whole non-negative number of micro-units |
| Money.FlatPriceOfSplit | app/domain/entities/run.py:220-232 | splitting tokens into n records never overcharges and undercharges by at most n - 1 |
| Money.FlatSplitExactly | app/domain/entities/run.py:220-232 | splitting tokens undercharges by the full hundreds of ignored tokens, so not at all if and only if fewer than a hundred were ignored |
| Money.FlatSplitAttained | app/domain/entities/run.py:229 | the largest undercharge, n - 1, is attained |

## Left out

- Success rate of health records and failure rates for display: derived numbers nothing depends on.
- `get_status` of the breaker, overall health reports and service status: they only format state.
- Metrics as a shared object: the breaker hands out its metrics object itself; here it is a value.
- `require_same_data_residency` and capability classes: configured but never read.
- Several service calls in flight at once: `ProviderService` is modelled one call after the other; only tool calls are interleaved.
- Floating-point rounding of weights, rates, backoff and percentages; wall-clock skew and daylight saving in window keys.
- `reset_at` of a rate limit, time stamps and notifications of approval requests, and what a tool returns: outputs no later step reads.
- Unicode normalization, control-character removal and lone surrogates; the tokenizer's own encoding and decoding.
- `Retry-After` headers, which are parsed and dropped; log messages and tracing.
- Renewing a lease and asking whether it is valid, and creation and update time stamps.
- Registering a provider with an empty name, which the breaker's constructor rejects.
- The life cycle of a run step after it was added, and runs restored from the database with costs or events of their own; the SQL repository is not part of this model.
- Tenant budgets, which are floating-point fields of the tenant.
- Malformed legacy policies whose lists are missing or of another type; their `allowed_resources` list is kept but, as in the code, unused.
- Cost of tokens outside decimal precision: all decimal operations but the final rounding are exact.
- The `awaiting_approval` flag of results, whose default is the shadowed method instead of false.
- Whether a decision that does not allow a call stops it: the tool service never tests `allowed`, so nothing is stated about it.
