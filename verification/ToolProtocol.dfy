/**
 Workers that call the same rate-limited tool concurrently.

 Each call checks the limiter, runs the tool, and only then increments the counter.  The three parts
 of different workers interleave freely, time passes between them, and calls that wait for approval
 or whose handler raises never increment.  The states below are the shared log of increments, the
 clock, and the set of workers that have passed the check and not yet finished.
*/
module ToolProtocol {
  import opened Arith
  import opened Wrappers
  import opened RateLimiter

  datatype Config = Config(key: string, T: Ticks, limit: Pos, workers: set<nat>) {
    /** The most that K workers can admit to one aligned window: limit + K - 1. */
    function Cap(): nat {
      limit + |workers| - 1
    }
  }

  datatype State = State(log: seq<Hit>, now: nat, inflight: set<nat>)

  datatype Step =
    | Tick(until: nat)
    | Check(worker: nat)
    | Abandon(worker: nat)  // approval is required, or the tool handler raises
    | Finish(worker: nat)   // the tool ran; the counter is incremented
    | Foreign(key: string, window: Ticks)  // an increment of some other limiter key

  predicate Enabled(c: Config, s: State, e: Step) {
    match e
    case Tick(until) => s.now <= until
    case Check(w) => w in c.workers && w !in s.inflight
    case Abandon(w) => w in s.inflight
    case Finish(w) => w in s.inflight
    case Foreign(key, _) => key != c.key
  }

  function Apply(c: Config, s: State, e: Step): State {
    match e
    case Tick(until) => s.(now := until)
    case Check(w) =>
      if Estimate(Replay(s.log), c.key, c.T, s.now) < c.limit
      then s.(inflight := s.inflight + {w})
      else s
    case Abandon(w) => s.(inflight := s.inflight - {w})
    case Finish(w) => s.(log := s.log + [Hit(c.key, c.T, s.now)], inflight := s.inflight - {w})
    case Foreign(key, window) => s.(log := s.log + [Hit(key, window, s.now)])
  }

  const INITIAL := State([], 0, {})

  function Run(c: Config, steps: seq<Step>): Option<State> {
    if steps == [] then Some(INITIAL)
    else
      match Run(c, steps[..|steps| - 1])
      case None => None
      case Some(s) =>
        var e := steps[|steps| - 1];
        if Enabled(c, s, e) then Some(Apply(c, s, e)) else None
  }

  ghost predicate Reachable(c: Config, s: State) {
    exists steps :: Run(c, steps) == Some(s)
  }

  // ------------------------------------------------------------------ the invariant

  ghost predicate Inv(c: Config, s: State) {
    && s.inflight <= c.workers
    && SingleWindow(s.log, c.key, c.T)
    && NoLaterThan(s.log, s.now)
    && LogEstimate(s.log, c.key, c.T, s.now) + |s.inflight| <= c.Cap()
    && forall start :: Count(s.log, c.key, c.T, start) <= c.Cap()
  }

  lemma SubsetSize(a: set<nat>, b: set<nat>)
    requires a <= b
    ensures |a| <= |b|
  {
    assert b == a + (b - a);
  }

  lemma CountAppend(log: seq<Hit>, h: Hit, key: string, T: Ticks, start: int)
    ensures Count(log + [h], key, T, start) == Count(log, key, T, start)
      + if h.key == key && h.window == T && WindowStart(h.at, T) == start then 1 else 0
  {
    assert (log + [h])[..|log|] == log;
  }

  lemma EstimateAppend(log: seq<Hit>, h: Hit, key: string, T: Ticks)
    requires h.key == key ==> h.window == T
    ensures LogEstimate(log + [h], key, T, h.at)
         == LogEstimate(log, key, T, h.at) + if h.key == key then 1 else 0
  {
    var start := WindowStart(h.at, T);
    CountAppend(log, h, key, T, start);
    CountAppend(log, h, key, T, start - T);
  }

  lemma StepKeepsInv(c: Config, s: State, e: Step)
    requires Inv(c, s) && Enabled(c, s, e)
    ensures Inv(c, Apply(c, s, e))
  {
    var s' := Apply(c, s, e);
    match e
    case Tick(until) =>
      EstimateFades(s.log, c.key, c.T, s.now, until);
    case Check(w) =>
      StoreRefinesLog(s.log, c.key, c.T, s.now);
      SubsetSize(s'.inflight, c.workers);
    case Abandon(w) =>
      SubsetSize(s'.inflight, s.inflight);
    case Finish(w) =>
      AppendKeepsInv(c, s, Hit(c.key, c.T, s.now), s');
    case Foreign(key, window) =>
      AppendKeepsInv(c, s, Hit(key, window, s.now), s');
  }

  lemma AppendKeepsInv(c: Config, s: State, h: Hit, s': State)
    requires Inv(c, s)
    requires h.at == s.now && (h.key == c.key ==> h.window == c.T)
    requires s'.log == s.log + [h] && s'.now == s.now && s'.inflight <= s.inflight
    requires |s'.inflight| == |s.inflight| - if h.key == c.key then 1 else 0
    ensures Inv(c, s')
  {
    EstimateAppend(s.log, h, c.key, c.T);
    forall start ensures Count(s'.log, c.key, c.T, start) <= c.Cap() {
      CountAppend(s.log, h, c.key, c.T, start);
    }
  }

  lemma {:induction false} RunKeepsInv(c: Config, steps: seq<Step>)
    requires Run(c, steps).Some?
    ensures Inv(c, Run(c, steps).value)
  {
    if steps == [] {
      ShareOfNothing(0, c.T);
    } else {
      RunKeepsInv(c, steps[..|steps| - 1]);
      StepKeepsInv(c, Run(c, steps[..|steps| - 1]).value, steps[|steps| - 1]);
    }
  }

  lemma RunInv(c: Config, s: State)
    requires Reachable(c, s)
    ensures Inv(c, s)
  {
    var steps :| Run(c, steps) == Some(s);
    RunKeepsInv(c, steps);
  }

  // ------------------------------------------------------------------ safety over whole runs

  /** With K workers, in every reachable state the estimate and the calls in flight together stay
      within limit - 1 + K, and so does every aligned window. */
  lemma OvershootBound(c: Config, s: State)
    requires Reachable(c, s)
    ensures LogEstimate(s.log, c.key, c.T, s.now) + |s.inflight| <= c.limit - 1 + |c.workers|
    ensures Count(s.log, c.key, c.T, WindowStart(s.now, c.T)) + |s.inflight| <= c.limit - 1 + |c.workers|
    ensures forall start :: Count(s.log, c.key, c.T, start) <= c.limit - 1 + |c.workers|
  {
    RunInv(c, s);
  }

  /** The true sliding window: in every reachable state, with `p` admissions in the previous window and
      at offset `x`, the last `T` ticks saw at most limit + K - 1 + ceil(p*x/T) admissions, and so never
      more than twice limit + K - 1. */
  lemma SlidingWindowSafety(c: Config, s: State)
    requires Reachable(c, s)
    ensures SlidesWithin(s.log, c.key, c.T, s.now, c.limit + |c.workers| - 1)
  {
    RunInv(c, s);
    SlidingWindowBound(s.log, c.key, c.T, s.now, c.Cap());
  }

  /** A single worker's calls are admitted one after the other, so the limit itself is the cap. */
  lemma SingleWorkerSafety(c: Config, s: State, w: nat)
    requires Reachable(c, s) && c.workers == {w}
    ensures SlidesWithin(s.log, c.key, c.T, s.now, c.limit)
  {
    assert c.Cap() == c.limit;
    SlidingWindowSafety(c, s);
  }

  // ------------------------------------------------------------------ the bounds are reached

  lemma Extend(c: Config, s: State, e: Step)
    requires Reachable(c, s) && Enabled(c, s, e)
    ensures Reachable(c, Apply(c, s, e))
    ensures Inv(c, s)
  {
    var steps :| Run(c, steps) == Some(s);
    RunInv(c, s);
    assert (steps + [e])[..|steps|] == steps;
    assert Run(c, steps + [e]) == Some(Apply(c, s, e));
  }

  function Repeat(log: seq<Hit>, h: Hit, n: nat): seq<Hit> {
    if n == 0 then log else Repeat(log, h, n - 1) + [h]
  }

  lemma {:induction false} RepeatFront(log: seq<Hit>, h: Hit, n: nat)
    ensures Repeat(log + [h], h, n) == Repeat(log, h, n + 1)
  {
    if n > 0 {
      RepeatFront(log, h, n - 1);
    }
  }

  lemma {:induction false} RepeatEstimate(log: seq<Hit>, h: Hit, n: nat)
    ensures LogEstimate(Repeat(log, h, n), h.key, h.window, h.at)
         == LogEstimate(log, h.key, h.window, h.at) + n
  {
    if n > 0 {
      RepeatEstimate(log, h, n - 1);
      EstimateAppend(Repeat(log, h, n - 1), h, h.key, h.window);
    }
  }

  lemma {:induction false} RepeatCount(log: seq<Hit>, h: Hit, n: nat, start: int)
    ensures Count(Repeat(log, h, n), h.key, h.window, start)
         == Count(log, h.key, h.window, start) + if WindowStart(h.at, h.window) == start then n else 0
  {
    if n > 0 {
      RepeatCount(log, h, n - 1, start);
      CountAppend(Repeat(log, h, n - 1), h, h.key, h.window, start);
    }
  }

  lemma {:induction false} RepeatWithin(log: seq<Hit>, h: Hit, n: nat, after: int, upTo: int)
    ensures Within(Repeat(log, h, n), h.key, after, upTo)
         == Within(log, h.key, after, upTo) + if after < h.at <= upTo then n else 0
  {
    if n > 0 {
      var rest := Repeat(log, h, n - 1);
      RepeatWithin(log, h, n - 1, after, upTo);
      assert (rest + [h])[..|rest|] == rest;
    }
  }

  lemma PassCheck(c: Config, s: State, w: nat)
    requires Reachable(c, s) && w in c.workers && w !in s.inflight
    requires LogEstimate(s.log, c.key, c.T, s.now) < c.limit
    ensures Reachable(c, State(s.log, s.now, s.inflight + {w}))
  {
    Extend(c, s, Check(w));
    StoreRefinesLog(s.log, c.key, c.T, s.now);
  }

  /** One worker, calling again and again, fills an empty window up to the limit. */
  lemma {:induction false} CallOneByOne(c: Config, s: State, w: nat, n: nat)
    requires Reachable(c, s) && s.inflight == {} && w in c.workers
    requires LogEstimate(s.log, c.key, c.T, s.now) == 0
    requires n <= c.limit
    ensures Reachable(c, State(Repeat(s.log, Hit(c.key, c.T, s.now), n), s.now, {}))
  {
    if n > 0 {
      var h := Hit(c.key, c.T, s.now);
      CallOneByOne(c, s, w, n - 1);
      RepeatEstimate(s.log, h, n - 1);
      PassCheck(c, State(Repeat(s.log, h, n - 1), s.now, {}), w);
      var passed := State(Repeat(s.log, h, n - 1), s.now, {} + {w});
      Extend(c, passed, Finish(w));
      assert passed.inflight - {w} == {};
    } else {
      assert s == State(s.log, s.now, {});
    }
  }

  /** As long as the estimate is below the limit, any set of workers can pass the check together. */
  lemma {:induction false} CheckTogether(c: Config, s: State, ws: set<nat>)
    requires Reachable(c, s) && s.inflight == {} && ws <= c.workers
    requires LogEstimate(s.log, c.key, c.T, s.now) < c.limit
    ensures Reachable(c, s.(inflight := ws))
    decreases |ws|
  {
    if ws != {} {
      var w :| w in ws;
      CheckTogether(c, s, ws - {w});
      PassCheck(c, s.(inflight := ws - {w}), w);
      assert ws - {w} + {w} == ws;
    }
  }

  lemma {:induction false} FinishTogether(c: Config, s: State)
    requires Reachable(c, s)
    ensures Reachable(c, State(Repeat(s.log, Hit(c.key, c.T, s.now), |s.inflight|), s.now, {}))
    decreases |s.inflight|
  {
    if s.inflight != {} {
      var w :| w in s.inflight;
      Extend(c, s, Finish(w));
      FinishTogether(c, Apply(c, s, Finish(w)));
      RepeatFront(s.log, Hit(c.key, c.T, s.now), |s.inflight| - 1);
    }
  }

  /** From a quiet moment, the workers can add limit + K - 1 admissions without the clock moving. */
  lemma Burst(c: Config, s: State)
    requires Reachable(c, s) && s.inflight == {} && c.workers != {}
    requires LogEstimate(s.log, c.key, c.T, s.now) == 0
    ensures Reachable(c, s.(log := Repeat(s.log, Hit(c.key, c.T, s.now), c.Cap())))
  {
    var w :| w in c.workers;
    var h := Hit(c.key, c.T, s.now);
    CallOneByOne(c, s, w, c.limit - 1);
    var s1 := s.(log := Repeat(s.log, h, c.limit - 1));
    RepeatEstimate(s.log, h, c.limit - 1);
    CheckTogether(c, s1, c.workers);
    FinishTogether(c, s1.(inflight := c.workers));
    RepeatSum(s.log, h, c.limit - 1, |c.workers|);
  }

  lemma {:induction false} RepeatSum(log: seq<Hit>, h: Hit, m: nat, n: nat)
    ensures Repeat(Repeat(log, h, m), h, n) == Repeat(log, h, m + n)
  {
    if n > 0 {
      RepeatSum(log, h, m, n - 1);
    }
  }

  /** The start of window number `i`. */
  function StartOf(c: Config, i: nat): nat {
    i * c.T
  }

  lemma NumberedWindow(c: Config, i: nat, x: nat)
    requires x < c.T
    ensures WindowStart(StartOf(c, i) + x, c.T) == StartOf(c, i) && i <= StartOf(c, i)
    ensures StartOf(c, i + 1) == StartOf(c, i) + c.T
  {
    MulStep(i, c.T);
    QuotientUnique(i * c.T + x, c.T, i);
    MulMonotone(i, 1, c.T);
  }

  /** The last tick of window `i`, with nothing logged. */
  lemma QuietLastTick(c: Config, i: nat) returns (s: State)
    ensures Reachable(c, s) && s == State([], StartOf(c, i) + c.T - 1, {})
    ensures WindowStart(s.now, c.T) == StartOf(c, i) && LogEstimate(s.log, c.key, c.T, s.now) == 0
  {
    s := State([], StartOf(c, i) + c.T - 1, {});
    assert Run(c, []) == Some(INITIAL);
    Extend(c, INITIAL, Tick(s.now));
    NumberedWindow(c, i, c.T - 1);
    ShareOfNothing(c.T - 1, c.T);
  }

  lemma {:induction false} RepeatOnlyAt(h: Hit, n: nat)
    ensures NoLaterThan(Repeat([], h, n), h.at) && NoEarlierThan(Repeat([], h, n), h.at)
  {
    if n > 0 {
      RepeatOnlyAt(h, n - 1);
    }
  }

  /** At the last tick of window `i`, whichever it is, the workers burst past the limit. */
  lemma FirstBurst(c: Config, i: nat) returns (s: State)
    requires c.workers != {}
    ensures var start := StartOf(c, i);
      && Reachable(c, s) && s.now == start + c.T - 1 && s.inflight == {}
      && NoLaterThan(s.log, s.now) && NoEarlierThan(s.log, i)
      && WindowStart(s.now, c.T) == start && Count(s.log, c.key, c.T, start) == c.Cap()
      && Within(s.log, c.key, start + c.T - 2, start + 2 * c.T - 2) == c.Cap()
  {
    var quiet := QuietLastTick(c, i);
    var start := StartOf(c, i);
    NumberedWindow(c, i, 0);
    Burst(c, quiet);
    var h := Hit(c.key, c.T, quiet.now);
    s := quiet.(log := Repeat([], h, c.Cap()));
    RepeatCount([], h, c.Cap(), start);
    RepeatWithin([], h, c.Cap(), start + c.T - 2, start + 2 * c.T - 2);
    RepeatOnlyAt(h, c.Cap());
  }

  /** A tick before the next window ends, only a share of 2/T is left of what the window before counted. */
  lemma NearlyFaded(c: Config, s: State, i: nat)
    requires s.now == StartOf(c, i) + c.T - 1 && NoLaterThan(s.log, s.now) && 2 <= c.T
    ensures var now := StartOf(c, i) + 2 * c.T - 2;
      LogEstimate(s.log, c.key, c.T, now) == Share(Count(s.log, c.key, c.T, StartOf(c, i)), c.T - 2, c.T)
  {
    NumberedWindow(c, i, 0);
    NumberedWindow(c, i + 1, c.T - 2);
    NoCountAhead(s.log, c.key, c.T, s.now, StartOf(c, i + 1));
  }

  lemma ShareOfFew(count: nat, T: Ticks)
    requires 2 <= T && 2 * count < T
    ensures Share(count, T - 2, T) == 0
  {
    QuotientUnique(count * 2, T, 0);
  }

  /** A second burst then puts twice the cap into one sliding window. */
  lemma SecondBurst(c: Config, i: nat) returns (s: State)
    requires c.workers != {} && 2 * c.Cap() < c.T
    ensures Reachable(c, s) && NoEarlierThan(s.log, i)
    ensures Within(s.log, c.key, s.now - c.T, s.now) == 2 * c.Cap()
  {
    var s1 := FirstBurst(c, i);
    var now := StartOf(c, i) + 2 * c.T - 2;
    NearlyFaded(c, s1, i);
    ShareOfFew(c.Cap(), c.T);
    Extend(c, s1, Tick(now));
    var quiet := State(s1.log, now, {});
    assert Apply(c, s1, Tick(now)) == quiet;
    Burst(c, quiet);
    var h := Hit(c.key, c.T, now);
    s := quiet.(log := Repeat(s1.log, h, c.Cap()));
    RepeatWithin(s1.log, h, c.Cap(), now - c.T, now);
    NumberedWindow(c, i, 0);
    RepeatKeepsSince(s1.log, h, c.Cap(), i);
  }

  lemma {:induction false} RepeatKeepsSince(log: seq<Hit>, h: Hit, n: nat, since: nat)
    requires NoEarlierThan(log, since) && since <= h.at
    ensures NoEarlierThan(Repeat(log, h, n), since)
  {
    if n > 0 {
      RepeatKeepsSince(log, h, n - 1, since);
    }
  }

  /** Both bounds are sharp, for every limit and every number of workers, in runs that log nothing before
      any given moment: some run puts limit + K - 1 admissions into one aligned window, and, when the window
      is long enough for the faded share to round to nothing, some run puts twice as many into one sliding
      window. */
  lemma BoundsAreReached(c: Config, since: nat)
    requires c.workers != {}
    ensures exists s ::
      (Reachable(c, s) && NoEarlierThan(s.log, since)
       && Count(s.log, c.key, c.T, WindowStart(s.now, c.T)) == c.Cap())
    ensures 2 * c.Cap() < c.T ==> exists s ::
      (Reachable(c, s) && NoEarlierThan(s.log, since)
       && Within(s.log, c.key, s.now - c.T, s.now) == 2 * c.Cap())
  {
    var s1 := FirstBurst(c, since);
    if 2 * c.Cap() < c.T {
      var s2 := SecondBurst(c, since);
    }
  }

  // ------------------------------------------------------------------ when the limit itself holds

  /** No run that logs nothing before `since` puts more than the limit into an aligned window. */
  ghost predicate NeverOverLimit(c: Config, since: nat) {
    forall s :: Reachable(c, s) && NoEarlierThan(s.log, since) ==>
      Count(s.log, c.key, c.T, WindowStart(s.now, c.T)) <= c.limit
  }

  /** The limit bounds every aligned window, in all runs, exactly when there is at most one worker. */
  lemma AlignedLimitExactly(c: Config, since: nat)
    ensures NeverOverLimit(c, since) <==> |c.workers| <= 1
  {
    if |c.workers| <= 1 {
      forall s | Reachable(c, s) ensures Count(s.log, c.key, c.T, WindowStart(s.now, c.T)) <= c.limit {
        OvershootBound(c, s);
      }
    } else {
      var s := FirstBurst(c, since);
      assert c.limit < Count(s.log, c.key, c.T, WindowStart(s.now, c.T));
    }
  }

  /** Nor into a sliding window. */
  ghost predicate NeverSlidesOver(c: Config, since: nat) {
    forall s :: Reachable(c, s) && NoEarlierThan(s.log, since) ==>
      Within(s.log, c.key, s.now - c.T, s.now) <= c.limit
  }

  lemma {:induction false} NobodyCalls(c: Config, steps: seq<Step>)
    requires Run(c, steps).Some? && c.workers == {}
    ensures var s := Run(c, steps).value;
      s.inflight == {} && forall i :: 0 <= i < |s.log| ==> s.log[i].key != c.key
  {
    if steps != [] {
      NobodyCalls(c, steps[..|steps| - 1]);
    }
  }

  lemma {:induction false} NothingWithin(log: seq<Hit>, key: string, after: int, upTo: int)
    requires forall i :: 0 <= i < |log| ==> log[i].key != key
    ensures Within(log, key, after, upTo) == 0
  {
    if log != [] {
      NothingWithin(log[..|log| - 1], key, after, upTo);
    }
  }

  /** At the last tick of a window the sliding window is the aligned one. */
  lemma {:induction false} LastTickIsAligned(log: seq<Hit>, key: string, T: Ticks, now: nat)
    requires SingleWindow(log, key, T) && now == WindowStart(now, T) + T - 1
    ensures Within(log, key, now - T, now) == Count(log, key, T, WindowStart(now, T))
  {
    if log != [] {
      var last := log[|log| - 1];
      LastTickIsAligned(log[..|log| - 1], key, T, now);
      if last.key == key && last.at <= now {
        WindowStartGap(last.at, now, T);
      } else if last.key == key {
        WindowStartGap(now, last.at, T);
      }
    }
  }

  lemma AtWindowStart(c: Config, s: State)
    requires Reachable(c, s) && s.now == WindowStart(s.now, c.T)
    ensures Within(s.log, c.key, s.now - c.T, s.now) <= c.Cap()
  {
    SlidingWindowSafety(c, s);
  }

  /** One worker and windows of at most two ticks: every moment is the first or the last of a window. */
  lemma ShortWindows(c: Config, s: State)
    requires Reachable(c, s) && |c.workers| == 1 && c.T <= 2
    ensures Within(s.log, c.key, s.now - c.T, s.now) <= c.limit
  {
    RunInv(c, s);
    if s.now == WindowStart(s.now, c.T) {
      AtWindowStart(c, s);
    } else {
      LastTickIsAligned(s.log, c.key, c.T, s.now);
    }
  }

  /** Towards the end of the next window, the share of a full window is below the limit. */
  lemma ShareBelowLimit(limit: Pos, T: Ticks)
    requires 3 <= T
    ensures Share(limit, T - 2, T) < limit
  {
    var q := limit * 2 / T;
    assert T * q <= limit * 2;
    if limit <= q {
      MulMonotone(T, limit, q);
      MulMonotone(limit, 3, T);
    }
  }

  /** One worker fills a window at its last tick, and is admitted again before that tick has left the
      sliding window. */
  lemma OneCallTooMany(c: Config, i: nat) returns (s: State)
    requires |c.workers| == 1 && 3 <= c.T
    ensures Reachable(c, s) && NoEarlierThan(s.log, i)
    ensures c.limit < Within(s.log, c.key, s.now - c.T, s.now)
  {
    var w :| w in c.workers;
    var s1 := FirstBurst(c, i);
    var now := StartOf(c, i) + 2 * c.T - 2;
    NearlyFaded(c, s1, i);
    ShareBelowLimit(c.limit, c.T);
    Extend(c, s1, Tick(now));
    var s2 := State(s1.log, now, {});
    assert Apply(c, s1, Tick(now)) == s2;
    PassCheck(c, s2, w);
    var s3 := State(s1.log, now, {} + {w});
    Extend(c, s3, Finish(w));
    s := Apply(c, s3, Finish(w));
    assert s.log[..|s1.log|] == s1.log;
    NumberedWindow(c, i, 0);
  }

  /** Two workers or more exceed the limit at a single tick. */
  lemma CrowdedBurst(c: Config, i: nat) returns (s: State)
    requires 2 <= |c.workers|
    ensures Reachable(c, s) && NoEarlierThan(s.log, i)
    ensures c.limit < Within(s.log, c.key, s.now - c.T, s.now)
  {
    s := FirstBurst(c, i);
    RunInv(c, s);
    LastTickIsAligned(s.log, c.key, c.T, s.now);
  }

  /** The limit bounds every sliding window, in all runs, exactly when nobody calls, or a single worker
      does and windows are at most two ticks long. */
  lemma SlidingLimitExactly(c: Config, since: nat)
    ensures NeverSlidesOver(c, since) <==> c.workers == {} || (|c.workers| == 1 && c.T <= 2)
  {
    if c.workers == {} {
      forall s | Reachable(c, s) ensures Within(s.log, c.key, s.now - c.T, s.now) <= c.limit {
        var steps :| Run(c, steps) == Some(s);
        NobodyCalls(c, steps);
        NothingWithin(s.log, c.key, s.now - c.T, s.now);
      }
    } else if |c.workers| == 1 && c.T <= 2 {
      forall s | Reachable(c, s) ensures Within(s.log, c.key, s.now - c.T, s.now) <= c.limit {
        ShortWindows(c, s);
      }
    } else if |c.workers| == 1 {
      var s := OneCallTooMany(c, since);
    } else {
      var s := CrowdedBurst(c, since);
    }
  }
}
