/**
 The two-key sliding-window rate limiter.

 Time is counted in ticks since the epoch; one tick is one microsecond, the resolution of the
 program's clock.  A window of `T` ticks is aligned: it starts at a multiple of `T`.  The limiter
 keeps one expiring counter for each pair of limiter key and window start, and approximates a true
 sliding window by the current counter plus a fading share of the previous one.
*/
module RateLimiter {
  import opened Arith

  const TICKS_PER_SECOND: nat := 1_000_000

  type Ticks = Pos

  function WindowSeconds(window: string): nat {
    if window == "minute" then 60
    else if window == "hour" then 3600
    else if window == "day" then 86400
    else 60
  }

  function WindowTicks(window: string): Ticks {
    WindowSeconds(window) * TICKS_PER_SECOND
  }

  /** Windows last a minute, an hour or a day; any other name means a minute. */
  lemma WindowTicksExactly(window: string)
    ensures WindowTicks(window) == 60_000_000 <==> window != "hour" && window != "day"
    ensures WindowTicks("hour") == 3_600_000_000 && WindowTicks("day") == 86_400_000_000
  {
    assert "hour"[0] == 'h' && "day"[0] == 'd' && "minute"[0] == 'm';
  }

  /** The start of the aligned window that contains `now`. */
  function WindowStart(now: nat, T: Ticks): (start: nat)
    ensures start <= now < start + T
  {
    now / T * T
  }

  /** Two moments share a window, are in adjacent windows, or have a whole window between theirs. */
  lemma WindowStartGap(t: nat, u: nat, T: Ticks)
    requires t <= u
    ensures var s, s' := WindowStart(t, T), WindowStart(u, T);
      s == s' || s + T == s' || s + 2 * T <= s'
  {
    DivMonotone(t, u, T);
    var i, j := t / T, u / T;
    assert (i + 1) * T == i * T + T;
    if i + 2 <= j {
      assert (i + 2) * T <= j * T;
      assert (i + 2) * T == i * T + 2 * T;
    }
  }

  /** The share of the previous window's count that the sliding window still covers, rounded down. */
  function Share(previous: nat, offset: nat, T: Ticks): nat
    requires offset < T
  {
    MulMonotone(previous, 0, T - offset);
    DivMonotone(0, previous * (T - offset), T);
    previous * (T - offset) / T
  }

  /** The weighted count: all of the current window and the covered share of the previous one. */
  function Weighted(current: nat, previous: nat, offset: nat, T: Ticks): nat
    requires offset < T
  {
    current + Share(previous, offset, T)
  }

  /** The share fades: it starts as the whole previous count and only shrinks. */
  lemma ShareFades(previous: nat, x: nat, y: nat, T: Ticks)
    requires x <= y < T
    ensures Share(previous, y, T) <= Share(previous, x, T) <= Share(previous, 0, T) == previous
  {
    MulMonotone(previous, T - y, T - x);
    DivMonotone(previous * (T - y), previous * (T - x), T);
    MulMonotone(previous, T - x, T);
    DivMonotone(previous * (T - x), previous * T, T);
    QuotientUnique(previous * T, T, previous);
  }

  lemma ShareOfNothing(x: nat, T: Ticks)
    requires x < T
    ensures Share(0, x, T) == 0
  {
    ShareFades(0, 0, x, T);
  }

  // ------------------------------------------------------------------ the store

  /** A stored counter and the moment from which the store no longer returns it. */
  datatype Counter = Counter(count: nat, expiry: nat)

  type Store = map<(string, int), Counter>

  function Get(store: Store, key: string, start: int, now: nat): nat {
    if (key, start) in store && now < store[(key, start)].expiry
    then store[(key, start)].count
    else 0
  }

  /** INCR followed by EXPIRE with twice the window length. */
  function Incr(store: Store, key: string, T: Ticks, now: nat): Store {
    var start := WindowStart(now, T);
    store[(key, start as int) := Counter(Get(store, key, start, now) + 1, now + 2 * T)]
  }

  /** What the limiter reads off the store. */
  function Estimate(store: Store, key: string, T: Ticks, now: nat): nat {
    var start := WindowStart(now, T);
    Weighted(Get(store, key, start, now), Get(store, key, start - T, now), now - start, T)
  }

  // ------------------------------------------------------------------ the full log

  /** One increment: the limiter key, the window length it was recorded under, and when. */
  datatype Hit = Hit(key: string, window: Ticks, at: nat)

  /** The store left behind by a log of increments. */
  function Replay(log: seq<Hit>): Store {
    if log == [] then map[]
    else
      var last := log[|log| - 1];
      Incr(Replay(log[..|log| - 1]), last.key, last.window, last.at)
  }

  /** How many increments of `key`, recorded under window length `T`, fall in the window at `start`. */
  function Count(log: seq<Hit>, key: string, T: Ticks, start: int): nat {
    if log == [] then 0
    else
      var last := log[|log| - 1];
      Count(log[..|log| - 1], key, T, start)
      + (if last.key == key && last.window == T && WindowStart(last.at, T) == start then 1 else 0)
  }

  /** How many increments of `key` happened in the half-open interval (after, upTo]. */
  function Within(log: seq<Hit>, key: string, after: int, upTo: int): nat {
    if log == [] then 0
    else
      var last := log[|log| - 1];
      Within(log[..|log| - 1], key, after, upTo)
      + (if last.key == key && after < last.at <= upTo then 1 else 0)
  }

  /** The estimate computed from the log instead of the store. */
  function LogEstimate(log: seq<Hit>, key: string, T: Ticks, now: nat): nat {
    var start := WindowStart(now, T);
    Weighted(Count(log, key, T, start), Count(log, key, T, start - T), now - start, T)
  }

  ghost predicate SingleWindow(log: seq<Hit>, key: string, T: Ticks) {
    forall i :: 0 <= i < |log| && log[i].key == key ==> log[i].window == T
  }

  ghost predicate NoLaterThan(log: seq<Hit>, now: nat) {
    forall i :: 0 <= i < |log| ==> log[i].at <= now
  }

  // ------------------------------------------------------------------ refinement

  /** When the last increment of `key` in the window at `start` happened. */
  function LastAt(log: seq<Hit>, key: string, T: Ticks, start: int): nat {
    if log == [] then 0
    else
      var last := log[|log| - 1];
      if last.key == key && last.window == T && WindowStart(last.at, T) == start then last.at
      else LastAt(log[..|log| - 1], key, T, start)
  }

  /** For a key used with one window length: each counter is stored exactly when its window has
      increments, holds their number, and expires two lengths after the last of them, which outlives
      every read of it as "previous". */
  lemma {:induction false} StoreMatchesLog(log: seq<Hit>, key: string, T: Ticks, start: int)
    requires SingleWindow(log, key, T)
    ensures ((key, start) in Replay(log)) <==> Count(log, key, T, start) > 0
    ensures (key, start) in Replay(log) ==>
      var c := Replay(log)[(key, start)];
      && c.count == Count(log, key, T, start)
      && start + 2 * T <= c.expiry == LastAt(log, key, T, start) + 2 * T
  {
    if log != [] {
      var last := log[|log| - 1];
      StoreMatchesLog(log[..|log| - 1], key, T, start);
      if last.key == key {
        assert last.window == T;
      }
    }
  }

  /** The expiring two-key store refines the full log: whatever is read, at any moment, is what the
      log says. */
  lemma StoreRefinesLog(log: seq<Hit>, key: string, T: Ticks, now: nat)
    requires SingleWindow(log, key, T)
    ensures var start := WindowStart(now, T);
      && Get(Replay(log), key, start, now) == Count(log, key, T, start)
      && Get(Replay(log), key, start - T, now) == Count(log, key, T, start - T)
      && Estimate(Replay(log), key, T, now) == LogEstimate(log, key, T, now)
  {
    StoreMatchesLog(log, key, T, WindowStart(now, T));
    StoreMatchesLog(log, key, T, WindowStart(now, T) - T);
  }

  ghost predicate UsesOnly(log: seq<Hit>, key: string, T: Ticks, U: Ticks) {
    forall i :: 0 <= i < |log| && log[i].key == key ==> log[i].window == T || log[i].window == U
  }

  ghost predicate ReadsTrueCounts(log: seq<Hit>, key: string, T: Ticks) {
    forall now: nat :: NoLaterThan(log, now) ==>
      Estimate(Replay(log), key, T, now) == LogEstimate(log, key, T, now)
  }

  ghost predicate NoEarlierThan(log: seq<Hit>, since: nat) {
    forall i :: 0 <= i < |log| ==> since <= log[i].at
  }

  lemma AtOwnStart(i: nat, T: Ticks)
    ensures WindowStart(i * T, T) == i * T
  {
    QuotientUnique(i * T, T, i);
  }

  lemma Regroup(i: nat, T: nat, U: nat)
    ensures i * (T * U) == (i * U) * T
  {
  }

  /** A moment at which windows of both lengths start, no earlier than `since`. */
  lemma CommonStart(T: Ticks, U: Ticks, since: nat) returns (at: nat)
    ensures since <= at && WindowStart(at, T) == at == WindowStart(at, U)
  {
    at := since * (T * U);
    MulMonotone(since, 1, T * U);
    Regroup(since, T, U);
    Regroup(since, U, T);
    AtOwnStart(since * U, T);
    AtOwnStart(since * T, U);
  }

  lemma {:induction false} CountsOwnLength(log: seq<Hit>, key: string, T: Ticks, start: int)
    requires forall i :: 0 <= i < |log| ==> log[i].window != T
    ensures Count(log, key, T, start) == 0
  {
    if log != [] {
      CountsOwnLength(log[..|log| - 1], key, T, start);
    }
  }

  /** An increment under the other length, where both windows start, is counted as one's own. */
  lemma OtherLengthMisread(key: string, T: Ticks, U: Ticks, since: nat) returns (log: seq<Hit>)
    requires T != U
    ensures UsesOnly(log, key, T, U) && NoEarlierThan(log, since) && !ReadsTrueCounts(log, key, T)
  {
    var at := CommonStart(T, U, since);
    log := [Hit(key, U, at)];
    assert log[..0] == [];
    assert Get(Replay(log), key, at, at) == 1;
    CountsOwnLength(log, key, T, at);
    CountsOwnLength(log, key, T, at - T);
    ShareOfNothing(0, T);
    assert Estimate(Replay(log), key, T, at) != LogEstimate(log, key, T, at);
    assert NoLaterThan(log, at);
  }

  /** A key whose calls are limited under two window lengths is read correctly, for every log from any
      moment on, exactly when the two lengths are the same: counters of different lengths share a store
      key whenever their windows start together. */
  lemma MixedWindowsExact(key: string, T: Ticks, U: Ticks, since: nat)
    ensures (forall log :: UsesOnly(log, key, T, U) && NoEarlierThan(log, since) ==> ReadsTrueCounts(log, key, T))
       <==> T == U
  {
    if T == U {
      forall log | UsesOnly(log, key, T, U) ensures ReadsTrueCounts(log, key, T) {
        forall now: nat ensures Estimate(Replay(log), key, T, now) == LogEstimate(log, key, T, now) {
          assert SingleWindow(log, key, T);
          StoreRefinesLog(log, key, T, now);
        }
      }
    } else {
      var log := OtherLengthMisread(key, T, U, since);
    }
  }

  // ------------------------------------------------------------------ fading

  lemma {:induction false} NoCountAhead(log: seq<Hit>, key: string, T: Ticks, now: nat, start: int)
    requires NoLaterThan(log, now)
    requires now < start
    ensures Count(log, key, T, start) == 0
  {
    if log != [] {
      assert log[|log| - 1].at <= now;
      NoCountAhead(log[..|log| - 1], key, T, now, start);
    }
  }

  /** With no further increments the estimate never rises, across window boundaries too, and is
      zero from the start of the second following window on. */
  lemma EstimateFades(log: seq<Hit>, key: string, T: Ticks, t: nat, u: nat)
    requires NoLaterThan(log, t)
    requires t <= u
    ensures LogEstimate(log, key, T, u) <= LogEstimate(log, key, T, t)
    ensures WindowStart(t, T) + 2 * T <= u ==> LogEstimate(log, key, T, u) == 0
  {
    var s, s' := WindowStart(t, T), WindowStart(u, T);
    WindowStartGap(t, u, T);
    if s == s' {
      ShareFades(Count(log, key, T, s - T), t - s, u - s, T);
    } else {
      NoCountAhead(log, key, T, t, s');
      ShareFades(Count(log, key, T, s' - T), 0, u - s', T);
      if s' - T != s {
        NoCountAhead(log, key, T, t, s' - T);
        ShareOfNothing(u - s', T);
      }
    }
  }

  /** A key denied at time `t` and not incremented since is admitted again, at the latest, from the
      start of the second following window on. */
  lemma DeniedKeyReopens(log: seq<Hit>, key: string, T: Ticks, t: nat, u: nat, limit: int)
    requires SingleWindow(log, key, T) && NoLaterThan(log, t)
    requires WindowStart(t, T) + 2 * T <= u
    requires 1 <= limit
    ensures Estimate(Replay(log), key, T, u) < limit
  {
    StoreRefinesLog(log, key, T, u);
    EstimateFades(log, key, T, t, u);
  }

  // ------------------------------------------------------------------ sliding windows

  /** A sliding window of one length reaches into two aligned windows only. */
  lemma {:induction false} SlidingWindowSplit(log: seq<Hit>, key: string, T: Ticks, now: nat)
    requires SingleWindow(log, key, T)
    ensures var start := WindowStart(now, T);
      Within(log, key, now - T, now) <= Count(log, key, T, start) + Count(log, key, T, start - T)
  {
    if log != [] {
      var last := log[|log| - 1];
      SlidingWindowSplit(log[..|log| - 1], key, T, now);
      if last.key == key && now - T < last.at <= now {
        WindowStartGap(last.at, now, T);
      }
    }
  }

  /** ceil(previous * offset / T) */
  function Faded(previous: nat, offset: nat, T: Ticks): nat {
    MulMonotone(previous, 0, offset);
    CeilDiv(previous * offset, T)
  }

  /** What has faded from the previous window's share is its count times the offset, rounded up. */
  lemma FadedPart(previous: nat, x: nat, T: Ticks)
    requires x < T
    ensures previous - Share(previous, x, T) == Faded(previous, x, T) <= previous
  {
    MulMonotone(previous, 0, x);
    ShareFades(previous, 0, x, T);
    var a, b := previous * x, previous * (T - x);
    var q := b / T;
    var d := previous - q;
    assert T * q <= b < T * q + T;
    assert a + b == T * previous == T * d + T * q by {
      assert a + b == previous * (x + (T - x));
    }
    QuotientUnique(a + T - 1, T, d);
  }

  lemma NothingFadedYet(previous: nat, T: Ticks)
    ensures Faded(previous, 0, T) == 0
  {
    QuotientUnique(T - 1, T, 0);
  }

  /** The true sliding window at `now`: at offset `x` into the current window and with `p` increments in
      the previous one, the last `T` ticks hold at most cap + ceil(p*x/T), and so at most twice the cap;
      at the start of a window they hold at most the cap. */
  ghost predicate SlidesWithin(log: seq<Hit>, key: string, T: Ticks, now: nat, cap: nat) {
    var start := WindowStart(now, T);
    var p, x := Count(log, key, T, start - T), now - start;
    && Within(log, key, now - T, now) <= cap + Faded(p, x, T) <= 2 * cap
    && (x == 0 ==> Within(log, key, now - T, now) <= cap)
  }

  /** What a check reads, from the true counts `n` and `p` of the current and the previous window and the
      offset `x`: n + p - ceil(p*x/T). */
  function SlidingCount(log: seq<Hit>, key: string, T: Ticks, now: nat): int {
    var start := WindowStart(now, T);
    var n, p, x := Count(log, key, T, start), Count(log, key, T, start - T), now - start;
    n + p - Faded(p, x, T)
  }

  /** Rounding up: the least integer that is no less than previous * offset / T. */
  lemma FadedIsCeiling(previous: nat, offset: nat, T: Ticks)
    ensures var f := Faded(previous, offset, T); T * f - T < previous * offset <= T * f
  {
    MulMonotone(previous, 0, offset);
    var a := previous * offset + T - 1;
    assert T * (a / T) <= a < T * (a / T) + T;
  }

  /** What the two expiring counters yield is exactly that, for a key used with one window length. */
  lemma ReadExactly(log: seq<Hit>, key: string, T: Ticks, now: nat)
    requires SingleWindow(log, key, T)
    ensures Estimate(Replay(log), key, T, now) == SlidingCount(log, key, T, now)
  {
    StoreRefinesLog(log, key, T, now);
    var start := WindowStart(now, T);
    FadedPart(Count(log, key, T, start - T), now - start, T);
  }

  /** If the estimate at `now` is at most `cap`, and the previous window was never fuller than `cap`,
      the true sliding window holds at most `cap` and the faded part of the previous window. */
  lemma SlidingWindowBound(log: seq<Hit>, key: string, T: Ticks, now: nat, cap: nat)
    requires SingleWindow(log, key, T)
    requires LogEstimate(log, key, T, now) <= cap
    requires Count(log, key, T, WindowStart(now, T) - T) <= cap
    ensures SlidesWithin(log, key, T, now, cap)
  {
    var start := WindowStart(now, T);
    SlidingWindowSplit(log, key, T, now);
    FadedPart(Count(log, key, T, start - T), now - start, T);
    NothingFadedYet(Count(log, key, T, start - T), T);
  }

  // ------------------------------------------------------------------ the limiter

  class RedisRateLimiter {
    var store: Store
    ghost var log: seq<Hit>  // every increment ever made

    ghost predicate Valid()
      reads this
    {
      store == Replay(log)
    }

    constructor ()
      ensures Valid() && log == []
    {
      store, log := map[], [];
    }

    /** The estimate behind a check: for a key used with one window length, the count of the log. */
    method GetCurrentCount(key: string, window: string, now: nat) returns (count: nat)
      requires Valid()
      ensures count == Estimate(store, key, WindowTicks(window), now)
      ensures SingleWindow(log, key, WindowTicks(window)) ==>
        count == SlidingCount(log, key, WindowTicks(window), now)
    {
      var T := WindowTicks(window);
      var start := WindowStart(now, T);
      var current := Get(store, key, start, now);
      var previous := Get(store, key, start - T, now);
      count := Weighted(current, previous, now - start, T);
      if SingleWindow(log, key, T) {
        ReadExactly(log, key, T, now);
      }
    }

    method CheckLimit(key: string, limit: int, window: string, now: nat) returns (allowed: bool)
      requires Valid()
      ensures allowed <==> Estimate(store, key, WindowTicks(window), now) < limit
      ensures SingleWindow(log, key, WindowTicks(window)) ==>
        (allowed <==> SlidingCount(log, key, WindowTicks(window), now) < limit)
    {
      var current := GetCurrentCount(key, window, now);
      allowed := current < limit;
    }

    /** Records one call; the returned count already includes it. */
    method Increment(key: string, window: string, now: nat) returns (weighted: nat)
      requires Valid()
      modifies this
      ensures Valid()
      ensures log == old(log) + [Hit(key, WindowTicks(window), now)]
      ensures weighted == Estimate(store, key, WindowTicks(window), now)
      ensures SingleWindow(log, key, WindowTicks(window)) ==>
        weighted == SlidingCount(log, key, WindowTicks(window), now)
      ensures forall other, start, t | other != key ::
        Get(store, other, start, t) == old(Get(store, other, start, t))
    {
      var T := WindowTicks(window);
      var start := WindowStart(now, T);
      store := Incr(store, key, T, now);
      log := log + [Hit(key, T, now)];
      assert log[..|log| - 1] == old(log);
      var current := Get(store, key, start, now);
      var previous := Get(store, key, start - T, now);
      weighted := Weighted(current, previous, now - start, T);
      if SingleWindow(log, key, T) {
        ReadExactly(log, key, T, now);
      }
    }
  }
}
