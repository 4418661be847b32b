/**
 * The first-hit window limiter (apps/api/src/redis/rate-limiter.service.ts over
 * `incrementWithTtl` of apps/api/src/redis/redis.service.ts). A key is gone from
 * its deadline on. Instants and windows are in milliseconds.
 */
module RateLimit {
  import opened Wrappers

  datatype Counter = Counter(count: nat, expiresAt: int)

  /** The keys of the store; an expired one reads as absent. */
  type Store = map<string, Counter>

  function Current(store: Store, key: string, now: int): Option<Counter> {
    if key in store && now < store[key].expiresAt then Some(store[key]) else None
  }

  /** INCR, then EXPIRE NX: the window begins with its first call and is never prolonged. */
  function Incremented(store: Store, key: string, window: int, now: int): Store {
    var current := Current(store, key, now);
    store[key := if current.Some? then current.value.(count := current.value.count + 1) else Counter(1, now + window)]
  }

  const SECOND := 1000

  const HALF_SECOND := 500

  /** TTL answers in whole seconds, rounded to the nearest; a key that is gone has a negative one. */
  function TimeToLive(c: Counter, now: int): int {
    if now < c.expiresAt then (c.expiresAt - now + HALF_SECOND) / SECOND else -2
  }

  datatype Decision = Decision(allowed: bool, count: nat, retryAfter: int)

  class RateLimiter {
    var store: Store

    constructor ()
      ensures store == map[]
    {
      store := map[];
    }

    method IncrementWithTtl(key: string, window: int, now: int) returns (count: nat)
      modifies this
      ensures store == Incremented(old(store), key, window, now)
      ensures key in store && count == store[key].count
    {
      count := 1;
      var expiresAt: Option<int> := None;
      if key in store && now < store[key].expiresAt {
        count := store[key].count + 1;
        expiresAt := Some(store[key].expiresAt);
      }
      if expiresAt.None? {
        expiresAt := Some(now + window);
      }
      store := store[key := Counter(count, expiresAt.value)];
    }

    /**
     * `consume`: refused calls count too. The delay, read at `asked`, is what is left
     * of the window to the nearest second, or a whole window when that is none.
     */
    method Consume(key: string, limit: nat, windowSeconds: nat, now: int, asked: int) returns (decision: Decision)
      requires windowSeconds > 0 && now <= asked
      modifies this
      ensures store == Incremented(old(store), key, 1000 * windowSeconds, now)
      ensures decision.count == store[key].count && decision.allowed == (decision.count <= limit)
      ensures decision.retryAfter > 0
      ensures var left := store[key].expiresAt - asked;
        if left >= 500 then left - 500 < 1000 * decision.retryAfter <= left + 500
        else decision.retryAfter == windowSeconds
    {
      var count := IncrementWithTtl(key, SECOND * windowSeconds, now);
      var ttl := TimeToLive(store[key], asked);
      decision := Decision(count <= limit, count, if ttl > 0 then ttl else windowSeconds);
    }
  }

  // ------------------------------------------------------------------------
  //  Runs, for one limit and one window
  // ------------------------------------------------------------------------

  datatype Call = Call(key: string, at: int)

  function After(calls: seq<Call>, n: nat, window: int): Store
    requires n <= |calls|
  {
    if n == 0 then map[] else Incremented(After(calls, n - 1, window), calls[n - 1].key, window, calls[n - 1].at)
  }

  function CountAt(calls: seq<Call>, i: nat, window: int): (r: nat)
    requires i < |calls|
  {
    After(calls, i + 1, window)[calls[i].key].count
  }

  ghost predicate Sorted(calls: seq<Call>) {
    forall i, j :: 0 <= i < j < |calls| ==> calls[i].at <= calls[j].at
  }

  /** How many of the calls from `first` up to, not including, `end` are on the key. */
  function CallsOf(calls: seq<Call>, key: string, first: nat, end: nat): nat
    requires first <= end <= |calls|
    decreases end
  {
    if first == end then 0 else CallsOf(calls, key, first, end - 1) + (if calls[end - 1].key == key then 1 else 0)
  }

  /** How many calls on the key are allowed among the first `n`, at or after instant `lo`. */
  function AllowedSince(calls: seq<Call>, key: string, n: nat, lo: int, limit: nat, window: int): nat
    requires n <= |calls|
  {
    if n == 0 then 0
    else
      AllowedSince(calls, key, n - 1, lo, limit, window) +
      (if calls[n - 1].key == key && lo <= calls[n - 1].at && CountAt(calls, n - 1, window) <= limit then 1 else 0)
  }

  /** Call `first` opened the window that the counter of the key describes after `n` calls. */
  predicate Opened(calls: seq<Call>, key: string, n: nat, first: nat, window: int) {
    && first < n <= |calls| && calls[first].key == key
    && Current(After(calls, first, window), key, calls[first].at).None?
    && key in After(calls, n, window)
    && After(calls, n, window)[key] == Counter(CallsOf(calls, key, first, n), calls[first].at + window)
  }

  /** The counter of a key numbers the calls of its window, whatever happens on other keys. */
  lemma {:induction false} CounterNumbersTheWindow(calls: seq<Call>, key: string, n: nat, window: int)
    returns (first: nat)
    requires n <= |calls| && window > 0
    ensures key in After(calls, n, window) ==> Opened(calls, key, n, first, window)
    ensures key !in After(calls, n, window) ==> CallsOf(calls, key, 0, n) == 0
  {
    first := 0;
    if n > 0 {
      first := CounterNumbersTheWindow(calls, key, n - 1, window);
      var last := calls[n - 1];
      if last.key == key && Current(After(calls, n - 1, window), key, last.at).None? {
        first := n - 1;
      }
    }
  }

  /**
   * A call is allowed exactly when it is among the first `limit` calls on its key
   * since the one that opened the window, less than `window` before.
   */
  lemma AllowedExactly(calls: seq<Call>, i: nat, limit: nat, window: int) returns (first: nat)
    requires i < |calls| && window > 0
    ensures first <= i && calls[first].key == calls[i].key && calls[i].at < calls[first].at + window
    ensures Current(After(calls, first, window), calls[i].key, calls[first].at).None?
    ensures CountAt(calls, i, window) <= limit <==> CallsOf(calls, calls[i].key, first, i + 1) <= limit
  {
    first := CounterNumbersTheWindow(calls, calls[i].key, i + 1, window);
  }

  /** What is left to count when the key's window began before `lo`, or at or after it. */
  function Allowance(c: Option<Counter>, lo: int, limit: nat, window: int): int {
    if c.None? then 0
    else
      var inWindow := if c.value.count <= limit then c.value.count else limit;
      if c.value.expiresAt - window < lo then inWindow - 1 else limit + inWindow - 1
  }

  lemma {:induction false} AllowanceHolds(calls: seq<Call>, key: string, n: nat, lo: int, limit: nat, window: int)
    requires n <= |calls| && window > 0 && limit > 0 && Sorted(calls)
    requires forall i :: 0 <= i < n ==> calls[i].at < lo + window
    ensures var store := After(calls, n, window);
      var counter := if key in store then Some(store[key]) else None;
      && AllowedSince(calls, key, n, lo, limit, window) <= Allowance(counter, lo, limit, window)
      && (counter.Some? ==> counter.value.count > 0)
    ensures n > 0 && calls[n - 1].at < lo ==> AllowedSince(calls, key, n, lo, limit, window) == 0
  {
    if n > 0 {
      AllowanceHolds(calls, key, n - 1, lo, limit, window);
    }
  }

  /**
   * In any interval of the length of a window, at most twice the limit minus one
   * calls on a key are allowed, wherever the interval begins.
   */
  lemma AtMostTwiceTheLimit(calls: seq<Call>, key: string, n: nat, lo: int, limit: nat, window: int)
    requires n <= |calls| && window > 0 && limit > 0 && Sorted(calls)
    requires forall i :: 0 <= i < n ==> calls[i].at < lo + window
    ensures AllowedSince(calls, key, n, lo, limit, window) <= 2 * limit - 1
  {
    AllowanceHolds(calls, key, n, lo, limit, window);
  }

  // ------------------------------------------------------------------------
  //  The bound is reached
  // ------------------------------------------------------------------------

  /** One call, the rest of its window's allowance just before the window ends, a full allowance just after. */
  function Burst(limit: nat, window: int): (calls: seq<Call>)
    requires limit > 0
    ensures |calls| == 2 * limit
    ensures forall i :: 0 <= i < 2 * limit ==>
      calls[i] == Call("badge", if i == 0 then 0 else if i < limit then window - 1 else window)
  {
    seq(2 * limit, i => Call("badge", if i == 0 then 0 else if i < limit then window - 1 else window))
  }

  lemma {:induction false} BurstIsAllowed(limit: nat, window: int, n: nat)
    requires limit > 0 && window > 1 && 0 < n <= 2 * limit
    ensures var calls := Burst(limit, window);
      var store := After(calls, n, window);
      && "badge" in store
      && store["badge"] == (if n <= limit then Counter(n, window) else Counter(n - limit, 2 * window))
      && AllowedSince(calls, "badge", n, window - 1, limit, window) == n - 1
  {
    if n > 1 {
      BurstIsAllowed(limit, window, n - 1);
    }
  }

  /** For every limit, some calls within one window's length reach the bound: all but the first of the burst. */
  lemma TheBoundIsReached(limit: nat, window: int)
    requires limit > 0 && window > 1
    ensures var calls := Burst(limit, window);
      && Sorted(calls) && (forall i :: 0 <= i < |calls| ==> calls[i].at < (window - 1) + window)
      && AllowedSince(calls, "badge", |calls|, window - 1, limit, window) == 2 * limit - 1
  {
    BurstIsAllowed(limit, window, 2 * limit);
  }

  /** In every run, every interval of a window's length has at most `limit` allowed calls on each key. */
  ghost predicate SlidingWindow(limit: nat, window: int) {
    forall calls: seq<Call>, key, n: nat, lo ::
      n <= |calls| && Sorted(calls) && (forall i :: 0 <= i < n ==> calls[i].at < lo + window) ==>
        AllowedSince(calls, key, n, lo, limit, window) <= limit
  }

  lemma {:induction false} NothingAllowed(calls: seq<Call>, key: string, n: nat, lo: int, window: int)
    requires n <= |calls| && window > 0
    ensures AllowedSince(calls, key, n, lo, 0, window) == 0
  {
    if n > 0 {
      NothingAllowed(calls, key, n - 1, lo, window);
      var first := CounterNumbersTheWindow(calls, calls[n - 1].key, n, window);
    }
  }

  /** The limiter keeps the promise of a sliding window exactly for limits of zero and one. */
  lemma SlidingExactly(limit: nat, window: int)
    requires window > 1
    ensures SlidingWindow(limit, window) <==> limit <= 1
  {
    if limit > 1 {
      TheBoundIsReached(limit, window);
    } else {
      forall calls: seq<Call>, key, n: nat, lo
        | n <= |calls| && Sorted(calls) && forall i :: 0 <= i < n ==> calls[i].at < lo + window
        ensures AllowedSince(calls, key, n, lo, limit, window) <= limit
      {
        if limit == 0 {
          NothingAllowed(calls, key, n, lo, window);
        } else {
          AtMostTwiceTheLimit(calls, key, n, lo, limit, window);
        }
      }
    }
  }
}
