/**
 * The per-identifier sliding-window rate limiter: for every identifier it
 * keeps the admission times still inside the window, drops older ones lazily
 * when the identifier is next consulted, and admits a request only while
 * fewer than `maxRequests` remain. The clock (`time()`) is a parameter.
 */
module RateLimit {

  /**
   * `array_filter($ts, fn($t) => ($now - $t) < $window)`: the timestamps
   * still inside the window, in their original order.
   */
  function Evict(ts: seq<int>, now: int, window: int): (kept: seq<int>)
    ensures |kept| <= |ts|
    ensures forall t | t in kept :: t in ts && now - t < window
  {
    if ts == [] then []
    else if now - ts[0] < window then [ts[0]] + Evict(ts[1..], now, window)
    else Evict(ts[1..], now, window)
  }

  /** `a` can be obtained from `b` by deleting elements: same elements, same relative order. */
  ghost predicate IsSubsequence(a: seq<int>, b: seq<int>)
    decreases |b|
  {
    if a == [] then true
    else if b == [] then false
    else if a[0] == b[0] then IsSubsequence(a[1..], b[1..])
    else IsSubsequence(a, b[1..])
  }

  /**
   * Eviction keeps exactly the in-window timestamps: each one as many times
   * as it occurs, the others not at all, and in their original order.
   */
  lemma {:induction false} EvictKeepsExactlyInWindow(ts: seq<int>, now: int, window: int, t: int)
    ensures multiset(Evict(ts, now, window))[t] == if now - t < window then multiset(ts)[t] else 0
    ensures IsSubsequence(Evict(ts, now, window), ts)
  {
    if ts != [] {
      EvictKeepsExactlyInWindow(ts[1..], now, window, t);
      assert ts == [ts[0]] + ts[1..];
      var rest := Evict(ts[1..], now, window);
      if now - ts[0] < window {
        assert Evict(ts, now, window) == [ts[0]] + rest;
        assert ([ts[0]] + rest)[1..] == rest;
      } else {
        if rest != [] {
          assert rest[0] in rest;
          assert rest[0] != ts[0];
        }
      }
    }
  }

  /** Evicting again at the same time removes nothing more. */
  lemma {:induction false} EvictIdempotent(ts: seq<int>, now: int, window: int)
    ensures Evict(Evict(ts, now, window), now, window) == Evict(ts, now, window)
  {
    if ts != [] {
      EvictIdempotent(ts[1..], now, window);
      if now - ts[0] < window {
        assert ([ts[0]] + Evict(ts[1..], now, window))[1..] == Evict(ts[1..], now, window);
      }
    }
  }

  /** Once a full window has passed since a timestamp, eviction drops it. */
  lemma EvictDropsExpired(ts: seq<int>, now: int, window: int, t: int)
    requires t in ts && now - t >= window
    ensures t !in Evict(ts, now, window)
  {
  }

  /** `max(0, $limit - $count)` */
  function Remaining(limit: int, count: nat): int {
    if limit - count < 0 then 0 else limit - count
  }

  class InMemoryRateLimiter {
    const maxRequests: int
    const windowSeconds: int

    /** identifier => admission timestamps, oldest first (the `$requests` array). */
    var requests: map<string, seq<int>>

    /**
     * Every stored list is within the limit: admission appends only while the
     * in-window count is below `maxRequests`, and eviction only shrinks lists.
     * (With a non-positive limit every list stays empty.)
     */
    ghost predicate Valid()
      reads this
    {
      forall id | id in requests :: |requests[id]| <= maxRequests || requests[id] == []
    }

    /** The list stored for `identifier`, empty when it has none yet. */
    function History(identifier: string): seq<int>
      reads this
    {
      if identifier in requests then requests[identifier] else []
    }

    constructor (maxRequests: int, windowSeconds: int)
      ensures Valid()
      ensures this.maxRequests == maxRequests && this.windowSeconds == windowSeconds
      ensures requests == map[]
    {
      this.maxRequests := maxRequests;
      this.windowSeconds := windowSeconds;
      requests := map[];
    }

    /**
     * `isAllowed($identifier)` at time `now`: evicts the identifier's expired
     * timestamps, then admits iff fewer than `maxRequests` remain, recording
     * `now` on admission only. No other identifier's entry changes.
     */
    method IsAllowed(identifier: string, now: int) returns (allowed: bool)
      requires Valid()
      modifies this
      ensures Valid()
      ensures var kept := Evict(old(History(identifier)), now, windowSeconds);
        && (allowed <==> |kept| < maxRequests)
        && requests == old(requests)[identifier := if allowed then kept + [now] else kept]
    {
      if identifier !in requests {
        requests := requests[identifier := []];
      }
      requests := requests[identifier := Evict(requests[identifier], now, windowSeconds)];
      if |requests[identifier]| >= maxRequests {
        return false;
      }
      requests := requests[identifier := requests[identifier] + [now]];
      return true;
    }

    /**
     * `getRemaining($identifier)` at time `now`: the limit itself for an
     * identifier never seen (and no entry is created); otherwise evicts its
     * expired timestamps and returns `max(0, maxRequests - count)`.
     */
    method GetRemaining(identifier: string, now: int) returns (remaining: int)
      requires Valid()
      modifies this
      ensures Valid()
      ensures identifier !in old(requests) ==> remaining == maxRequests && requests == old(requests)
      ensures identifier in old(requests) ==>
        var kept := Evict(old(requests)[identifier], now, windowSeconds);
        && remaining == Remaining(maxRequests, |kept|)
        && requests == old(requests)[identifier := kept]
      ensures identifier in old(requests) ==> 0 <= remaining && (maxRequests >= 0 ==> remaining <= maxRequests)
    {
      if identifier !in requests {
        return maxRequests;
      }
      requests := requests[identifier := Evict(requests[identifier], now, windowSeconds)];
      remaining := Remaining(maxRequests, |requests[identifier]|);
    }
  }

  function Repeat(b: bool, n: nat): (r: seq<bool>)
    ensures |r| == n && forall i | 0 <= i < n :: r[i] == b
  {
    if n == 0 then [] else [b] + Repeat(b, n - 1)
  }

  /**
   * A client of the limiter: with the clock standing still, a fresh
   * identifier is admitted exactly `maxRequests` times and then rejected;
   * once a full window has passed it is admitted again.
   */
  method BurstThenWindowElapses(maxRequests: nat, windowSeconds: int, now: int, identifier: string)
    returns (outcomes: seq<bool>)
    requires maxRequests >= 1 && windowSeconds >= 1
    ensures outcomes == Repeat(true, maxRequests) + [false, true]
  {
    var limiter := new InMemoryRateLimiter(maxRequests, windowSeconds);
    outcomes := [];
    var i := 0;
    while i < maxRequests
      invariant 0 <= i <= maxRequests
      invariant limiter.Valid() && limiter.maxRequests == maxRequests && limiter.windowSeconds == windowSeconds
      invariant limiter.History(identifier) == seq(i, _ => now)
      invariant outcomes == Repeat(true, i)
    {
      EvictAllFresh(limiter.History(identifier), now, windowSeconds);
      var ok := limiter.IsAllowed(identifier, now);
      assert seq(i, _ => now) + [now] == seq(i + 1, _ => now);
      assert Repeat(true, i) + [true] == Repeat(true, i + 1);
      outcomes := outcomes + [ok];
      i := i + 1;
    }
    EvictAllFresh(limiter.History(identifier), now, windowSeconds);
    var rejected := limiter.IsAllowed(identifier, now);
    EvictAllExpired(limiter.History(identifier), now + windowSeconds, windowSeconds, now);
    var later := limiter.IsAllowed(identifier, now + windowSeconds);
    outcomes := outcomes + [rejected, later];
  }

  lemma {:induction false} EvictAllFresh(ts: seq<int>, now: int, window: int)
    requires window >= 1 && forall i | 0 <= i < |ts| :: ts[i] == now
    ensures Evict(ts, now, window) == ts
  {
    if ts != [] {
      EvictAllFresh(ts[1..], now, window);
      assert ts == [ts[0]] + ts[1..];
    }
  }

  lemma {:induction false} EvictAllExpired(ts: seq<int>, now: int, window: int, t: int)
    requires forall i | 0 <= i < |ts| :: ts[i] == t
    requires now - t >= window
    ensures Evict(ts, now, window) == []
  {
    if ts != [] {
      EvictAllExpired(ts[1..], now, window, t);
    }
  }
}
