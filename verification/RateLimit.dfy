/** The fixed-window rate limiter (src/infrastructure/redis.py) over whole runs of requests. */
module RateLimit {
  import opened Basics
  import opened Outcomes
  import opened Redis

  datatype LimitError = RateLimitExceeded

  /** One request on one key: the counter it leaves and the count it read. */
  function Hit(counter: Option<Counter>, window: int, now: int): (Option<Counter>, nat) {
    var after := Incremented(counter, now);
    (Expiring(after, window, now), after.count)
  }

  class RedisRateLimiter {
    const client: Client

    constructor (client: Client)
      ensures this.client == client
    {
      this.client := client;
    }

    /** Count this request and refuse it above the limit; no other key is touched. */
    method Require(scope: string, subject: string, limit: int, windowSeconds: int, now: int)
      returns (r: Result<(), LimitError>)
      modifies client`counters
      ensures var key := "ratelimit:" + scope + ":" + subject;
        var (after, count) := Hit(Lookup(old(client.counters), key), 1000 * windowSeconds, now);
        && client.counters == Store(old(client.counters), key, after)
        && (r.Ok? <==> count <= limit)
    {
      var key := "ratelimit:" + scope + ":" + subject;
      var count := client.Incr(key, now);
      client.ExpireNx(key, 1000 * windowSeconds, now);
      if count > limit {
        return Err(RateLimitExceeded);
      }
      r := Ok(());
    }
  }

  // ----- Whole runs on one key -----

  ghost predicate Ordered(times: seq<int>) {
    forall i, j | 0 <= i < j < |times| :: times[i] <= times[j]
  }

  function After(times: seq<int>, window: int): Option<Counter> {
    if times == [] then None else Hit(After(times[..|times| - 1], window), window, times[|times| - 1]).0
  }

  /** Whether the last request of the run is accepted. */
  predicate Accepts(times: seq<int>, window: int, limit: int)
    requires times != []
  {
    Hit(After(times[..|times| - 1], window), window, times[|times| - 1]).1 <= limit
  }

  /** How many requests made from `low` up to, not including, `high` are accepted. */
  function Granted(times: seq<int>, window: int, limit: int, low: int, high: int): nat {
    if times == [] then 0
    else
      Granted(times[..|times| - 1], window, limit, low, high)
      + if low <= times[|times| - 1] < high && Accepts(times, window, limit) then 1 else 0
  }

  /** Once a request has been made the key has an expiry, at most a window after the last request. */
  lemma {:induction false} WindowIsOpen(times: seq<int>, window: int)
    requires window > 0 && Ordered(times) && times != []
    ensures var c := After(times, window);
      && c.Some? && c.value.expiresAt.Some? && c.value.count >= 1
      && c.value.expiresAt.value - window <= times[|times| - 1] < c.value.expiresAt.value
  {
    var before, now := times[..|times| - 1], times[|times| - 1];
    if before != [] {
      WindowIsOpen(before, window);
      assert before[|before| - 1] <= now;
    }
  }

  lemma {:induction false} NothingGrantedBefore(times: seq<int>, window: int, limit: int, low: int, high: int)
    requires Ordered(times) && (times == [] || times[|times| - 1] < low)
    ensures Granted(times, window, limit, low, high) == 0
  {
    if times != [] {
      NothingGrantedBefore(times[..|times| - 1], window, limit, low, high);
    }
  }

  /** What can have been accepted since `low`, by where the current window started. */
  ghost predicate WithinBudget(times: seq<int>, window: int, limit: int, low: int)
    requires times != [] && After(times, window).Some? && After(times, window).value.expiresAt.Some?
  {
    var c := After(times, window).value;
    var start, granted := c.expiresAt.value - window, Granted(times, window, limit, low, low + window);
    if start < low then granted <= Min(c.count, limit) - 1
    else if start < low + window then granted <= limit - 1 + Min(c.count, limit)
    else granted <= 2 * limit - 1
  }

  lemma {:induction false} EveryRunIsWithinBudget(times: seq<int>, window: int, limit: int, low: int)
    requires window > 0 && limit >= 1 && Ordered(times) && times != []
    ensures After(times, window).Some? && After(times, window).value.expiresAt.Some?
    ensures WithinBudget(times, window, limit, low)
  {
    WindowIsOpen(times, window);
    var before, now := times[..|times| - 1], times[|times| - 1];
    if before != [] {
      WindowIsOpen(before, window);
      EveryRunIsWithinBudget(before, window, limit, low);
      assert before[|before| - 1] <= now;
      if now < low {
        NothingGrantedBefore(times, window, limit, low, low + window);
      }
    }
  }

  /** In any half-open interval as long as the window, at most twice the limit less one requests are
      accepted; and none when the limit is not positive. */
  lemma LimiterBound(times: seq<int>, window: int, limit: int, low: int)
    requires window > 0 && Ordered(times)
    ensures Granted(times, window, limit, low, low + window) <= if limit >= 1 then 2 * limit - 1 else 0
  {
    if limit < 1 {
      NothingGrantedWithoutLimit(times, window, limit, low, low + window);
    } else if times != [] {
      EveryRunIsWithinBudget(times, window, limit, low);
    }
  }

  lemma {:induction false} NothingGrantedWithoutLimit(times: seq<int>, window: int, limit: int, low: int, high: int)
    requires limit < 1
    ensures Granted(times, window, limit, low, high) == 0
  {
    if times != [] {
      NothingGrantedWithoutLimit(times[..|times| - 1], window, limit, low, high);
    }
  }

  lemma OneMore(times: seq<int>, window: int, limit: int, low: int, high: int, now: int)
    ensures After(times + [now], window) == Hit(After(times, window), window, now).0
    ensures Accepts(times + [now], window, limit) <==> Hit(After(times, window), window, now).1 <= limit
    ensures Granted(times + [now], window, limit, low, high)
         == Granted(times, window, limit, low, high)
            + if low <= now < high && Accepts(times + [now], window, limit) then 1 else 0
  {
    assert (times + [now])[..|times|] == times;
  }

  /** A request never moves the expiry of an open window, accepted or not; the first request after the
      expiry opens a new window and is accepted whenever the limit allows one. */
  lemma WindowsNeverExtend(times: seq<int>, window: int, limit: int, now: int)
    requires window > 0 && Ordered(times) && times != [] && times[|times| - 1] <= now
    ensures After(times, window).Some? && After(times, window).value.expiresAt.Some?
    ensures After(times + [now], window).Some?
    ensures var c := After(times, window).value;
      var next := After(times + [now], window).value;
      if now < c.expiresAt.value then next.expiresAt == c.expiresAt && next.count == c.count + 1
      else next.expiresAt == Some(now + window) && (Accepts(times + [now], window, limit) <==> limit >= 1)
  {
    WindowIsOpen(times, window);
    OneMore(times, window, limit, 0, 0, now);
  }

  /** A window that is not positive expires at once: each request is the first of its own, and is accepted if
      and only if the limit is at least one. */
  lemma NoWindowNoBound(times: seq<int>, window: int, limit: int)
    requires window <= 0 && times != []
    ensures Accepts(times, window, limit) <==> limit >= 1
    ensures After(times, window) == None
  {
    if |times| > 1 {
      NoWindowNoBound(times[..|times| - 1], window, limit);
    }
  }

  // ----- The bound is reached -----

  lemma OneMoreInWindow(
    times: seq<int>, window: int, limit: int, low: int, high: int, now: int, count: nat, expiry: int)
    requires After(times, window) == Some(Counter(count, Some(expiry))) && now < expiry
    ensures After(times + [now], window) == Some(Counter(count + 1, Some(expiry)))
    ensures Granted(times + [now], window, limit, low, high)
         == Granted(times, window, limit, low, high) + if low <= now < high && count + 1 <= limit then 1 else 0
  {
    OneMore(times, window, limit, low, high, now);
  }

  lemma OneMoreOpens(times: seq<int>, window: int, limit: int, low: int, high: int, now: int)
    requires window > 0
    requires var c := After(times, window);
      c.None? || (c.value.expiresAt.Some? && c.value.expiresAt.value <= now)
    ensures After(times + [now], window) == Some(Counter(1, Some(now + window)))
    ensures Granted(times + [now], window, limit, low, high)
         == Granted(times, window, limit, low, high) + if low <= now < high && 1 <= limit then 1 else 0
  {
    OneMore(times, window, limit, low, high, now);
  }

  lemma OrderedAppend(times: seq<int>, now: int)
    requires Ordered(times) && (times == [] || times[|times| - 1] <= now)
    ensures Ordered(times + [now])
  {
  }

  /** `n` requests more at one instant, each accepted in a window that stays open. */
  lemma {:induction false} SameInstant(
    times: seq<int>, window: int, limit: int, low: int, high: int, now: int, n: nat, count: nat, expiry: int)
    returns (more: seq<int>)
    requires Ordered(times) && times != [] && times[|times| - 1] <= now
    requires After(times, window) == Some(Counter(count, Some(expiry)))
    requires low <= now < high && now < expiry && count + n <= limit
    ensures Ordered(more) && more != [] && more[|more| - 1] <= now
    ensures After(more, window) == Some(Counter(count + n, Some(expiry)))
    ensures Granted(more, window, limit, low, high) == Granted(times, window, limit, low, high) + n
  {
    more := times;
    if n > 0 {
      var before := SameInstant(times, window, limit, low, high, now, n - 1, count, expiry);
      OneMoreInWindow(before, window, limit, low, high, now, count + n - 1, expiry);
      OrderedAppend(before, now);
      more := before + [now];
    }
  }

  /** One request opens a window, the rest of the limit comes at its last instant and the whole limit
      again as soon as it has expired: some run accepts as many in one window as the bound allows. */
  lemma BoundIsReached(window: int, limit: nat) returns (times: seq<int>)
    requires window >= 2 && limit >= 1
    ensures Ordered(times)
    ensures Granted(times, window, limit, window - 1, window - 1 + window) == 2 * limit - 1
  {
    var low, high := window - 1, window - 1 + window;
    OneMoreOpens([], window, limit, low, high, 0);
    var first := [] + [0];
    var full := SameInstant(first, window, limit, low, high, window - 1, limit - 1, 1, window);
    OneMoreOpens(full, window, limit, low, high, window);
    OrderedAppend(full, window);
    times := SameInstant(full + [window], window, limit, low, high, window, limit - 1, 1, window + window);
  }
}
