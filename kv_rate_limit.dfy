/** The store-backed limiter of src/lib/kvRateLimit.ts: a counter per caller under
    `keyPrefix:identifier`, read with the service's (gated) `get`, raised with its (ungated)
    `incr`, and given an expiry of one window when it is first created. */
module KvRateLimit {
  import opened Strings
  import opened Types
  import opened Kv

  /** `RateLimitConfig`; a missing `keyPrefix` renders as the text "undefined". */
  datatype RateLimitConfig = RateLimitConfig(windowMs: int, maxRequests: int, keyPrefix: Option<string>)

  /** `RateLimitResult`. */
  datatype RateLimitResult = RateLimitResult(success: bool, remaining: int, resetTime: int, total: int)

  /** The configuration of the default limiter (src/config.ts). */
  const DefaultConfig: RateLimitConfig :=
    RateLimitConfig(RateLimitWindowMs, RateLimitMaxRequests, Some(RateLimitKeyPrefix))

  /** The counter's key, before the store service adds its own prefix. */
  function CounterKey(config: RateLimitConfig, identifier: string): string
  {
    PrefixText(config.keyPrefix) + ":" + identifier
  }

  /** `(await get(key)) || 0`: a missing value counts as 0; a stored cache entry is not a
      number and compares with nothing (none). */
  function CurrentCount(v: Option<Value>): Option<int>
  {
    if v.None? then Some(0)
    else if v.value.Number? then Some(v.value.n)
    else None
  }

  function Max(a: int, b: int): int
  {
    if a >= b then a else b
  }

  /** Specification of `checkLimit(identifier)` at time `now`, against a service with
      configuration `kv` over a store `db` that fails when `failing`: the new store and
      the result. */
  function Check(kv: KvConfig, failing: bool, db: Db, config: RateLimitConfig, identifier: string, now: int)
    : (RateLimitResult, Db)
  {
    var key := CounterKey(config, identifier);
    var current := CurrentCount(GetResult(kv, failing, db, key));
    if current.Some? && current.value >= config.maxRequests then
      (RateLimitResult(false, 0, now + config.windowMs, current.value), db)
    else
      var (counted, newCount) := AddResult(kv, failing, db, key, 1);
      var after := if newCount == 1 then AfterExpire(kv, failing, counted, key, CeilDiv(config.windowMs, 1000))
        else counted;
      (RateLimitResult(true, Max(0, config.maxRequests - newCount), now + config.windowMs, newCount), after)
  }

  /** `getRemaining(identifier)`. */
  function Remaining(kv: KvConfig, failing: bool, db: Db, config: RateLimitConfig, identifier: string): int
  {
    var current := CurrentCount(GetResult(kv, failing, db, CounterKey(config, identifier)));
    if current.Some? then Max(0, config.maxRequests - current.value) else config.maxRequests
  }

  /** A caller whose stored count has reached the limit is refused with nothing left, the
      stored count reported, and the counter left alone. */
  lemma RefusesAtLimit(kv: KvConfig, db: Db, config: RateLimitConfig, identifier: string, now: int, count: int)
    requires kv.enabled
    requires Lookup(db, FullKey(kv.keyPrefix, CounterKey(config, identifier))) == Some(Number(count))
    requires count >= config.maxRequests
    ensures Check(kv, false, db, config, identifier, now)
      == (RateLimitResult(false, 0, now + config.windowMs, count), db)
  {
  }

  /** Below the limit the counter goes up by exactly one, the result reports the new count
      and what it leaves of the limit, and the window end is one window from now. */
  lemma CountsBelowLimit(kv: KvConfig, db: Db, config: RateLimitConfig, identifier: string, now: int, count: int)
    requires config.windowMs > 0
    requires Counter(db, FullKey(kv.keyPrefix, CounterKey(config, identifier))) == Some(count)
    requires !kv.enabled || count < config.maxRequests
    requires !kv.enabled ==> config.maxRequests > 0
    ensures var (r, after) := Check(kv, false, db, config, identifier, now);
      var k := FullKey(kv.keyPrefix, CounterKey(config, identifier));
      Lookup(after, k) == Some(Number(count + 1)) && r.success && r.total == count + 1
      && r.remaining == Max(0, config.maxRequests - (count + 1)) && r.resetTime == now + config.windowMs
  {
    assert CeilDiv(config.windowMs, 1000) > 0;
  }

  /** An expiry of `ceil(windowMs / 1000)` seconds is attached exactly when the counter has
      just been created; otherwise the expiries stay as they were. */
  lemma ExpiryOnlyOnFirstRequest(kv: KvConfig, db: Db, config: RateLimitConfig, identifier: string, now: int)
    requires config.windowMs > 0
    ensures var (r, after) := Check(kv, false, db, config, identifier, now);
      var k := FullKey(kv.keyPrefix, CounterKey(config, identifier));
      (r.success && r.total == 1 ==> k in after.expiry && after.expiry[k] == CeilDiv(config.windowMs, 1000))
      && (!(r.success && r.total == 1) ==> after.expiry == db.expiry)
  {
    var k := FullKey(kv.keyPrefix, CounterKey(config, identifier));
    var (r, after) := Check(kv, false, db, config, identifier, now);
    if r.success && r.total == 1 {
      assert CeilDiv(config.windowMs, 1000) > 0;
      assert k in AddResult(kv, false, db, CounterKey(config, identifier), 1).0.data;
    }
  }

  /** With the store switched off, `get` always reads nothing, so the limiter never refuses
      (while `incr` goes on counting). */
  lemma DisabledNeverRefuses(kv: KvConfig, failing: bool, db: Db, config: RateLimitConfig, identifier: string, now: int)
    requires !kv.enabled && config.maxRequests > 0
    ensures Check(kv, failing, db, config, identifier, now).0.success
  {
  }

  /** With a failing store the limiter lets the request through, reports total 0 and the
      whole allowance, and changes nothing. */
  lemma FailingStoreFailsOpen(kv: KvConfig, db: Db, config: RateLimitConfig, identifier: string, now: int)
    requires config.maxRequests > 0
    ensures Check(kv, true, db, config, identifier, now)
      == (RateLimitResult(true, config.maxRequests, now + config.windowMs, 0), db)
  {
  }

  /** `getRemaining` reports what the stored count leaves of the limit, never below 0. */
  lemma RemainingIsWhatIsLeft(kv: KvConfig, db: Db, config: RateLimitConfig, identifier: string, count: int)
    requires kv.enabled
    requires Lookup(db, FullKey(kv.keyPrefix, CounterKey(config, identifier))) == Some(Number(count))
    ensures Remaining(kv, false, db, config, identifier) == Max(0, config.maxRequests - count)
    ensures Remaining(kv, false, db, config, identifier) >= 0
  {
  }

  /** After `reset` the next check starts a new count: total 1. */
  lemma ResetRestartsCount(kv: KvConfig, db: Db, config: RateLimitConfig, identifier: string, now: int)
    requires config.maxRequests > 0
    ensures var cleared := AfterDel(kv, false, db, CounterKey(config, identifier));
      var (r, _) := Check(kv, false, cleared, config, identifier, now);
      r.success && r.total == 1
  {
  }

  /** Successive checks by one caller, starting from no counter: the store afterwards and the
      results in order. */
  function Checks(kv: KvConfig, db: Db, config: RateLimitConfig, identifier: string, times: seq<int>)
    : (r: (Db, seq<RateLimitResult>))
    ensures |r.1| == |times|
  {
    if times == [] then (db, [])
    else
      var (before, rs) := Checks(kv, db, config, identifier, times[..|times| - 1]);
      var (r, after) := Check(kv, false, before, config, identifier, times[|times| - 1]);
      (after, rs + [r])
  }

  /** Against a working, enabled store, and with no counter to begin with, exactly the first
      `maxRequests` checks succeed, and the counter stops at `maxRequests`. */
  lemma {:induction false} ChecksUpToLimit(kv: KvConfig, db: Db, config: RateLimitConfig, identifier: string, times: seq<int>)
    requires config.windowMs > 0 && config.maxRequests > 0 && kv.enabled
    requires FullKey(kv.keyPrefix, CounterKey(config, identifier)) !in db.data
    ensures var (after, rs) := Checks(kv, db, config, identifier, times);
      var n := if |times| < config.maxRequests then |times| else config.maxRequests;
      Lookup(after, FullKey(kv.keyPrefix, CounterKey(config, identifier))) == (if n == 0 then None else Some(Number(n)))
      && forall i :: 0 <= i < |times| ==> (rs[i].success <==> i < config.maxRequests)
  {
    if times != [] {
      var init := times[..|times| - 1];
      ChecksUpToLimit(kv, db, config, identifier, init);
      var (before, rs) := Checks(kv, db, config, identifier, init);
      var k := FullKey(kv.keyPrefix, CounterKey(config, identifier));
      var (r, after) := Check(kv, false, before, config, identifier, times[|times| - 1]);
      if |init| < config.maxRequests {
        CountsBelowLimit(kv, before, config, identifier, times[|times| - 1], |init|);
      } else {
        RefusesAtLimit(kv, before, config, identifier, times[|times| - 1], config.maxRequests);
      }
    }
  }

  /** `VercelKVRateLimit` over the shared store service. */
  class VercelKVRateLimit {
    const config: RateLimitConfig
    const kv: KvService

    constructor(config: RateLimitConfig, kv: KvService)
      ensures this.config == config && this.kv == kv
    {
      this.config := config;
      this.kv := kv;
    }

    /** `checkLimit(identifier)` with `Date.now()` passed in as `now`. */
    method CheckLimit(identifier: string, now: int) returns (r: RateLimitResult)
      modifies kv.backend`db
      ensures (r, kv.backend.db)
        == Check(kv.config, kv.backend.failing, old(kv.backend.db), config, identifier, now)
    {
      var key := CounterKey(config, identifier);
      var stored := kv.Get(key);
      var currentCount := CurrentCount(stored);
      if currentCount.Some? && currentCount.value >= config.maxRequests {
        return RateLimitResult(false, 0, now + config.windowMs, currentCount.value);
      }
      var newCount := kv.Incr(key);
      if newCount == 1 {
        var ttlSeconds := CeilDiv(config.windowMs, 1000);
        kv.Expire(key, ttlSeconds);
      }
      var remaining := Max(0, config.maxRequests - newCount);
      return RateLimitResult(true, remaining, now + config.windowMs, newCount);
    }

    method GetRemaining(identifier: string) returns (n: int)
      ensures n == Remaining(kv.config, kv.backend.failing, kv.backend.db, config, identifier)
    {
      var stored := kv.Get(CounterKey(config, identifier));
      var currentCount := CurrentCount(stored);
      if currentCount.None? {
        return config.maxRequests;
      }
      return Max(0, config.maxRequests - currentCount.value);
    }

    method Reset(identifier: string)
      modifies kv.backend`db
      ensures kv.backend.db == AfterDel(kv.config, kv.backend.failing, old(kv.backend.db), CounterKey(config, identifier))
    {
      kv.Del(CounterKey(config, identifier));
    }
  }

  /** The exported `rateLimit(ip)`: the default limiter's verdict without the window end and
      total. */
  method RateLimit(limiter: VercelKVRateLimit, ip: string, now: int) returns (success: bool, remaining: int)
    modifies limiter.kv.backend`db
    ensures var (r, after) := Check(limiter.kv.config, limiter.kv.backend.failing, old(limiter.kv.backend.db),
      limiter.config, ip, now);
      success == r.success && remaining == r.remaining && limiter.kv.backend.db == after
  {
    var result := limiter.CheckLimit(ip, now);
    return result.success, result.remaining;
  }
}
