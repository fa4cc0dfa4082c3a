/** The data shapes of src/types/index.ts and the configuration constants of src/config.ts.
    Configuration read from the environment is passed to constructors instead. */
module Types {
  import opened Strings

  /** Result of `processUserInput`. */
  datatype ProcessedInput = ProcessedInput(cleaned: string, tooLong: bool, originalLength: nat)

  /** Result of `generateBullets`; `error` is absent on success. */
  datatype AIResponse = AIResponse(bullets: seq<string>, truncated: bool, error: Option<string>)

  /** A cached summary; `timestamp` and `ttl` are milliseconds. */
  datatype CacheEntry = CacheEntry(bullets: seq<string>, truncated: bool, timestamp: int, ttl: int)

  /** What both caches report from `getStats`. */
  datatype CacheStats = CacheStats(size: nat, maxSize: int, enabled: bool)

  // Defaults of src/config.ts.
  const DefaultCacheTtl: int := 3600000
  const DefaultCacheMaxSize: int := 1000
  const CacheKeyPrefix: string := "cache"
  const RateLimitWindowMs: int := 60 * 1000
  const RateLimitMaxRequests: int := 10
  const RateLimitKeyPrefix: string := "rate_limit"
  const KvKeyPrefix: string := "dotdotdot"

  /** `Math.ceil(a / b)` for a positive divisor: the least `r` with `a <= b * r`. */
  function CeilDiv(a: int, b: int): (r: int)
    requires b > 0
    ensures b * (r - 1) < a <= b * r
  {
    var q := (a + b - 1) / b;
    assert b * q <= a + b - 1 < b * q + b;
    q
  }
}
