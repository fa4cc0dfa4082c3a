/** The store-backed cache of src/lib/kvCache.ts: one store value per input fingerprint,
    expired lazily when read, with the store's own expiry set to the time to live rounded up
    to whole seconds. The size limit is only reported, never enforced. */
module KvCache {
  import opened Strings
  import opened Types
  import opened Hashing
  import opened Kv

  /** `CacheConfig` of the store-backed cache. */
  datatype KvCacheConfig = KvCacheConfig(defaultTtl: int, maxSize: int, keyPrefix: Option<string>, enabled: bool)

  /** `{ keyPrefix: 'cache', ...config }`: a prefix given in the configuration wins. */
  function EffectivePrefix(keyPrefix: Option<string>): string
  {
    if keyPrefix.Some? then keyPrefix.value else CacheKeyPrefix
  }

  /** The key of an input, before the store service adds its own prefix. */
  function EntryKey(prefix: string, input: string): string
  {
    prefix + ":" + HashDigits(input)
  }

  /** Two inputs share an entry exactly when their fingerprints have the same absolute value. */
  lemma SameKeyIffSameFingerprint(prefix: string, a: string, b: string)
    ensures EntryKey(prefix, a) == EntryKey(prefix, b) <==> Abs(Hash(a)) == Abs(Hash(b))
  {
    var n := |prefix| + 1;
    if EntryKey(prefix, a) == EntryKey(prefix, b) {
      assert EntryKey(prefix, a)[n..] == HashDigits(a) && EntryKey(prefix, b)[n..] == HashDigits(b);
      NatToStringInjective(Abs(Hash(a)), Abs(Hash(b)));
    }
  }

  /** Lazy expiry: strictly past `timestamp + ttl`. */
  predicate Expired(e: CacheEntry, now: int)
  {
    now > e.timestamp + e.ttl
  }

  /** Specification of `get(input)` at time `now`: the entry returned and the store
      afterwards. */
  function GetOutcome(config: KvCacheConfig, kv: KvConfig, failing: bool, db: Db, input: string, now: int)
    : (Option<CacheEntry>, Db)
  {
    var key := EntryKey(EffectivePrefix(config.keyPrefix), input);
    var cached := GetResult(kv, failing, db, key);
    if !config.enabled || cached.None? || !cached.value.Entry? then (None, db)
    else if Expired(cached.value.entry, now) then (None, AfterDel(kv, failing, db, key))
    else (Some(cached.value.entry), db)
  }

  /** `ttl || defaultTtl`: an absent or zero ttl falls back to the default. */
  function EntryTtl(config: KvCacheConfig, ttl: Option<int>): int
  {
    if Truthy(ttl) then ttl.value else config.defaultTtl
  }

  /** The entry `set` stores at time `now`. */
  function NewEntry(config: KvCacheConfig, bullets: seq<string>, truncated: bool, ttl: Option<int>, now: int): CacheEntry
  {
    CacheEntry(bullets, truncated, now, EntryTtl(config, ttl))
  }

  /** Specification of `set(input, bullets, truncated, ttl?)` at time `now`: the store
      afterwards. The store's expiry is `ceil(ttl / 1000)` seconds. */
  function SetOutcome(config: KvCacheConfig, kv: KvConfig, failing: bool, db: Db, input: string,
    bullets: seq<string>, truncated: bool, ttl: Option<int>, now: int): Db
  {
    if !config.enabled then db
    else
      var e := NewEntry(config, bullets, truncated, ttl, now);
      AfterSet(kv, failing, db, EntryKey(EffectivePrefix(config.keyPrefix), input), Entry(e), Some(CeilDiv(e.ttl, 1000)))
  }

  /** `getStats`: the size is the number of store keys under the service's prefix. */
  function Stats(config: KvCacheConfig, kv: KvConfig, failing: bool, db: Db): CacheStats
  {
    CacheStats(|KeysResult(kv, failing, db, "*")|, config.maxSize, config.enabled)
  }

  /** A switched-off cache reads nothing and writes nothing. */
  lemma DisabledCacheIsInert(config: KvCacheConfig, kv: KvConfig, failing: bool, db: Db, input: string,
    bullets: seq<string>, truncated: bool, ttl: Option<int>, now: int)
    requires !config.enabled
    ensures GetOutcome(config, kv, failing, db, input, now) == (None, db)
    ensures SetOutcome(config, kv, failing, db, input, bullets, truncated, ttl, now) == db
  {
  }

  /** An entry is still served at exactly `timestamp + ttl`, and one millisecond later it is
      deleted from the store and not served. */
  lemma ExpiryBoundary(config: KvCacheConfig, kv: KvConfig, db: Db, input: string, e: CacheEntry)
    requires config.enabled && kv.enabled
    requires Lookup(db, FullKey(kv.keyPrefix, EntryKey(EffectivePrefix(config.keyPrefix), input))) == Some(Entry(e))
    ensures GetOutcome(config, kv, false, db, input, e.timestamp + e.ttl) == (Some(e), db)
    ensures var (r, after) := GetOutcome(config, kv, false, db, input, e.timestamp + e.ttl + 1);
      r == None && FullKey(kv.keyPrefix, EntryKey(EffectivePrefix(config.keyPrefix), input)) !in after.data
  {
  }

  /** An absent or zero ttl falls back to the default; any other ttl is kept. */
  lemma TtlFallsBackToDefault(config: KvCacheConfig, ttl: Option<int>)
    ensures ttl == None || ttl == Some(0) ==> EntryTtl(config, ttl) == config.defaultTtl
    ensures ttl.Some? && ttl.value != 0 ==> EntryTtl(config, ttl) == ttl.value
  {
  }

  /** `set` stores the new entry with a store expiry of the time to live in whole seconds,
      rounded up, and then `get` at the same time returns it. */
  lemma SetThenGet(config: KvCacheConfig, kv: KvConfig, db: Db, input: string,
    bullets: seq<string>, truncated: bool, ttl: Option<int>, now: int)
    requires config.enabled && kv.enabled && EntryTtl(config, ttl) > 0
    ensures var after := SetOutcome(config, kv, false, db, input, bullets, truncated, ttl, now);
      var k := FullKey(kv.keyPrefix, EntryKey(EffectivePrefix(config.keyPrefix), input));
      var e := NewEntry(config, bullets, truncated, ttl, now);
      k in after.expiry && after.expiry[k] == CeilDiv(e.ttl, 1000)
      && 1000 * (after.expiry[k] - 1) < e.ttl <= 1000 * after.expiry[k]
      && GetOutcome(config, kv, false, after, input, now) == (Some(e), after)
  {
    var e := NewEntry(config, bullets, truncated, ttl, now);
    assert CeilDiv(e.ttl, 1000) > 0;
  }

  /** `set` never evicts: every other store key keeps its value, however many entries
      there are. */
  lemma SetNeverEvicts(config: KvCacheConfig, kv: KvConfig, failing: bool, db: Db, input: string,
    bullets: seq<string>, truncated: bool, ttl: Option<int>, now: int, other: string)
    requires other != FullKey(kv.keyPrefix, EntryKey(EffectivePrefix(config.keyPrefix), input))
    ensures Lookup(SetOutcome(config, kv, failing, db, input, bullets, truncated, ttl, now), other) == Lookup(db, other)
  {
    if config.enabled {
      var e := NewEntry(config, bullets, truncated, ttl, now);
      SetLeavesOthers(kv, failing, db, EntryKey(EffectivePrefix(config.keyPrefix), input), Entry(e),
        Some(CeilDiv(e.ttl, 1000)), other);
    }
  }

  /** The reported size counts every key under the service's prefix, the rate limiter's
      counters included, not only cache entries. */
  lemma StatsCountEveryServiceKey(config: KvCacheConfig, kv: KvConfig, db: Db)
    requires HasNoWildcard(PrefixText(kv.keyPrefix))
    ensures Stats(config, kv, false, db).size
      == |set k | k in db.data && PrefixText(kv.keyPrefix) + ":" <= k|
  {
    var lit := PrefixText(kv.keyPrefix) + ":";
    assert HasNoWildcard(lit);
    assert FullKey(kv.keyPrefix, "*") == lit + "*";
    forall k ensures GlobMatch(lit + "*", k) <==> lit <= k {
      GlobPrefix(lit, k);
    }
    assert KeysResult(kv, false, db, "*") == set k | k in db.data && lit <= k;
  }

  /** `clear` removes every key of the service, whoever wrote it. */
  lemma ClearRemovesEveryServiceKey(kv: KvConfig, db: Db, key: string)
    requires HasNoWildcard(PrefixText(kv.keyPrefix))
    ensures FullKey(kv.keyPrefix, key) !in AfterFlush(kv, false, db).data
  {
    FlushRemovesExactlyOwnKeys(kv, db, FullKey(kv.keyPrefix, key));
  }

  /** `VercelKVCache` over the shared store service. */
  class VercelKVCache {
    const config: KvCacheConfig
    const kv: KvService

    constructor(config: KvCacheConfig, kv: KvService)
      ensures this.config == config && this.kv == kv
    {
      this.config := config;
      this.kv := kv;
    }

    /** `generateKey`: the fingerprint loop, then `prefix:|hash|`. */
    method GenerateKey(input: string) returns (key: string)
      ensures key == EntryKey(EffectivePrefix(config.keyPrefix), input)
    {
      var hash := HashCode(input);
      key := EffectivePrefix(config.keyPrefix) + ":" + NatToString(Abs(hash));
    }

    /** `get(input)` with `Date.now()` passed in as `now`. */
    method Get(input: string, now: int) returns (r: Option<CacheEntry>)
      modifies kv.backend`db
      ensures (r, kv.backend.db) == GetOutcome(config, kv.config, kv.backend.failing, old(kv.backend.db), input, now)
    {
      if !config.enabled {
        return None;
      }
      var key := GenerateKey(input);
      var cached := kv.Get(key);
      if cached.None? || !cached.value.Entry? {
        return None;
      }
      if now > cached.value.entry.timestamp + cached.value.entry.ttl {
        kv.Del(key);
        return None;
      }
      return Some(cached.value.entry);
    }

    /** `set(input, bullets, truncated, ttl?)` with `Date.now()` passed in as `now`. */
    method Set(input: string, bullets: seq<string>, truncated: bool, ttl: Option<int>, now: int)
      modifies kv.backend`db
      ensures kv.backend.db
        == SetOutcome(config, kv.config, kv.backend.failing, old(kv.backend.db), input, bullets, truncated, ttl, now)
    {
      if !config.enabled {
        return;
      }
      var key := GenerateKey(input);
      var entry := CacheEntry(bullets, truncated, now, if Truthy(ttl) then ttl.value else config.defaultTtl);
      var ttlSeconds := CeilDiv(entry.ttl, 1000);
      kv.Set(key, Entry(entry), Some(ttlSeconds));
    }

    method Delete(input: string)
      modifies kv.backend`db
      ensures kv.backend.db
        == AfterDel(kv.config, kv.backend.failing, old(kv.backend.db), EntryKey(EffectivePrefix(config.keyPrefix), input))
    {
      var key := GenerateKey(input);
      kv.Del(key);
    }

    method Clear()
      modifies kv.backend`db
      ensures kv.backend.db == AfterFlush(kv.config, kv.backend.failing, old(kv.backend.db))
    {
      kv.FlushAll();
    }

    method GetStats() returns (stats: CacheStats)
      ensures stats == Stats(config, kv.config, kv.backend.failing, kv.backend.db)
    {
      var keys := kv.Keys("*");
      return CacheStats(|keys|, config.maxSize, config.enabled);
    }

    method IsHealthy() returns (healthy: bool)
      ensures healthy <==> !kv.backend.failing
    {
      healthy := kv.IsHealthy();
    }
  }
}
