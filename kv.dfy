/** The key-value layer of src/lib/kv.ts: `VercelKVService`, a thin wrapper over the hosted
    Redis-compatible store `kv` of @vercel/kv. The store is modelled as a map from keys to
    values together with the expiry (in seconds) last attached to each key, and a flag that
    makes every command fail, as an unreachable or misconfigured store does. */
module Kv {
  import opened Strings
  import opened Types

  /** What the store holds: the counters of the rate limiter and the entries of the cache. */
  datatype Value = Number(n: int) | Entry(entry: CacheEntry)

  /** The store's contents: values, and the expiry in seconds attached to a key. */
  datatype Db = Db(data: map<string, Value>, expiry: map<string, int>)

  /** The outcome of one command: its reply, or the error the client throws. */
  datatype Reply<T> = Ok(value: T) | Failed

  // ---------------------------------------------------------------------------
  // Store commands
  // ---------------------------------------------------------------------------

  /** GET. */
  function Lookup(db: Db, k: string): Option<Value>
  {
    if k in db.data then Some(db.data[k]) else None
  }

  /** SET and MSET forget an earlier expiry. */
  function Store(db: Db, k: string, v: Value): Db
  {
    Db(db.data[k := v], db.expiry - {k})
  }

  /** SETEX with a positive number of seconds. */
  function StoreExpiring(db: Db, k: string, v: Value, secs: int): Db
  {
    Db(db.data[k := v], db.expiry[k := secs])
  }

  /** DEL. */
  function Remove(db: Db, ks: set<string>): Db
  {
    Db(db.data - ks, db.expiry - ks)
  }

  /** EXPIRE: a key that is not there is left alone, and a timeout that is not positive
      deletes the key at once. */
  function AttachExpiry(db: Db, k: string, secs: int): Db
  {
    if k !in db.data then db
    else if secs <= 0 then Remove(db, {k})
    else Db(db.data, db.expiry[k := secs])
  }

  /** The integer INCR and DECR start from: 0 for a missing key, none (an error) for a value
      that is not an integer. */
  function Counter(db: Db, k: string): Option<int>
  {
    if k !in db.data then Some(0)
    else if db.data[k].Number? then Some(db.data[k].n)
    else None
  }

  /** INCR and DECR store the new count and keep the key's expiry. */
  function StoreCount(db: Db, k: string, n: int): Db
  {
    Db(db.data[k := Number(n)], db.expiry)
  }

  /** MSET. */
  function StoreAll(db: Db, m: map<string, Value>): Db
  {
    Db(db.data + m, db.expiry - m.Keys)
  }

  /** Glob matching of KEYS: `*` matches any run of characters, `?` any one character, and
      every other character itself. */
  predicate GlobMatch(pattern: string, s: string)
    decreases |pattern| + |s|
  {
    if pattern == [] then s == []
    else if pattern[0] == '*' then GlobMatch(pattern[1..], s) || (s != [] && GlobMatch(pattern, s[1..]))
    else s != [] && (pattern[0] == '?' || pattern[0] == s[0]) && GlobMatch(pattern[1..], s[1..])
  }

  /** KEYS: the set of stored keys the pattern matches. */
  function Matching(db: Db, pattern: string): (r: set<string>)
    ensures r <= db.data.Keys
  {
    set k | k in db.data && GlobMatch(pattern, k)
  }

  predicate HasNoWildcard(s: string)
  {
    forall i :: 0 <= i < |s| ==> s[i] != '*' && s[i] != '?'
  }

  /** A trailing `*` after literal text matches exactly the strings that start with it. */
  lemma {:induction false} GlobPrefix(lit: string, s: string)
    requires HasNoWildcard(lit)
    ensures GlobMatch(lit + "*", s) <==> lit <= s
    decreases |lit|
  {
    if lit == [] {
      assert lit + "*" == "*";
      GlobStarMatchesAll(s);
    } else {
      assert (lit + "*")[0] == lit[0];
      assert (lit + "*")[1..] == lit[1..] + "*";
      if s != [] {
        GlobPrefix(lit[1..], s[1..]);
      }
    }
  }

  /** `*` alone matches everything. */
  lemma {:induction false} GlobStarMatchesAll(s: string)
    ensures GlobMatch("*", s)
    decreases |s|
  {
    assert "*"[1..] == [];
    if s != [] {
      GlobStarMatchesAll(s[1..]);
    }
  }

  // ---------------------------------------------------------------------------
  // The store, with a flag that makes every command fail
  // ---------------------------------------------------------------------------

  class Backend {
    var db: Db
    var failing: bool

    constructor(db: Db, failing: bool)
      ensures this.db == db && this.failing == failing
    {
      this.db := db;
      this.failing := failing;
    }

    method Get(k: string) returns (r: Reply<Option<Value>>)
      ensures r == if failing then Failed else Ok(Lookup(db, k))
    {
      if failing { return Failed; }
      return Ok(Lookup(db, k));
    }

    method Set(k: string, v: Value) returns (r: Reply<()>)
      modifies this`db
      ensures r.Ok? <==> !failing
      ensures db == if failing then old(db) else Store(old(db), k, v)
    {
      if failing { return Failed; }
      db := Store(db, k, v);
      return Ok(());
    }

    /** SETEX refuses a timeout that is not positive. */
    method SetEx(k: string, secs: int, v: Value) returns (r: Reply<()>)
      modifies this`db
      ensures r.Ok? <==> !failing && secs > 0
      ensures db == if r.Ok? then StoreExpiring(old(db), k, v, secs) else old(db)
    {
      if failing || secs <= 0 { return Failed; }
      db := StoreExpiring(db, k, v, secs);
      return Ok(());
    }

    method Del(ks: set<string>) returns (r: Reply<()>)
      modifies this`db
      ensures r.Ok? <==> !failing
      ensures db == if failing then old(db) else Remove(old(db), ks)
    {
      if failing { return Failed; }
      db := Remove(db, ks);
      return Ok(());
    }

    /** EXISTS with one key answers 1 or 0. */
    method Exists(k: string) returns (r: Reply<int>)
      ensures r == if failing then Failed else Ok(if k in db.data then 1 else 0)
    {
      if failing { return Failed; }
      return Ok(if k in db.data then 1 else 0);
    }

    method Expire(k: string, secs: int) returns (r: Reply<()>)
      modifies this`db
      ensures r.Ok? <==> !failing
      ensures db == if failing then old(db) else AttachExpiry(old(db), k, secs)
    {
      if failing { return Failed; }
      db := AttachExpiry(db, k, secs);
      return Ok(());
    }

    /** INCR (`delta` 1) and DECR (`delta` -1): the new count, or an error for a value that
        is not an integer. */
    method Add(k: string, delta: int) returns (r: Reply<int>)
      modifies this`db
      ensures r.Ok? <==> !failing && Counter(old(db), k).Some?
      ensures r.Ok? ==> (r.value == Counter(old(db), k).value + delta
        && db == StoreCount(old(db), k, r.value))
      ensures r.Failed? ==> db == old(db)
    {
      if failing { return Failed; }
      var c := Counter(db, k);
      if c.None? { return Failed; }
      db := StoreCount(db, k, c.value + delta);
      return Ok(c.value + delta);
    }

    method MGet(ks: seq<string>) returns (r: Reply<seq<Option<Value>>>)
      ensures r.Ok? <==> !failing
      ensures r.Ok? ==> |r.value| == |ks| && forall i :: 0 <= i < |ks| ==> r.value[i] == Lookup(db, ks[i])
    {
      if failing { return Failed; }
      var d := db;
      return Ok(seq(|ks|, i requires 0 <= i < |ks| => Lookup(d, ks[i])));
    }

    method MSet(m: map<string, Value>) returns (r: Reply<()>)
      modifies this`db
      ensures r.Ok? <==> !failing
      ensures db == if failing then old(db) else StoreAll(old(db), m)
    {
      if failing { return Failed; }
      db := StoreAll(db, m);
      return Ok(());
    }

    method Keys(pattern: string) returns (r: Reply<set<string>>)
      ensures r == if failing then Failed else Ok(Matching(db, pattern))
    {
      if failing { return Failed; }
      return Ok(Matching(db, pattern));
    }

    method Ping() returns (r: Reply<string>)
      ensures r == if failing then Failed else Ok("PONG")
    {
      if failing { return Failed; }
      return Ok("PONG");
    }
  }

  // ---------------------------------------------------------------------------
  // VercelKVService
  // ---------------------------------------------------------------------------

  /** `VercelKVConfig`; a missing `keyPrefix` renders as the text "undefined". */
  datatype KvConfig = KvConfig(enabled: bool, keyPrefix: Option<string>)

  function PrefixText(keyPrefix: Option<string>): string
  {
    if keyPrefix.Some? then keyPrefix.value else "undefined"
  }

  /** `generateKey`: every key the service sends to the store. */
  function FullKey(keyPrefix: Option<string>, key: string): (r: string)
    ensures |r| == |PrefixText(keyPrefix)| + 1 + |key|
  {
    PrefixText(keyPrefix) + ":" + key
  }

  /** Distinct keys never share a stored value. */
  lemma FullKeyInjective(keyPrefix: Option<string>, a: string, b: string)
    ensures FullKey(keyPrefix, a) == FullKey(keyPrefix, b) <==> a == b
  {
    var n := |PrefixText(keyPrefix)| + 1;
    if FullKey(keyPrefix, a) == FullKey(keyPrefix, b) {
      assert FullKey(keyPrefix, a)[n..] == a;
      assert FullKey(keyPrefix, b)[n..] == b;
    }
  }

  /** The full key starts with `prefix:` and the rest is the caller's key. */
  lemma FullKeyShape(keyPrefix: Option<string>, key: string)
    ensures PrefixText(keyPrefix) + ":" <= FullKey(keyPrefix, key)
    ensures FullKey(keyPrefix, key)[|PrefixText(keyPrefix)| + 1..] == key
  {
  }

  // What each service method amounts to, with the failures it absorbs. They are used by
  // the rate limiter and the cache built on this service.

  /** `get`: null when disabled or when the store fails. */
  function GetResult(config: KvConfig, failing: bool, db: Db, key: string): Option<Value>
  {
    if !config.enabled || failing then None else Lookup(db, FullKey(config.keyPrefix, key))
  }

  /** A JavaScript number is truthy unless it is 0 (NaN is not modelled). */
  predicate Truthy(ttlSeconds: Option<int>)
  {
    ttlSeconds.Some? && ttlSeconds.value != 0
  }

  /** `set`: nothing when disabled; SETEX for a truthy ttl, plain SET otherwise; a failing
      command changes nothing. */
  function AfterSet(config: KvConfig, failing: bool, db: Db, key: string, v: Value, ttlSeconds: Option<int>): Db
  {
    var k := FullKey(config.keyPrefix, key);
    if !config.enabled || failing then db
    else if Truthy(ttlSeconds) then
      (if ttlSeconds.value > 0 then StoreExpiring(db, k, v, ttlSeconds.value) else db)
    else Store(db, k, v)
  }

  /** `del`, not gated by `enabled`. */
  function AfterDel(config: KvConfig, failing: bool, db: Db, key: string): Db
  {
    if failing then db else Remove(db, {FullKey(config.keyPrefix, key)})
  }

  /** `expire`, not gated by `enabled`. */
  function AfterExpire(config: KvConfig, failing: bool, db: Db, key: string, secs: int): Db
  {
    if failing then db else AttachExpiry(db, FullKey(config.keyPrefix, key), secs)
  }

  /** `incr`/`decr`, not gated by `enabled`: the new count, or 0 when the command fails. */
  function AddResult(config: KvConfig, failing: bool, db: Db, key: string, delta: int): (Db, int)
  {
    var k := FullKey(config.keyPrefix, key);
    if failing || Counter(db, k).None? then (db, 0)
    else var n := Counter(db, k).value + delta; (StoreCount(db, k, n), n)
  }

  /** `keys`, not gated by `enabled`: the stored keys matching `prefix:pattern`, or none
      when the command fails. */
  function KeysResult(config: KvConfig, failing: bool, db: Db, pattern: string): set<string>
  {
    if failing then {} else Matching(db, FullKey(config.keyPrefix, pattern))
  }

  /** `flushall`: deletes the keys that `keys('*')` lists. */
  function AfterFlush(config: KvConfig, failing: bool, db: Db): Db
  {
    var ks := KeysResult(config, failing, db, "*");
    if ks == {} then db else Remove(db, ks)
  }

  /** When `enabled` is false only `get` and `set` are switched off. */
  lemma DisabledGatesOnlyGetAndSet(config: KvConfig, failing: bool, db: Db, key: string, v: Value, ttlSeconds: Option<int>)
    requires !config.enabled
    ensures GetResult(config, failing, db, key) == None
    ensures AfterSet(config, failing, db, key, v, ttlSeconds) == db
    ensures !failing ==> AfterDel(config, failing, db, key).data.Keys == db.data.Keys - {FullKey(config.keyPrefix, key)}
    ensures !failing && Counter(db, FullKey(config.keyPrefix, key)).Some? ==>
      Lookup(AddResult(config, failing, db, key, 1).0, FullKey(config.keyPrefix, key))
        == Some(Number(Counter(db, FullKey(config.keyPrefix, key)).value + 1))
  {
  }

  /** A failing store changes nothing whatever the service is asked to do, and every read
      answers its default. */
  lemma FailureChangesNothing(config: KvConfig, db: Db, key: string, v: Value, ttlSeconds: Option<int>, secs: int, delta: int)
    ensures GetResult(config, true, db, key) == None
    ensures AfterSet(config, true, db, key, v, ttlSeconds) == db
    ensures AfterDel(config, true, db, key) == db
    ensures AfterExpire(config, true, db, key, secs) == db
    ensures AddResult(config, true, db, key, delta) == (db, 0)
    ensures KeysResult(config, true, db, key) == {}
    ensures AfterFlush(config, true, db) == db
  {
  }

  /** `set` followed by `get` of the same key answers the value just stored. */
  lemma SetThenGet(config: KvConfig, db: Db, key: string, v: Value, ttlSeconds: Option<int>)
    requires config.enabled
    requires !Truthy(ttlSeconds) || ttlSeconds.value > 0
    ensures GetResult(config, false, AfterSet(config, false, db, key, v, ttlSeconds), key) == Some(v)
  {
  }

  /** `set` touches no other key of the store. */
  lemma SetLeavesOthers(config: KvConfig, failing: bool, db: Db, key: string, v: Value, ttlSeconds: Option<int>, other: string)
    requires other != FullKey(config.keyPrefix, key)
    ensures Lookup(AfterSet(config, failing, db, key, v, ttlSeconds), other) == Lookup(db, other)
  {
  }

  /** `flushall` deletes exactly the keys under `prefix:`, and keeps every other key. */
  lemma FlushRemovesExactlyOwnKeys(config: KvConfig, db: Db, k: string)
    requires HasNoWildcard(PrefixText(config.keyPrefix))
    ensures k in AfterFlush(config, false, db).data <==> k in db.data && !(PrefixText(config.keyPrefix) + ":" <= k)
  {
    var lit := PrefixText(config.keyPrefix) + ":";
    assert HasNoWildcard(lit);
    assert FullKey(config.keyPrefix, "*") == lit + "*";
    GlobPrefix(lit, k);
    var ks := KeysResult(config, false, db, "*");
    assert k in ks <==> k in db.data && lit <= k;
  }

  /** MSET's key map: each pair's key under the prefix; for a key given twice the later
      value wins, as with assignments in order. */
  function Prefixed(keyPrefix: Option<string>, pairs: seq<(string, Value)>): map<string, Value>
  {
    if pairs == [] then map[]
    else
      var last := pairs[|pairs| - 1];
      Prefixed(keyPrefix, pairs[..|pairs| - 1])[FullKey(keyPrefix, last.0) := last.1]
  }

  /** The map built by `mset` holds exactly the prefixed keys of the pairs. */
  lemma {:induction false} PrefixedKeys(keyPrefix: Option<string>, pairs: seq<(string, Value)>, x: string)
    ensures x in Prefixed(keyPrefix, pairs) <==>
      exists i :: 0 <= i < |pairs| && x == FullKey(keyPrefix, pairs[i].0)
  {
    if pairs != [] {
      var init := pairs[..|pairs| - 1];
      PrefixedKeys(keyPrefix, init, x);
      if x in Prefixed(keyPrefix, init) {
        var i :| 0 <= i < |init| && x == FullKey(keyPrefix, init[i].0);
        assert pairs[i] == init[i];
      }
      if exists i :: 0 <= i < |pairs| && x == FullKey(keyPrefix, pairs[i].0) {
        var i :| 0 <= i < |pairs| && x == FullKey(keyPrefix, pairs[i].0);
        if i < |init| {
          assert init[i] == pairs[i];
        }
      }
    }
  }

  class KvService {
    const config: KvConfig
    const backend: Backend

    constructor(config: KvConfig, backend: Backend)
      ensures this.config == config && this.backend == backend
    {
      this.config := config;
      this.backend := backend;
    }

    method Get(key: string) returns (r: Option<Value>)
      ensures r == GetResult(config, backend.failing, backend.db, key)
    {
      if !config.enabled {
        return None;
      }
      var reply := backend.Get(FullKey(config.keyPrefix, key));
      if reply.Failed? {
        return None;
      }
      return reply.value;
    }

    /** `set(key, value, ttlSeconds?)`. */
    method Set(key: string, value: Value, ttlSeconds: Option<int>)
      modifies backend`db
      ensures backend.db == AfterSet(config, backend.failing, old(backend.db), key, value, ttlSeconds)
    {
      if !config.enabled {
        return;
      }
      var fullKey := FullKey(config.keyPrefix, key);
      if Truthy(ttlSeconds) {
        var _ := backend.SetEx(fullKey, ttlSeconds.value, value);
      } else {
        var _ := backend.Set(fullKey, value);
      }
    }

    method Del(key: string)
      modifies backend`db
      ensures backend.db == AfterDel(config, backend.failing, old(backend.db), key)
    {
      var _ := backend.Del({FullKey(config.keyPrefix, key)});
    }

    /** `exists`: true exactly when the store answers 1. */
    method Exists(key: string) returns (r: bool)
      ensures r <==> !backend.failing && FullKey(config.keyPrefix, key) in backend.db.data
    {
      var reply := backend.Exists(FullKey(config.keyPrefix, key));
      if reply.Failed? {
        return false;
      }
      return reply.value == 1;
    }

    method Expire(key: string, ttlSeconds: int)
      modifies backend`db
      ensures backend.db == AfterExpire(config, backend.failing, old(backend.db), key, ttlSeconds)
    {
      var _ := backend.Expire(FullKey(config.keyPrefix, key), ttlSeconds);
    }

    method Incr(key: string) returns (n: int)
      modifies backend`db
      ensures (backend.db, n) == AddResult(config, backend.failing, old(backend.db), key, 1)
    {
      var reply := backend.Add(FullKey(config.keyPrefix, key), 1);
      if reply.Failed? {
        return 0;
      }
      return reply.value;
    }

    method Decr(key: string) returns (n: int)
      modifies backend`db
      ensures (backend.db, n) == AddResult(config, backend.failing, old(backend.db), key, -1)
    {
      var reply := backend.Add(FullKey(config.keyPrefix, key), -1);
      if reply.Failed? {
        return 0;
      }
      return reply.value;
    }

    /** `mget`: one answer per key, each null when the store fails. */
    method MGet(keys: seq<string>) returns (r: seq<Option<Value>>)
      ensures |r| == |keys|
      ensures forall i :: 0 <= i < |keys| ==>
        r[i] == if backend.failing then None else Lookup(backend.db, FullKey(config.keyPrefix, keys[i]))
    {
      var fullKeys := seq(|keys|, i requires 0 <= i < |keys| => FullKey(config.keyPrefix, keys[i]));
      var reply := backend.MGet(fullKeys);
      if reply.Failed? {
        return seq(|keys|, i => None);
      }
      return reply.value;
    }

    /** `mset`: `pairs` are the entries of the record, in order. */
    method MSet(pairs: seq<(string, Value)>)
      modifies backend`db
      ensures backend.db == if backend.failing then old(backend.db)
        else StoreAll(old(backend.db), Prefixed(config.keyPrefix, pairs))
    {
      var full: map<string, Value> := map[];
      var i := 0;
      while i < |pairs|
        invariant 0 <= i <= |pairs|
        invariant full == Prefixed(config.keyPrefix, pairs[..i])
      {
        assert pairs[..i + 1][..i] == pairs[..i];
        full := full[FullKey(config.keyPrefix, pairs[i].0) := pairs[i].1];
        i := i + 1;
      }
      assert pairs[..i] == pairs;
      var _ := backend.MSet(full);
    }

    method Keys(pattern: string) returns (r: set<string>)
      ensures r == KeysResult(config, backend.failing, backend.db, pattern)
    {
      var reply := backend.Keys(FullKey(config.keyPrefix, pattern));
      if reply.Failed? {
        return {};
      }
      return reply.value;
    }

    /** `flushall`: deletes the keys under the prefix, and sends no DEL when there are none. */
    method FlushAll()
      modifies backend`db
      ensures backend.db == AfterFlush(config, backend.failing, old(backend.db))
    {
      var keys := Keys("*");
      if |keys| > 0 {
        var _ := backend.Del(keys);
      }
    }

    /** `ping` passes the store's failure on to its caller. */
    method Ping() returns (r: Reply<string>)
      ensures r == if backend.failing then Failed else Ok("PONG")
    {
      r := backend.Ping();
    }

    /** `isHealthy`: true exactly when `ping` succeeds. */
    method IsHealthy() returns (healthy: bool)
      ensures healthy <==> !backend.failing
    {
      var reply := Ping();
      return reply.Ok?;
    }
  }
}
