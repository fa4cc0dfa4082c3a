/** `MemoryCache` of src/lib/cache.ts: a JavaScript `Map` from fingerprint keys to cached
    summaries, swept for expired entries on every `get` and `set`, and thinned by evicting the
    oldest fifth when full. The `Map` is an insertion-ordered sequence of slots with distinct
    keys; `Date.now()` is a parameter at each place the source reads the clock. */
module Cache {
  import opened Strings
  import opened Types
  import opened Hashing

  datatype CacheConfig = CacheConfig(enabled: bool, ttl: int, maxSize: int)

  /** One key/value pair of the `Map`, in insertion order. */
  datatype Slot = Slot(key: string, entry: CacheEntry)

  // ---------------------------------------------------------------------------
  // Keys
  // ---------------------------------------------------------------------------

  /** `generateKey`: `bullets:` followed by the absolute value of the 32-bit fingerprint. */
  function KeyOf(input: string): string
  {
    "bullets:" + HashDigits(input)
  }

  /** Two inputs share a slot exactly when their fingerprints have the same absolute value. */
  lemma SameKeyIffSameFingerprint(a: string, b: string)
    ensures KeyOf(a) == KeyOf(b) <==> Abs(Hash(a)) == Abs(Hash(b))
  {
    if KeyOf(a) == KeyOf(b) {
      assert KeyOf(a)[8..] == HashDigits(a) && KeyOf(b)[8..] == HashDigits(b);
      NatToStringInjective(Abs(Hash(a)), Abs(Hash(b)));
    }
  }

  /** "Aa" and "BB" are cached under one key. */
  lemma CollidingInputsShareKey()
    ensures KeyOf("Aa") == KeyOf("BB") == "bullets:2112"
  {
    CollidingInputs();
    DecimalOf2112();
  }

  lemma DecimalOf2112()
    ensures NatToString(2112) == "2112"
  {
    assert NatToString(2) == ['2'];
    assert NatToString(21) == "2" + ['1'];
    assert NatToString(211) == "21" + ['1'];
    assert NatToString(2112) == "211" + ['2'];
  }

  /** The loop of `generateKey`. */
  method GenerateKey(input: string) returns (key: string)
    ensures key == KeyOf(input)
  {
    var hash := HashCode(input);
    key := "bullets:" + NatToString(Abs(hash));
  }

  /** `isExpired`: the age is strictly greater than the time to live. */
  predicate IsExpired(e: CacheEntry, now: int)
  {
    now - e.timestamp > e.ttl
  }

  // ---------------------------------------------------------------------------
  // The Map as a sequence of slots
  // ---------------------------------------------------------------------------

  function Keys(slots: seq<Slot>): set<string>
  {
    if slots == [] then {} else {slots[0].key} + Keys(slots[1..])
  }

  /** No key occurs twice, as in a `Map`. */
  predicate DistinctKeys(slots: seq<Slot>)
  {
    slots == [] || (slots[0].key !in Keys(slots[1..]) && DistinctKeys(slots[1..]))
  }

  lemma {:induction false} KeysMember(slots: seq<Slot>, k: string)
    ensures k in Keys(slots) <==> exists x :: x in slots && x.key == k
  {
    if slots != [] {
      KeysMember(slots[1..], k);
      assert slots == [slots[0]] + slots[1..];
    }
  }

  lemma {:induction false} KeysAppend(a: seq<Slot>, b: seq<Slot>)
    ensures Keys(a + b) == Keys(a) + Keys(b)
  {
    if a != [] {
      var ab := a + b;
      assert ab[1..] == a[1..] + b && ab[0] == a[0];
      KeysAppend(a[1..], b);
    } else {
      assert a + b == b;
    }
  }

  lemma {:induction false} DistinctAppend(a: seq<Slot>, b: seq<Slot>)
    requires DistinctKeys(a + b)
    ensures DistinctKeys(a) && DistinctKeys(b) && Keys(a) !! Keys(b)
  {
    if a != [] {
      var ab := a + b;
      assert ab[1..] == a[1..] + b && ab[0] == a[0];
      DistinctAppend(a[1..], b);
      KeysAppend(a[1..], b);
    } else {
      assert a + b == b;
    }
  }

  /** In a map with distinct keys a key names one slot. */
  lemma {:induction false} DistinctSameKey(slots: seq<Slot>, x: Slot, y: Slot)
    requires DistinctKeys(slots) && x in slots && y in slots && x.key == y.key
    ensures x == y
  {
    if x != slots[0] || y != slots[0] {
      assert slots == [slots[0]] + slots[1..];
      if x == slots[0] {
        KeysMember(slots[1..], y.key);
      } else if y == slots[0] {
        KeysMember(slots[1..], x.key);
      } else {
        DistinctSameKey(slots[1..], x, y);
      }
    }
  }

  /** `Map.get`. */
  function Lookup(slots: seq<Slot>, key: string): (r: Option<CacheEntry>)
    ensures r.Some? <==> key in Keys(slots)
    ensures r.Some? ==> Slot(key, r.value) in slots
  {
    if slots == [] then None
    else if slots[0].key == key then Some(slots[0].entry)
    else Lookup(slots[1..], key)
  }

  lemma {:induction false} LookupDistinct(slots: seq<Slot>, x: Slot)
    requires DistinctKeys(slots) && x in slots
    ensures Lookup(slots, x.key) == Some(x.entry)
  {
    if slots[0] != x {
      assert slots == [slots[0]] + slots[1..];
      KeysMember(slots[1..], x.key);
      LookupDistinct(slots[1..], x);
    }
  }

  /** `Map.delete`: drops the slot with that key. */
  function Delete(slots: seq<Slot>, key: string): (r: seq<Slot>)
    ensures Keys(r) == Keys(slots) - {key}
    ensures DistinctKeys(slots) ==> DistinctKeys(r)
  {
    if slots == [] then []
    else
      var rest := Delete(slots[1..], key);
      assert slots == [slots[0]] + slots[1..];
      if slots[0].key == key then rest
      else
        assert ([slots[0]] + rest)[1..] == rest;
        [slots[0]] + rest
  }

  lemma {:induction false} DeleteMembers(slots: seq<Slot>, key: string, x: Slot)
    ensures x in Delete(slots, key) <==> x in slots && x.key != key
  {
    if slots != [] {
      DeleteMembers(slots[1..], key, x);
      assert slots == [slots[0]] + slots[1..];
    }
  }

  lemma {:induction false} DeleteAppend(a: seq<Slot>, b: seq<Slot>, key: string)
    ensures Delete(a + b, key) == Delete(a, key) + Delete(b, key)
  {
    if a != [] {
      var ab := a + b;
      assert ab[1..] == a[1..] + b && ab[0] == a[0];
      DeleteAppend(a[1..], b, key);
      if a[0].key != key {
        calc {
          Delete(ab, key);
          [a[0]] + Delete(a[1..] + b, key);
          [a[0]] + (Delete(a[1..], key) + Delete(b, key));
          ([a[0]] + Delete(a[1..], key)) + Delete(b, key);
        }
      }
    } else {
      assert a + b == b;
    }
  }

  lemma {:induction false} DeleteAbsent(a: seq<Slot>, key: string)
    requires key !in Keys(a)
    ensures Delete(a, key) == a
  {
    if a != [] {
      DeleteAbsent(a[1..], key);
      assert a == [a[0]] + a[1..];
    }
  }

  /** `Map.set`: replaces the value in place when the key is present, appends otherwise. */
  function Put(slots: seq<Slot>, key: string, e: CacheEntry): (r: seq<Slot>)
    ensures Lookup(r, key) == Some(e)
    ensures Keys(r) == Keys(slots) + {key}
    ensures |r| == if key in Keys(slots) then |slots| else |slots| + 1
    ensures DistinctKeys(slots) ==> DistinctKeys(r)
  {
    if slots == [] then
      assert [Slot(key, e)][1..] == [];
      [Slot(key, e)]
    else if slots[0].key == key then
      var r := [Slot(key, e)] + slots[1..];
      assert r[1..] == slots[1..];
      r
    else
      var rest := Put(slots[1..], key, e);
      var r := [slots[0]] + rest;
      assert r[1..] == rest;
      r
  }

  /** `Map.set` leaves the other keys alone. */
  lemma {:induction false} PutOthers(slots: seq<Slot>, key: string, e: CacheEntry, k: string)
    requires k != key
    ensures Lookup(Put(slots, key, e), k) == Lookup(slots, k)
  {
    if slots != [] && slots[0].key != key {
      PutOthers(slots[1..], key, e, k);
      assert ([slots[0]] + Put(slots[1..], key, e))[1..] == Put(slots[1..], key, e);
    } else if slots != [] {
      assert ([Slot(key, e)] + slots[1..])[1..] == slots[1..];
    } else {
      assert [Slot(key, e)][1..] == [];
    }
  }

  /** The entries that survive a sweep at `now`, in their order. */
  function Live(slots: seq<Slot>, now: int): (r: seq<Slot>)
    ensures |r| <= |slots|
    ensures Keys(r) <= Keys(slots)
    ensures DistinctKeys(slots) ==> DistinctKeys(r)
  {
    if slots == [] then []
    else
      var rest := Live(slots[1..], now);
      assert slots == [slots[0]] + slots[1..];
      if IsExpired(slots[0].entry, now) then rest
      else
        assert ([slots[0]] + rest)[1..] == rest;
        [slots[0]] + rest
  }

  /** The sweep removes every expired entry and keeps every other one. */
  lemma {:induction false} LiveMembers(slots: seq<Slot>, now: int, x: Slot)
    ensures x in Live(slots, now) <==> x in slots && !IsExpired(x.entry, now)
  {
    if slots != [] {
      LiveMembers(slots[1..], now, x);
      assert slots == [slots[0]] + slots[1..];
    }
  }

  /** What one slot contributes to `Live`. */
  function LiveOf(x: Slot, now: int): seq<Slot>
  {
    if IsExpired(x.entry, now) then [] else [x]
  }

  lemma LiveUnfold(s: seq<Slot>, now: int)
    requires s != []
    ensures Live(s, now) == LiveOf(s[0], now) + Live(s[1..], now)
  {
  }

  /** Sweeping a concatenation sweeps each part. */
  lemma {:induction false} LiveAppend(a: seq<Slot>, b: seq<Slot>, now: int)
    ensures Live(a + b, now) == Live(a, now) + Live(b, now)
  {
    if a != [] {
      LiveAppend(a[1..], b, now);
      TailOfAppend(a, b);
      LiveUnfold(a + b, now);
      LiveUnfold(a, now);
      Regroup(LiveOf(a[0], now), Live(a[1..], now), Live(b, now),
        Live(a + b, now), Live(a, now), Live(a[1..] + b, now));
    } else {
      assert a + b == b;
    }
  }

  /** The slots whose keys are not in `gone`. */
  function Without(slots: seq<Slot>, gone: set<string>): (r: seq<Slot>)
    ensures Keys(r) == Keys(slots) - gone
    ensures DistinctKeys(slots) ==> DistinctKeys(r)
  {
    if slots == [] then []
    else
      var rest := Without(slots[1..], gone);
      assert slots == [slots[0]] + slots[1..];
      if slots[0].key in gone then rest
      else
        assert ([slots[0]] + rest)[1..] == rest;
        [slots[0]] + rest
  }

  lemma {:induction false} WithoutMembers(slots: seq<Slot>, gone: set<string>, x: Slot)
    ensures x in Without(slots, gone) <==> x in slots && x.key !in gone
  {
    if slots != [] {
      WithoutMembers(slots[1..], gone, x);
      assert slots == [slots[0]] + slots[1..];
    }
  }

  lemma {:induction false} WithoutNothing(slots: seq<Slot>)
    ensures Without(slots, {}) == slots
  {
    if slots != [] {
      WithoutNothing(slots[1..]);
      assert slots == [slots[0]] + slots[1..];
    }
  }

  /** Deleting one more key from a thinned map. */
  lemma {:induction false} WithoutStep(slots: seq<Slot>, gone: set<string>, key: string)
    ensures Delete(Without(slots, gone), key) == Without(slots, gone + {key})
  {
    if slots != [] {
      WithoutStep(slots[1..], gone, key);
      var rest := Without(slots[1..], gone);
      if slots[0].key !in gone {
        assert ([slots[0]] + rest)[1..] == rest;
      }
    }
  }

  /** With distinct keys, thinning removes one slot per key of `gone` present in the map. */
  lemma {:induction false} WithoutSize(slots: seq<Slot>, gone: set<string>)
    requires DistinctKeys(slots)
    ensures |Without(slots, gone)| == |slots| - |gone * Keys(slots)|
  {
    if slots != [] {
      var x, t := slots[0], slots[1..];
      WithoutSize(t, gone);
      if x.key in gone {
        assert gone * Keys(slots) == {x.key} + gone * Keys(t);
      } else {
        assert gone * Keys(slots) == gone * Keys(t);
      }
    }
  }

  /** A sequence with distinct keys has as many keys as slots. */
  lemma {:induction false} DistinctKeyCount(slots: seq<Slot>)
    requires DistinctKeys(slots)
    ensures |Keys(slots)| == |slots|
  {
    if slots != [] {
      DistinctKeyCount(slots[1..]);
    }
  }

  lemma {:induction false} DistinctPrefix(slots: seq<Slot>, n: nat)
    requires DistinctKeys(slots) && n <= |slots|
    ensures DistinctKeys(slots[..n])
  {
    assert slots == slots[..n] + slots[n..];
    DistinctAppend(slots[..n], slots[n..]);
  }

  // ---------------------------------------------------------------------------
  // Eviction order: `entries.sort((a, b) => a[1].timestamp - b[1].timestamp)`
  // ---------------------------------------------------------------------------

  predicate SortedByTimestamp(s: seq<Slot>)
  {
    |s| <= 1 || (s[0].entry.timestamp <= s[1].entry.timestamp && SortedByTimestamp(s[1..]))
  }

  lemma {:induction false} SortedIndex(s: seq<Slot>, i: nat, j: nat)
    requires SortedByTimestamp(s) && i < j < |s|
    ensures s[i].entry.timestamp <= s[j].entry.timestamp
  {
    if i > 0 {
      SortedIndex(s[1..], i - 1, j - 1);
    } else if j > 1 {
      SortedIndex(s[1..], 0, j - 1);
    }
  }

  /** Places `x` before the first slot that is not older than it. */
  function Insert(x: Slot, t: seq<Slot>): (r: seq<Slot>)
    ensures |r| == |t| + 1
    ensures r[0] == if t == [] || x.entry.timestamp <= t[0].entry.timestamp then x else t[0]
    ensures Keys(r) == Keys(t) + {x.key}
    ensures SortedByTimestamp(t) ==> SortedByTimestamp(r)
    ensures x.key !in Keys(t) && DistinctKeys(t) ==> DistinctKeys(r)
  {
    if t == [] then
      assert [x][1..] == [];
      [x]
    else if x.entry.timestamp <= t[0].entry.timestamp then
      var r := [x] + t;
      assert r[1..] == t;
      r
    else
      var rest := Insert(x, t[1..]);
      var r := [t[0]] + rest;
      assert r[1..] == rest;
      assert t == [t[0]] + t[1..];
      r
  }

  lemma {:induction false} InsertMembers(x: Slot, t: seq<Slot>, y: Slot)
    ensures y in Insert(x, t) <==> y == x || y in t
    decreases |t|
  {
    if t != [] {
      assert t == [t[0]] + t[1..];
      if x.entry.timestamp > t[0].entry.timestamp {
        InsertMembers(x, t[1..], y);
      }
    }
  }

  /** A stable sort by timestamp (insertion sort from the back). */
  function SortByTimestamp(s: seq<Slot>): (r: seq<Slot>)
    ensures |r| == |s|
    ensures Keys(r) == Keys(s)
    ensures SortedByTimestamp(r)
    ensures DistinctKeys(s) ==> DistinctKeys(r)
  {
    if s == [] then []
    else
      assert s == [s[0]] + s[1..];
      Insert(s[0], SortByTimestamp(s[1..]))
  }

  /** Sorting only reorders. */
  lemma {:induction false} SortMembers(s: seq<Slot>, y: Slot)
    ensures y in SortByTimestamp(s) <==> y in s
  {
    if s != [] {
      assert s == [s[0]] + s[1..];
      SortMembers(s[1..], y);
      InsertMembers(s[0], SortByTimestamp(s[1..]), y);
    }
  }

  /** What one slot contributes to `Stamped`. */
  function StampOf(x: Slot, ts: int): seq<Slot>
  {
    if x.entry.timestamp == ts then [x] else []
  }

  /** The slots with one given timestamp, in their order. */
  function Stamped(s: seq<Slot>, ts: int): seq<Slot>
  {
    if s == [] then [] else StampOf(s[0], ts) + Stamped(s[1..], ts)
  }

  lemma StampedCons(x: Slot, t: seq<Slot>, ts: int)
    ensures Stamped([x] + t, ts) == StampOf(x, ts) + Stamped(t, ts)
  {
    assert ([x] + t)[0] == x && ([x] + t)[1..] == t;
  }

  /** Two parts of which at least one is empty can be swapped. */
  lemma SwapEmpty<T>(a: seq<T>, b: seq<T>, c: seq<T>)
    requires a == [] || b == []
    ensures a + (b + c) == b + (a + c)
  {
  }

  /** `Insert` passes over a first slot that is strictly older. */
  lemma InsertPasses(x: Slot, t: seq<Slot>)
    requires t != [] && x.entry.timestamp > t[0].entry.timestamp
    ensures Insert(x, t) == [t[0]] + Insert(x, t[1..])
  {
  }

  /** One step of `InsertKeepsTies`: a slot of another timestamp in front changes nothing in
      the relative order of `x` and the slots stamped `ts`. */
  lemma StampedStep(head: Slot, x: Slot, tail: seq<Slot>, rest: seq<Slot>, ts: int)
    requires head.entry.timestamp != x.entry.timestamp
    requires Stamped(rest, ts) == StampOf(x, ts) + Stamped(tail, ts)
    ensures Stamped([head] + rest, ts) == StampOf(x, ts) + Stamped([head] + tail, ts)
  {
    StampedCons(head, rest, ts);
    StampedCons(head, tail, ts);
    SwapEmpty(StampOf(head, ts), StampOf(x, ts), Stamped(tail, ts));
  }

  /** Inserting a slot places it before every slot of its own timestamp. */
  lemma {:induction false} InsertKeepsTies(x: Slot, t: seq<Slot>, ts: int)
    ensures Stamped(Insert(x, t), ts) == StampOf(x, ts) + Stamped(t, ts)
    decreases |t|
  {
    if t == [] || x.entry.timestamp <= t[0].entry.timestamp {
      assert Insert(x, t) == [x] + t;
      StampedCons(x, t, ts);
    } else {
      InsertKeepsTies(x, t[1..], ts);
      InsertPasses(x, t);
      StampedStep(t[0], x, t[1..], Insert(x, t[1..]), ts);
      assert t == [t[0]] + t[1..];
    }
  }

  /** Stability: slots with equal timestamps keep their insertion order after sorting. */
  lemma {:induction false} SortIsStable(s: seq<Slot>, ts: int)
    ensures Stamped(SortByTimestamp(s), ts) == Stamped(s, ts)
  {
    if s != [] {
      SortIsStable(s[1..], ts);
      InsertKeepsTies(s[0], SortByTimestamp(s[1..]), ts);
    }
  }

  /** `Math.ceil(maxSize * 0.2)`, computed on integers. */
  function ToRemove(maxSize: int): int
  {
    (maxSize + 4) / 5
  }

  /** How many entries the eviction loop deletes from a map of `size` entries. */
  function EvictCount(maxSize: int, size: nat): (n: nat)
    ensures n <= size
  {
    if ToRemove(maxSize) <= 0 then 0
    else if ToRemove(maxSize) < size then ToRemove(maxSize) else size
  }

  /** The keys of the oldest `EvictCount` entries. */
  function EvictedKeys(s: seq<Slot>, maxSize: int): set<string>
  {
    Keys(SortByTimestamp(s)[..EvictCount(maxSize, |s|)])
  }

  /** The eviction step of `set`: only when the map holds `maxSize` entries or more. */
  function Evict(s: seq<Slot>, maxSize: int): seq<Slot>
  {
    if |s| >= maxSize then Without(s, EvictedKeys(s, maxSize)) else s
  }

  /** The keys chosen for eviction are `EvictCount` keys of the map. */
  lemma EvictedKeysCount(s: seq<Slot>, maxSize: int)
    requires DistinctKeys(s)
    ensures |EvictedKeys(s, maxSize)| == EvictCount(maxSize, |s|)
  {
    var order := SortByTimestamp(s);
    var n := EvictCount(maxSize, |s|);
    DistinctPrefix(order, n);
    DistinctKeyCount(order[..n]);
  }

  lemma EvictedKeysInMap(s: seq<Slot>, maxSize: int)
    ensures EvictedKeys(s, maxSize) <= Keys(s)
  {
    var order := SortByTimestamp(s);
    var n := EvictCount(maxSize, |s|);
    assert order == order[..n] + order[n..];
    KeysAppend(order[..n], order[n..]);
  }

  /** A full map loses exactly `EvictCount` entries. */
  lemma EvictsCount(s: seq<Slot>, maxSize: int)
    requires DistinctKeys(s) && |s| >= maxSize
    ensures |Evict(s, maxSize)| == |s| - EvictCount(maxSize, |s|)
  {
    var gone := EvictedKeys(s, maxSize);
    EvictedKeysCount(s, maxSize);
    EvictedKeysInMap(s, maxSize);
    assert gone * Keys(s) == gone;
    WithoutSize(s, gone);
  }

  /** Every evicted entry is at least as old as every entry kept. */
  lemma EvictsOldest(s: seq<Slot>, maxSize: int)
    requires DistinctKeys(s) && |s| >= maxSize
    ensures forall x, y :: (x in s && x.key in EvictedKeys(s, maxSize) && y in Evict(s, maxSize)
      ==> x.entry.timestamp <= y.entry.timestamp)
  {
    var order := SortByTimestamp(s);
    var n := EvictCount(maxSize, |s|);
    var gone := EvictedKeys(s, maxSize);
    forall x, y | x in s && x.key in gone && y in Evict(s, maxSize)
      ensures x.entry.timestamp <= y.entry.timestamp
    {
      OlderPair(s, maxSize, x, y);
    }
  }

  /** An evicted entry sits among the first `EvictCount` entries of the sorted order. */
  lemma EvictedPosition(s: seq<Slot>, maxSize: int, x: Slot) returns (i: nat)
    requires DistinctKeys(s) && x in s && x.key in EvictedKeys(s, maxSize)
    ensures i < EvictCount(maxSize, |s|) && SortByTimestamp(s)[i] == x
  {
    var order := SortByTimestamp(s);
    var n := EvictCount(maxSize, |s|);
    KeysMember(order[..n], x.key);
    var z :| z in order[..n] && z.key == x.key;
    i :| 0 <= i < n && order[..n][i] == z;
    assert order[i] == z;
    SortMembers(s, z);
    DistinctSameKey(s, x, z);
  }

  /** A kept entry sits after the first `EvictCount` entries of the sorted order. */
  lemma KeptPosition(s: seq<Slot>, maxSize: int, y: Slot) returns (j: nat)
    requires |s| >= maxSize && y in Evict(s, maxSize)
    ensures EvictCount(maxSize, |s|) <= j < |s| && SortByTimestamp(s)[j] == y
  {
    var order := SortByTimestamp(s);
    var n := EvictCount(maxSize, |s|);
    WithoutMembers(s, EvictedKeys(s, maxSize), y);
    SortMembers(s, y);
    j :| 0 <= j < |order| && order[j] == y;
    if j < n {
      assert y in order[..n];
      KeysMember(order[..n], y.key);
    }
  }

  lemma OlderPair(s: seq<Slot>, maxSize: int, x: Slot, y: Slot)
    requires DistinctKeys(s) && |s| >= maxSize
    requires x in s && x.key in EvictedKeys(s, maxSize) && y in Evict(s, maxSize)
    ensures x.entry.timestamp <= y.entry.timestamp
  {
    var i := EvictedPosition(s, maxSize, x);
    var j := KeptPosition(s, maxSize, y);
    SortedIndex(SortByTimestamp(s), i, j);
  }

  // ---------------------------------------------------------------------------
  // Specification of get and set
  // ---------------------------------------------------------------------------

  /** `get(input)` on a map, with `sweepNow` read by `cleanup` and `now` by `isExpired`:
      the new map and the entry returned. */
  function GetOutcome(enabled: bool, slots: seq<Slot>, key: string, sweepNow: int, now: int)
    : (seq<Slot>, Option<CacheEntry>)
  {
    if !enabled then (slots, None)
    else
      var live := Live(slots, sweepNow);
      match Lookup(live, key)
      case None => (live, None)
      case Some(e) => if IsExpired(e, now) then (Delete(live, key), None) else (live, Some(e))
  }

  /** `set(input, bullets, truncated)` on a map: sweep, evict when full, store. */
  function SetOutcome(config: CacheConfig, slots: seq<Slot>, key: string, bullets: seq<string>,
    truncated: bool, sweepNow: int, now: int): seq<Slot>
  {
    if !config.enabled then slots
    else Put(Evict(Live(slots, sweepNow), config.maxSize), key,
      CacheEntry(bullets, truncated, now, config.ttl))
  }

  /** An entry is returned only when it is fresh at both clock readings. */
  lemma GetReturnsOnlyFresh(enabled: bool, slots: seq<Slot>, key: string, sweepNow: int, now: int)
    ensures var (_, r) := GetOutcome(enabled, slots, key, sweepNow, now);
      r.Some? ==> (enabled && Slot(key, r.value) in slots
        && !IsExpired(r.value, sweepNow) && !IsExpired(r.value, now))
  {
    if enabled {
      var live := Live(slots, sweepNow);
      if Lookup(live, key).Some? {
        LiveMembers(slots, sweepNow, Slot(key, Lookup(live, key).value));
      }
    }
  }

  /** After `get` no entry expired at the sweep is left, and every fresh one still is. */
  lemma GetSweeps(slots: seq<Slot>, key: string, sweepNow: int, now: int)
    ensures var s := GetOutcome(true, slots, key, sweepNow, now).0;
      (forall x :: x in s ==> x in slots && !IsExpired(x.entry, sweepNow))
      && (forall x :: x in slots && !IsExpired(x.entry, sweepNow) && x.key != key ==> x in s)
  {
    var live := Live(slots, sweepNow);
    var s := GetOutcome(true, slots, key, sweepNow, now).0;
    forall x
      ensures (x in s ==> x in slots && !IsExpired(x.entry, sweepNow))
      ensures (x in slots && !IsExpired(x.entry, sweepNow) && x.key != key ==> x in s)
    {
      LiveMembers(slots, sweepNow, x);
      DeleteMembers(live, key, x);
    }
  }

  /** Storing and then reading at the same instant gives back what was stored, provided the
      configured time to live is not negative. */
  lemma SetThenGet(config: CacheConfig, slots: seq<Slot>, input: string, bullets: seq<string>,
    truncated: bool, now: int)
    requires config.enabled && config.ttl >= 0 && DistinctKeys(slots)
    ensures var after := SetOutcome(config, slots, KeyOf(input), bullets, truncated, now, now);
      GetOutcome(true, after, KeyOf(input), now, now).1
        == Some(CacheEntry(bullets, truncated, now, config.ttl))
  {
    var key := KeyOf(input);
    var e := CacheEntry(bullets, truncated, now, config.ttl);
    var after := SetOutcome(config, slots, key, bullets, truncated, now, now);
    assert DistinctKeys(after);
    LiveMembers(after, now, Slot(key, e));
    LookupDistinct(Live(after, now), Slot(key, e));
  }

  /** `set` keeps the map within `maxSize` entries. */
  lemma SetRespectsMaxSize(config: CacheConfig, slots: seq<Slot>, key: string,
    bullets: seq<string>, truncated: bool, sweepNow: int, now: int)
    requires config.maxSize >= 1 && |slots| <= config.maxSize && DistinctKeys(slots)
    ensures |SetOutcome(config, slots, key, bullets, truncated, sweepNow, now)| <= config.maxSize
  {
    if config.enabled {
      var live := Live(slots, sweepNow);
      if |live| >= config.maxSize {
        EvictsCount(live, config.maxSize);
        assert EvictCount(config.maxSize, |live|) >= 1;
      }
    }
  }

  /** A disabled cache neither answers nor stores. */
  lemma DisabledCacheIsInert(config: CacheConfig, slots: seq<Slot>, key: string,
    bullets: seq<string>, truncated: bool, sweepNow: int, now: int)
    requires !config.enabled
    ensures GetOutcome(false, slots, key, sweepNow, now) == (slots, None)
    ensures SetOutcome(config, slots, key, bullets, truncated, sweepNow, now) == slots
  {
  }

  // ---------------------------------------------------------------------------
  // The cache object
  // ---------------------------------------------------------------------------

  class MemoryCache {
    var slots: seq<Slot>
    const config: CacheConfig

    ghost predicate Valid()
      reads this
    {
      DistinctKeys(slots)
    }

    constructor(config: CacheConfig)
      ensures Valid() && slots == [] && this.config == config
    {
      this.config := config;
      slots := [];
    }

    /** `cleanup`: walks a snapshot of the entries and deletes each expired one. */
    method Cleanup(now: int)
      requires Valid()
      modifies this
      ensures Valid()
      ensures slots == Live(old(slots), now)
    {
      var entries := slots;
      var i := 0;
      while i < |entries|
        invariant 0 <= i <= |entries|
        invariant slots == Live(entries[..i], now) + entries[i..]
        invariant DistinctKeys(entries)
      {
        if now - entries[i].entry.timestamp > entries[i].entry.ttl {
          SweepExpired(entries, i, now);
          slots := Delete(slots, entries[i].key);
        } else {
          SweepKept(entries, i, now);
        }
        i := i + 1;
      }
      assert entries[..i] == entries && entries[i..] == [];
      assert slots == Live(entries, now) + [];
      assert slots == Live(entries, now);
    }

    /** `get`: `sweepNow` is the clock read by `cleanup`, `now` the one read by `isExpired`. */
    method Get(input: string, sweepNow: int, now: int) returns (r: Option<CacheEntry>)
      requires Valid()
      modifies this
      ensures Valid()
      ensures (slots, r) == GetOutcome(config.enabled, old(slots), KeyOf(input), sweepNow, now)
    {
      if !config.enabled {
        return None;
      }
      Cleanup(sweepNow);
      var key := GenerateKey(input);
      var entry := Lookup(slots, key);
      if entry.None? || now - entry.value.timestamp > entry.value.ttl {
        if entry.Some? {
          slots := Delete(slots, key);
        }
        return None;
      }
      r := entry;
    }

    /** `set`: `sweepNow` is the clock read by `cleanup`, `now` the one stamped on the entry. */
    method Set(input: string, bullets: seq<string>, truncated: bool, sweepNow: int, now: int)
      requires Valid()
      modifies this
      ensures Valid()
      ensures slots == SetOutcome(config, old(slots), KeyOf(input), bullets, truncated, sweepNow, now)
    {
      if !config.enabled {
        return;
      }
      Cleanup(sweepNow);
      if |slots| >= config.maxSize {
        EvictOldest();
      }
      var key := GenerateKey(input);
      slots := Put(slots, key, CacheEntry(bullets, truncated, now, config.ttl));
    }

    /** The eviction block of `set`: sort a snapshot of the entries by timestamp and delete the
        first `Math.ceil(maxSize * 0.2)` of them. */
    method EvictOldest()
      requires Valid() && |slots| >= config.maxSize
      modifies this
      ensures Valid()
      ensures slots == Evict(old(slots), config.maxSize)
    {
      var order := SortByTimestamp(slots);
      var toRemove := (config.maxSize + 4) / 5;
      ghost var live := slots;
      WithoutNothing(live);
      var i := 0;
      while i < toRemove && i < |order|
        invariant 0 <= i <= |order|
        invariant i <= EvictCount(config.maxSize, |live|)
        invariant slots == Without(live, Keys(order[..i]))
      {
        EvictStep(live, order, i);
        slots := Delete(slots, order[i].key);
        i := i + 1;
      }
      assert i == EvictCount(config.maxSize, |live|);
    }

    /** `clear`. */
    method Clear()
      modifies this
      ensures Valid() && slots == []
    {
      slots := [];
    }

    /** `getStats`: the number of entries and the configuration. */
    method GetStats() returns (stats: CacheStats)
      ensures stats == CacheStats(|slots|, config.maxSize, config.enabled)
    {
      stats := CacheStats(|slots|, config.maxSize, config.enabled);
    }
  }

  /** One turn of the eviction loop: deleting the key of the next oldest entry. */
  lemma EvictStep(live: seq<Slot>, order: seq<Slot>, i: nat)
    requires i < |order|
    ensures Delete(Without(live, Keys(order[..i])), order[i].key) == Without(live, Keys(order[..i + 1]))
  {
    WithoutStep(live, Keys(order[..i]), order[i].key);
    assert Keys(order[..i + 1]) == Keys(order[..i]) + {order[i].key} by {
      assert order[..i + 1] == order[..i] + [order[i]];
      KeysAppend(order[..i], [order[i]]);
      assert [order[i]][1..] == [];
    }
  }

  /** The sweep's view of the `i`-th slot: what is done grows by its `LiveOf`. */
  lemma SweepSplit(entries: seq<Slot>, i: nat, now: int)
    requires i < |entries|
    ensures Live(entries[..i + 1], now) == Live(entries[..i], now) + LiveOf(entries[i], now)
    ensures entries[i..] == [entries[i]] + entries[i + 1..]
  {
    var x := entries[i];
    assert entries[..i + 1] == entries[..i] + [x];
    LiveAppend(entries[..i], [x], now);
    LiveUnfold([x], now);
    assert [x][1..] == [];
  }

  /** One turn of the sweep loop on an expired entry: deleting its key. */
  lemma SweepExpired(entries: seq<Slot>, i: nat, now: int)
    requires DistinctKeys(entries) && i < |entries| && IsExpired(entries[i].entry, now)
    ensures Delete(Live(entries[..i], now) + entries[i..], entries[i].key)
      == Live(entries[..i + 1], now) + entries[i + 1..]
  {
    var done := Live(entries[..i], now);
    SweepSplit(entries, i, now);
    DeleteOne(done, entries[i], entries[i + 1..], entries, i);
    assert done + [] == done;
  }

  /** One turn of the sweep loop on a live entry: nothing to delete. */
  lemma SweepKept(entries: seq<Slot>, i: nat, now: int)
    requires i < |entries| && !IsExpired(entries[i].entry, now)
    ensures Live(entries[..i], now) + entries[i..] == Live(entries[..i + 1], now) + entries[i + 1..]
  {
    var done := Live(entries[..i], now);
    SweepSplit(entries, i, now);
    assert done + ([entries[i]] + entries[i + 1..]) == (done + [entries[i]]) + entries[i + 1..];
  }

  /** Deleting the key of the `i`-th slot of a map with distinct keys from what the sweep has
      left of it so far. */
  lemma DeleteOne(done: seq<Slot>, x: Slot, rest: seq<Slot>, entries: seq<Slot>, i: nat)
    requires DistinctKeys(entries) && i < |entries| && entries[i] == x
    requires rest == entries[i + 1..] && Keys(done) <= Keys(entries[..i])
    ensures Delete(done + entries[i..], x.key) == done + rest
  {
    assert entries[i..] == [x] + rest;
    assert entries == entries[..i] + ([x] + rest);
    DistinctAppend(entries[..i], [x] + rest);
    assert ([x] + rest)[1..] == rest;
    DeleteAbsent(done, x.key);
    DeleteAbsent(rest, x.key);
    DeleteAppend(done, [x] + rest, x.key);
  }
}
