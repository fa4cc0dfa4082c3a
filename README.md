# dotdotdot: the request path, modelled in Dafny

dotdotdot is a Next.js service that turns pasted text into a few bullet points. This project
models the server-side core that every request goes through:

- the `POST /api/bullets` handler. It rate-limits the caller, validates and cleans the input,
  calls the completion service through a cache, and maps every outcome to a status code and a
  JSON body;
- the input classifier `checkInputSecurity` and `shouldRateLimitByThreats`;
- the in-memory cache `MemoryCache`. It is a JavaScript `Map` swept for expired entries on
  every access, and it evicts the oldest fifth when full;
- the in-memory fixed-window limiter `rateLimit`;
- the store-backed variants `VercelKVService`, `VercelKVRateLimit` and `VercelKVCache`, over a
  Redis-like store;
- CSRF token generation and validation;
- `processUserInput` and `generateBullets`.

One Dafny module stands for each source file. Three shared modules sit underneath:

- `Strings` holds the JavaScript string built-ins the code relies on: `trim`, `split` and
  `join` on one character, `parseInt`, number to decimal text, and case-insensitive matching.
- `Types` holds the records of src/types/index.ts and the constants of src/config.ts.
- `Hashing` holds the 32-bit string fingerprint that both caches use as a key.

Code that updates state in place is modelled as classes with `modifies` clauses:

- the cache's map (`Cache.MemoryCache`);
- the limiter's map (`RateLimit.RateLimitStore`);
- the store behind the service (`Kv.Backend`).

Each method is proved equal to a specification function on the old state. The properties of
those functions are then stated as lemmas. The pure parts are functions with lemmas: the
regular expressions, `processUserInput`, token parsing and the route's decision logic.

A few things become parameters:

- the clock: every `Date.now()` reading;
- the random bytes and the HMAC;
- the completion service: an oracle giving the reply to each of the three attempts;
- the JSON body the route receives.

Every regular expression of the core has a matcher with that expression's own semantics.
Examples are the lazy `.*?` of the script pattern, the `\b` word boundaries and keyword order
of the SQL pattern, and the back-reference of the repeated-character pattern. A global
`replace(…, '')` is a left-to-right scan that drops each match and resumes after it.

## Model

| member | source | states |
|---|---|---|
| Types.CeilDiv | src/lib/kvCache.ts:79 | `Math.ceil(a / b)` is the least `r` with `a <= b*r`, i.e. `b*(r-1) < a <= b*r` |
| Strings.Trim | src/lib/processUserInput.ts:4 | `trim()` returns a contiguous slice of the input whose ends are not ECMAScript whitespace and which drops only whitespace at both ends |
| Strings.TrimKeepsTrimmed | src/lib/security.ts:137 | trimming text that has no whitespace at either end changes nothing |
| Strings.TrimIsSubsequence | src/lib/security.ts:137 | the trimmed text is obtained by deleting characters |
| Strings.LowerChar | src/lib/security.ts:8-23 | the `i` flag folds ASCII upper case to lower case and leaves every other character alone |
| Strings.IndexOf | src/lib/csrf.ts:62 | the first index at or after `from` that holds the separator; none when there is none |
| Strings.Split | src/lib/csrf.ts:62 | `split(':')` returns at least one field and no field contains the separator |
| Strings.JoinSplit | src/lib/csrf.ts:62 | joining the fields of `split(c)` with `c` gives back the string |
| Strings.SplitJoin | src/lib/csrf.ts:46 | splitting fields that do not contain `c` after joining them with `c` gives back the fields |
| Strings.SplitAppend | src/lib/csrf.ts:55 | `split` of `a + c + b` is the fields of `a` followed by the fields of `b` |
| Strings.SplitFields | src/lib/csrf.ts:52-55 | fields without separators joined by `:` split back into exactly those fields |
| Strings.NatToString | src/lib/csrf.ts:50 | `Date.now().toString()` is a non-empty string of decimal digits that starts with 0 only for the number 0 |
| Strings.DigitsOfNatToString | src/lib/cache.ts:22 | the digits of the decimal rendering of `n` denote `n` |
| Strings.ParseNatToString | src/lib/csrf.ts:85 | `parseInt` reads back the decimal rendering of a natural number |
| Strings.ParseDigits | src/lib/csrf.ts:85 | `parseInt` of a non-empty run of decimal digits is the number they denote |
| Strings.NatToStringInjective | src/lib/csrf.ts:50 | distinct numbers have distinct renderings |
| Hashing.ToInt32 | src/lib/cache.ts:20 | `hash & hash` gives the signed 32-bit integer congruent to its argument modulo 2^32 |
| Hashing.ShiftStep | src/lib/cache.ts:19-20 | on a 32-bit accumulator, `(h << 5) - h + c` truncated equals `31*h + c` truncated |
| Hashing.HashIsReducedPolynomial | src/lib/cache.ts:16-21 | truncating at every step gives the same fingerprint as truncating the base-31 polynomial once |
| Hashing.HashCode | src/lib/cache.ts:16-21 | the loop computes the fingerprint and it is a signed 32-bit integer |
| Hashing.CollidingInputs | src/lib/kvCache.ts:29-35 | "Aa" and "BB" both hash to 2112, so they share a key |
| Security.FirstLiteral | src/lib/security.ts:20 | the alternation picks the first listed keyword that occurs at the position; the match lies inside the text |
| Security.ScriptCloseFrom | src/lib/security.ts:8 | the lazy `.*?` stops at the first `</script>` reached without crossing a line terminator |
| Security.RunLength | src/lib/security.ts:41 | the run of equal characters starting at `p` is maximal |
| Security.ScriptMatchAt | src/lib/security.ts:8 | a script match starts with `<script`, ends with `</script>`, has a `>` between, and is at least 17 long |
| Security.HtmlTagMatchAt | src/lib/security.ts:14 | an HTML tag match runs from `<` to the first `>` after it |
| Security.EncodingMatchAt | src/lib/security.ts:35 | an encoding match is at least 3 characters long and lies inside the text |
| Security.RepeatMatchAt | src/lib/security.ts:41 | a repeated-character match is a run of at least 11 equal characters |
| Security.SqlMatchAt | src/lib/security.ts:20 | an SQL match is non-empty and lies inside the text |
| Security.SqlMatchIsWholeKeyword | src/lib/security.ts:20 | an SQL match is one of the 16 keywords, in any case, with a word boundary on both sides |
| Security.MatchAt | src/lib/security.ts:6-42 | each pattern's match at a position is non-empty and lies inside the text |
| Security.DropMatchesFrom | src/lib/security.ts:62 | the replace scan never lengthens the text |
| Security.Remove | src/lib/security.ts:62 | `replace(pattern, '')` never lengthens the text |
| Security.RemoveIsSubsequence | src/lib/security.ts:62 | `replace(pattern, '')` only deletes characters |
| Security.RemoveClears | src/lib/security.ts:82 | after removing a one-character pattern no character of its class is left |
| Security.RemoveNoMatch | src/lib/security.ts:60-63 | removing a pattern that does not match changes nothing |
| Security.NoMatchNoClassChar | src/lib/security.ts:125-126 | a one-character pattern that does not match means no character of its class occurs |
| Security.Strip | src/lib/security.ts:114-122 | a stage's sanitisation never lengthens the text |
| Security.RunGivesReportedAndSanitized | src/lib/security.ts:54-129 | computing the messages and the text together, stage by stage, gives both specifications |
| Security.ScreenThreat | src/lib/security.ts:60-63 | one malicious-pattern block pushes its message and strips its pattern exactly when the pattern matches the original input |
| Security.ScreenWarning | src/lib/security.ts:101-103 | one suspicious-pattern block pushes its warning exactly when the pattern matches |
| Security.ScreenMarkup | src/lib/security.ts:60-78 | the script, JavaScript, data and HTML blocks perform the first four threat stages |
| Security.ScreenInjection | src/lib/security.ts:80-98 | the command, SQL, URL and path blocks perform threat stages five to eight |
| Security.ScreenSuspicious | src/lib/security.ts:100-111 | the three warning blocks produce the warnings of the warning stages |
| Security.ScreenAdditional | src/lib/security.ts:113-129 | the length, null-byte and control-character blocks perform the last three threat stages |
| Security.CheckInputSecurity | src/lib/security.ts:54-139 | the threats and warnings are those of the stage tables; the sanitised input is the trimmed result of stripping; the input is safe exactly when there is no threat |
| Security.ReportedCharacterised | src/lib/security.ts:60-129 | a message is reported exactly when a stage carrying it fires on the original input |
| Security.ReportedInStageOrder | src/lib/security.ts:60-129 | the reported messages are a subsequence of the stage messages, in order |
| Security.ThreatMessagesDistinct | src/lib/security.ts:61-127 | the eleven threat messages differ from each other |
| Security.ThreatsOrderedAndDistinct | src/lib/security.ts:55-129 | threats come in the fixed source order, each at most once |
| Security.SafeIffNoThreatFires | src/lib/security.ts:131 | `isSafe` holds exactly when no threat check fires |
| Security.TooLongIffOverLimit | src/lib/security.ts:114-116 | the length threat is reported exactly for inputs longer than 10000 |
| Security.WarningsCharacterised | src/lib/security.ts:101-111 | a warning is reported exactly when its pattern occurs in the input |
| Security.SanitizedShrinks | src/lib/security.ts:57-128 | each later stage's text is a subsequence of each earlier stage's text |
| Security.SanitizedIsSubsequence | src/lib/security.ts:137 | sanitising never inserts or reorders: the result is obtained from the input by deletions |
| Security.ClassGoneAfterStage | src/lib/security.ts:82 | once a character-class stage has run, no character of the class survives the later stages |
| Security.SanitizedHasNoCommandOrControlChars | src/lib/security.ts:82-128 | the sanitised input has no command character and no control character |
| Security.CleanInputPassesThrough | src/lib/security.ts:57 | input on which no threat fires is neither reported nor changed |
| Security.HighRiskThreats | src/lib/security.ts:173-177 | the filter keeps only threats that mention injection, script or command |
| Security.HighRiskNonEmpty | src/lib/security.ts:173-177 | the filter keeps something exactly when some threat is high-risk |
| Security.ShouldRateLimitIffTwoHighRisk | src/lib/security.ts:172-180 | `shouldRateLimitByThreats` holds exactly when two different entries are high-risk |
| Cache.GenerateKey | src/lib/cache.ts:14-23 | the key loop gives `bullets:` and the absolute fingerprint in decimal |
| Cache.SameKeyIffSameFingerprint | src/lib/cache.ts:22 | two inputs share a key exactly when their fingerprints have the same absolute value |
| Cache.CollidingInputsShareKey | src/lib/cache.ts:22 | "Aa" and "BB" are cached under `bullets:2112` |
| Cache.Lookup | src/lib/cache.ts:55 | `Map.get` finds a value exactly for a stored key, and that slot is in the map |
| Cache.LookupDistinct | src/lib/cache.ts:55 | with distinct keys `Map.get` returns the value of the slot with that key |
| Cache.Delete | src/lib/cache.ts:40 | `Map.delete` removes exactly that key and keeps the keys distinct |
| Cache.DeleteMembers | src/lib/cache.ts:59 | after `Map.delete` exactly the slots with other keys remain |
| Cache.Put | src/lib/cache.ts:97 | `Map.set` makes the key map to the new entry, adds a slot only for a new key, and keeps keys distinct |
| Cache.PutOthers | src/lib/cache.ts:97 | `Map.set` leaves the value of every other key alone |
| Cache.Live | src/lib/cache.ts:35-43 | the sweep's result is no longer than the map, uses only its keys, and keeps them distinct |
| Cache.LiveMembers | src/lib/cache.ts:39 | the sweep keeps exactly the slots that have not expired |
| Cache.LiveAppend | src/lib/cache.ts:38-42 | the sweep works slot by slot, in order |
| Cache.Without | src/lib/cache.ts:84-86 | deleting a set of keys removes exactly those keys |
| Cache.WithoutSize | src/lib/cache.ts:84-86 | with distinct keys, one slot disappears per deleted key present |
| Cache.Insert | src/lib/cache.ts:80 | inserting into a sorted run keeps it sorted and adds exactly one slot |
| Cache.SortByTimestamp | src/lib/cache.ts:80 | `entries.sort` by timestamp gives a sorted permutation with the same keys |
| Cache.SortMembers | src/lib/cache.ts:80 | sorting keeps exactly the same slots |
| Cache.SortIsStable | src/lib/cache.ts:80 | entries with equal timestamps keep their insertion order after sorting |
| Cache.InsertKeepsTies | src/lib/cache.ts:80 | an inserted slot goes before every slot with the same timestamp |
| Cache.EvictCount | src/lib/cache.ts:83-84 | the loop deletes `min(ceil(maxSize*0.2), size)` entries |
| Cache.EvictedKeysCount | src/lib/cache.ts:83-86 | eviction selects exactly `EvictCount` keys of the map |
| Cache.EvictsCount | src/lib/cache.ts:78-87 | a full map loses exactly `EvictCount` entries |
| Cache.EvictsOldest | src/lib/cache.ts:79-86 | every evicted entry is at least as old as every kept one |
| Cache.GetReturnsOnlyFresh | src/lib/cache.ts:48-65 | `get` returns an entry only when enabled, stored under the key, and fresh at both clock readings |
| Cache.GetSweeps | src/lib/cache.ts:53-60 | after `get` no entry expired at the sweep remains, and every other fresh entry does |
| Cache.SetThenGet | src/lib/cache.ts:70-98 | `set` followed by `get` at the same instant returns the stored entry |
| Cache.SetRespectsMaxSize | src/lib/cache.ts:75-97 | `set` keeps the map within `maxSize` entries |
| Cache.DisabledCacheIsInert | src/lib/cache.ts:49-51 | a disabled cache answers nothing and stores nothing |
| Cache.MemoryCache.constructor | src/lib/cache.ts:7-9 | a new cache is empty and holds its configuration |
| Cache.MemoryCache.Cleanup | src/lib/cache.ts:35-43 | `cleanup` leaves exactly the entries the sweep specification keeps |
| Cache.MemoryCache.Get | src/lib/cache.ts:48-65 | `get` changes the map and answers as `GetOutcome` says |
| Cache.MemoryCache.Set | src/lib/cache.ts:70-98 | `set` leaves the map `SetOutcome` describes |
| Cache.MemoryCache.EvictOldest | src/lib/cache.ts:78-87 | the eviction block leaves the map `Evict` describes |
| Cache.MemoryCache.Clear | src/lib/cache.ts:103-105 | `clear` empties the map |
| Cache.MemoryCache.GetStats | src/lib/cache.ts:110-116 | `getStats` reports the entry count and the configuration |
| RateLimit.KeyFor | src/lib/rateLimit.ts:7 | the key is `rate_limit:` followed by the ip |
| RateLimit.KeysDistinguishCallers | src/lib/rateLimit.ts:7 | two callers share a record exactly when their ips are equal |
| RateLimit.OpensWindow | src/lib/rateLimit.ts:14-18 | a first request, or one after the window, opens a window of one and leaves nine |
| RateLimit.WindowEndsAfterResetTime | src/lib/rateLimit.ts:14 | the window still counts at `resetTime` and not one millisecond later |
| RateLimit.RefusesAtLimit | src/lib/rateLimit.ts:20-22 | at ten requests the caller is refused, with 0 left and nothing recorded |
| RateLimit.CountsWithinWindow | src/lib/rateLimit.ts:24-28 | below the limit the count rises by one, the window end stays, and the remaining count matches |
| RateLimit.RemainingMatchesCount | src/lib/rateLimit.ts:17-28 | a success reports what the stored count leaves, in 0..9; a refusal reports 0 |
| RateLimit.StepKeepsCountsInRange | src/lib/rateLimit.ts:12-28 | every stored count stays within 1..10 |
| RateLimit.StepTouchesOnlyOwnKey | src/lib/rateLimit.ts:12-26 | a call reads and writes only its caller's record |
| RateLimit.Calls | src/lib/rateLimit.ts:4-29 | one verdict per call |
| RateLimit.RunWithinWindow | src/lib/rateLimit.ts:4-29 | in one window the count is `min(n, 10)` and exactly the first ten calls succeed |
| RateLimit.TenPerWindow | src/lib/rateLimit.ts:8-9 | ten calls in a minute succeed and the eleventh fails |
| RateLimit.SucceedsAfterWindow | src/lib/rateLimit.ts:14-17 | after the window has run out the next call succeeds with nine left |
| RateLimit.RateLimitStore.constructor | src/lib/rateLimit.ts:2 | the store starts empty |
| RateLimit.RateLimitStore.RateLimit | src/lib/rateLimit.ts:4-29 | `rateLimit` updates the store and answers as `Step` says |
| Kv.Matching | src/lib/kv.ts:127 | KEYS returns only stored keys |
| Kv.GlobPrefix | src/lib/kv.ts:126-127 | `prefix:*` matches exactly the keys that start with `prefix:` |
| Kv.GlobStarMatchesAll | src/lib/kv.ts:137 | `*` matches every key |
| Kv.Backend.Get | src/lib/kv.ts:27 | GET answers the stored value, or fails |
| Kv.Backend.Set | src/lib/kv.ts:45 | SET stores the value and drops its expiry, or fails and changes nothing |
| Kv.Backend.SetEx | src/lib/kv.ts:43 | SETEX stores the value with an expiry for a positive timeout; otherwise it fails and changes nothing |
| Kv.Backend.Del | src/lib/kv.ts:55 | DEL removes the keys, or fails and changes nothing |
| Kv.Backend.Exists | src/lib/kv.ts:64 | EXISTS answers 1 or 0 |
| Kv.Backend.Expire | src/lib/kv.ts:75 | EXPIRE attaches an expiry to a present key |
| Kv.Backend.Add | src/lib/kv.ts:84 | INCR/DECR succeed exactly on an integer or missing key, store the new count, and otherwise change nothing |
| Kv.Backend.MGet | src/lib/kv.ts:104 | MGET answers one lookup per key, in order |
| Kv.Backend.MSet | src/lib/kv.ts:118 | MSET stores all pairs, or fails and changes nothing |
| Kv.Backend.Keys | src/lib/kv.ts:127 | KEYS answers the stored keys the pattern matches, where `*` matches any run and `?` any one character, or fails with no change |
| Kv.Backend.Ping | src/lib/kv.ts:148 | PING answers "PONG", or fails |
| Kv.FullKey | src/lib/kv.ts:16-18 | the full key is exactly one character longer than the prefix text and the key together |
| Kv.FullKeyInjective | src/lib/kv.ts:16-18 | distinct keys never share a stored value |
| Kv.FullKeyShape | src/lib/kv.ts:16-18 | the full key starts with `prefix:` and ends with the caller's key |
| Kv.DisabledGatesOnlyGetAndSet | src/lib/kv.ts:20-59 | `enabled: false` switches off `get` and `set` but not `del` and `incr` |
| Kv.FailureChangesNothing | src/lib/kv.ts:29-143 | with a failing store, every method swallows the error, changes nothing and answers its fallback |
| Kv.SetThenGet | src/lib/kv.ts:35-50 | `set` followed by `get` answers the value |
| Kv.SetLeavesOthers | src/lib/kv.ts:35-50 | `set` touches no other key |
| Kv.FlushRemovesExactlyOwnKeys | src/lib/kv.ts:134-144 | `flushall` deletes exactly the keys under the service prefix |
| Kv.PrefixedKeys | src/lib/kv.ts:112-117 | the record built by `mset` holds exactly the prefixed keys of the pairs |
| Kv.KvService.constructor | src/lib/kv.ts:12-14 | the service holds its configuration and store |
| Kv.KvService.Get | src/lib/kv.ts:20-33 | `get` answers as `GetResult` says |
| Kv.KvService.Set | src/lib/kv.ts:35-50 | `set` leaves the store `AfterSet` describes |
| Kv.KvService.Del | src/lib/kv.ts:52-59 | `del` leaves the store `AfterDel` describes |
| Kv.KvService.Exists | src/lib/kv.ts:61-70 | `exists` is true exactly when the store works and holds the full key |
| Kv.KvService.Expire | src/lib/kv.ts:72-79 | `expire` leaves the store `AfterExpire` describes |
| Kv.KvService.Incr | src/lib/kv.ts:81-89 | `incr` answers the new count, or 0 when the command fails |
| Kv.KvService.Decr | src/lib/kv.ts:91-99 | `decr` answers the new count, or 0 when the command fails |
| Kv.KvService.MGet | src/lib/kv.ts:101-110 | `mget` gives one answer per key, each null when the store fails |
| Kv.KvService.MSet | src/lib/kv.ts:112-122 | `mset` stores every pair under the prefix, or nothing |
| Kv.KvService.Keys | src/lib/kv.ts:124-132 | `keys` answers the matching full keys, or none |
| Kv.KvService.FlushAll | src/lib/kv.ts:134-144 | `flushall` leaves the store `AfterFlush` describes |
| Kv.KvService.Ping | src/lib/kv.ts:146-153 | `ping` passes the store's failure on |
| Kv.KvService.IsHealthy | src/lib/kv.ts:155-163 | `isHealthy` is true exactly when the store works |
| KvRateLimit.RefusesAtLimit | src/lib/kvRateLimit.ts:34-41 | at the limit the caller is refused with 0 left, the stored total reported, and the counter left alone |
| KvRateLimit.CountsBelowLimit | src/lib/kvRateLimit.ts:43-60 | below the limit the counter rises by one and the result reports the new total and `max(0, limit - total)` |
| KvRateLimit.ExpiryOnlyOnFirstRequest | src/lib/kvRateLimit.ts:46-50 | an expiry of `ceil(windowMs/1000)` s is attached exactly on the request that creates the counter |
| KvRateLimit.DisabledNeverRefuses | src/lib/kvRateLimit.ts:31-34 | with the store switched off `get` reads nothing, so no request is refused |
| KvRateLimit.FailingStoreFailsOpen | src/lib/kvRateLimit.ts:31-60 | with a failing store the request passes with total 0 and the full allowance, and nothing changes |
| KvRateLimit.RemainingIsWhatIsLeft | src/lib/kvRateLimit.ts:73-82 | `getRemaining` is what the stored count leaves of the limit, never below 0 |
| KvRateLimit.ResetRestartsCount | src/lib/kvRateLimit.ts:84-91 | after `reset` the next check starts at total 1 |
| KvRateLimit.Checks | src/lib/kvRateLimit.ts:24-71 | one result per check |
| KvRateLimit.ChecksUpToLimit | src/lib/kvRateLimit.ts:24-71 | starting from no counter, exactly the first `maxRequests` checks succeed and the counter stops there |
| KvRateLimit.VercelKVRateLimit.constructor | src/lib/kvRateLimit.ts:20-22 | the limiter holds its configuration |
| KvRateLimit.VercelKVRateLimit.CheckLimit | src/lib/kvRateLimit.ts:24-71 | `checkLimit` answers and updates the store as `Check` says |
| KvRateLimit.VercelKVRateLimit.GetRemaining | src/lib/kvRateLimit.ts:73-82 | `getRemaining` answers `Remaining` |
| KvRateLimit.VercelKVRateLimit.Reset | src/lib/kvRateLimit.ts:84-91 | `reset` deletes the caller's counter |
| KvRateLimit.RateLimit | src/lib/kvRateLimit.ts:98-104 | the exported `rateLimit` returns the default limiter's `success` and `remaining` |
| KvCache.SameKeyIffSameFingerprint | src/lib/kvCache.ts:27-36 | two inputs share an entry exactly when their fingerprints have the same absolute value |
| KvCache.DisabledCacheIsInert | src/lib/kvCache.ts:39-41 | a switched-off cache reads and writes nothing |
| KvCache.ExpiryBoundary | src/lib/kvCache.ts:52-58 | an entry is served at exactly `timestamp + ttl` and deleted one millisecond later |
| KvCache.TtlFallsBackToDefault | src/lib/kvCache.ts:76 | an absent or zero ttl falls back to the default |
| KvCache.SetThenGet | src/lib/kvCache.ts:65-84 | `set` stores the entry with the ttl rounded up to whole seconds, and `get` at once returns it |
| KvCache.SetNeverEvicts | src/lib/kvCache.ts:65-84 | `set` leaves every other key alone, so the size limit is never enforced |
| KvCache.StatsCountEveryServiceKey | src/lib/kvCache.ts:103-110 | the reported size counts every key under the service prefix, counters included |
| KvCache.ClearRemovesEveryServiceKey | src/lib/kvCache.ts:95-101 | `clear` removes every key of the service |
| KvCache.VercelKVCache.constructor | src/lib/kvCache.ts:20-25 | the cache holds its configuration |
| KvCache.VercelKVCache.GenerateKey | src/lib/kvCache.ts:27-36 | the key loop gives `prefix:` and the absolute fingerprint |
| KvCache.VercelKVCache.Get | src/lib/kvCache.ts:38-63 | `get` answers and updates the store as `GetOutcome` says |
| KvCache.VercelKVCache.Set | src/lib/kvCache.ts:65-84 | `set` leaves the store `SetOutcome` describes |
| KvCache.VercelKVCache.Delete | src/lib/kvCache.ts:86-93 | `delete` deletes the entry's key |
| KvCache.VercelKVCache.Clear | src/lib/kvCache.ts:95-101 | `clear` flushes the service's keys |
| KvCache.VercelKVCache.GetStats | src/lib/kvCache.ts:103-120 | `getStats` answers `Stats`, with size 0 when the store fails |
| KvCache.VercelKVCache.IsHealthy | src/lib/kvCache.ts:122-129 | `isHealthy` is true exactly when the store works |
| Csrf.ByteToHex | src/lib/csrf.ts:13 | each byte becomes its two lower-case hex digits, high digit first |
| Csrf.ToHex | src/lib/csrf.ts:10-15 | the hex text has two characters per byte |
| Csrf.ToHexDigits | src/lib/csrf.ts:10-15 | every character of the hex text is a lower-case hex digit |
| Csrf.HexRoundTrip | src/lib/csrf.ts:10-15 | decoding the hex text gives back the bytes |
| Csrf.HexInjective | src/lib/csrf.ts:10-15 | distinct byte strings have distinct hex texts |
| Csrf.ProductionTokenShape | src/lib/csrf.ts:50-55 | a production token splits into the decimal time, a 32-digit nonce and the signature of the first two |
| Csrf.NoColonInHex | src/lib/csrf.ts:51 | the hex nonce contains no `:` |
| Csrf.NoColonInNat | src/lib/csrf.ts:50 | the decimal time contains no `:` |
| Csrf.ProductionRoundTrip | src/lib/csrf.ts:38-95 | outside development a token validates at every time from creation to five minutes later |
| Csrf.DevelopmentRoundTrip | src/lib/csrf.ts:40-78 | in development a token validates for five minutes when the session id has no `:` |
| Csrf.DevelopmentFieldsValidate | src/lib/csrf.ts:66-77 | a `dev` token with a fresh timestamp and the signature of its first three fields validates in development |
| Csrf.DevelopmentTokenShape | src/lib/csrf.ts:40-46 | a development token splits into `dev`, the session id, the time and the signature |
| Csrf.ShortTokensRefused | src/lib/csrf.ts:59-63 | an empty token or one with fewer than three fields is refused |
| Csrf.AgeLimit | src/lib/csrf.ts:84-91 | a parsed timestamp over five minutes old is refused; at exactly five minutes only the signature decides |
| Csrf.AcceptedIffSignedAndFresh | src/lib/csrf.ts:58-95 | a token validates exactly when it has at least three fields, its timestamp is not more than five minutes old, and its signature field is the HMAC of its payload (`dev:session:time` with a fourth signature field for a `dev` token in development, `time:nonce` otherwise) |
| Csrf.ForgedSignatureRefused | src/lib/csrf.ts:80-91 | outside the `dev` path a token whose third field is not the HMAC of its first two is refused at every time |
| Csrf.ForgedDevSignatureRefused | src/lib/csrf.ts:66-77 | in development a `dev` token whose fourth field is not the HMAC of `dev:session:time` is refused at every time |
| Csrf.ExtraFieldsIgnored | src/lib/csrf.ts:81 | outside development fields after the third are ignored |
| Csrf.DevTokenInProduction | src/lib/csrf.ts:66-91 | outside development a `dev:` token skips the age check and only the signature over `dev:session` decides |
| Csrf.DevIsNotANumber | src/lib/csrf.ts:85 | `parseInt("dev")` is NaN |
| ProcessInput.StripGreeting | src/lib/processUserInput.ts:5 | the greeting line, through the first line break, is removed exactly when the text opens with hi, hello or dear and has a line break |
| ProcessInput.FindSignOff | src/lib/processUserInput.ts:6 | finds the leftmost position where a sign-off is followed by no line break |
| ProcessInput.StripSignOff | src/lib/processUserInput.ts:6 | the text is cut at the leftmost sign-off match and kept whole when there is none |
| ProcessInput.StripSignOffIdempotent | src/lib/processUserInput.ts:6 | removing the sign-off twice is removing it once |
| ProcessInput.CollapseRuns | src/lib/processUserInput.ts:7-8 | collapsing runs never lengthens the text |
| ProcessInput.CollapseFirst | src/lib/processUserInput.ts:7-8 | the collapsed text starts with a class character exactly when the text does |
| ProcessInput.RunCollapses | src/lib/processUserInput.ts:7-8 | a run of two or more becomes the single replacement; a single character stays |
| ProcessInput.CollapseIsLocal | src/lib/processUserInput.ts:7-8 | a character outside the class splits the text into independently collapsed parts |
| ProcessInput.CollapsedHasNoAdjacent | src/lib/processUserInput.ts:7-8 | after collapsing no two neighbouring characters belong to the class |
| ProcessInput.CollapseKeepsClean | src/lib/processUserInput.ts:7-8 | text without neighbouring class characters is unchanged, so collapsing is idempotent |
| ProcessInput.CollapseKeepsOtherClassApart | src/lib/processUserInput.ts:7-8 | collapsing blanks keeps line breaks apart |
| ProcessInput.ProcessUserInput | src/lib/processUserInput.ts:3-22 | `originalLength` is the raw length; `tooLong` holds exactly when the cleaned text exceeds 1000, and then the text is its first 1000 characters plus `...` |
| ProcessInput.CutKeepsApart | src/lib/processUserInput.ts:12 | cutting and appending `...` keeps neighbours of the class apart |
| ProcessInput.ProcessedTextIsTidy | src/lib/processUserInput.ts:3-22 | the result has no doubled line breaks or blanks, is at most 1003 long, and is no longer than the input unless cut |
| ProcessInput.TidyInputUnchanged | src/lib/processUserInput.ts:3-22 | already tidy text of at most 1000 characters comes back unchanged |
| CallAi.BulletLines | src/lib/callAI.ts:53-59 | the bullet lines are no more than the lines |
| CallAi.BulletsAreMarked | src/lib/callAI.ts:53-59 | every bullet starts with `-` or `•` and has no whitespace at either end |
| CallAi.BulletLinesOne | src/lib/callAI.ts:55-59 | a line is kept, trimmed, exactly when it is marked |
| CallAi.BulletLinesAppend | src/lib/callAI.ts:53-59 | the extraction works line by line and keeps the order |
| CallAi.NoMarkedLineNoBullets | src/lib/callAI.ts:55-58 | without a marked line there are no bullets |
| CallAi.AttemptOutcomes | src/lib/callAI.ts:42-59 | an attempt succeeds exactly for an ok reply with non-empty content; the error messages for a bad status and an empty reply; a reply with no marked lines succeeds with no bullets |
| CallAi.FirstSuccess | src/lib/callAI.ts:17-74 | the first successful attempt, with every earlier one failed |
| CallAi.Waits | src/lib/callAI.ts:69-70 | the k-th wait is 1000·k ms |
| CallAi.RetrySucceedsAt | src/lib/callAI.ts:17-74 | the first success ends the loop with its bullets, after `k+1` requests and `k` waits |
| CallAi.RetryFails | src/lib/callAI.ts:17-80 | three failures end with the last error, after three requests and two waits |
| CallAi.FailedFirstAll | src/lib/callAI.ts:67-73 | the loop invariant: all attempts so far have failed |
| CallAi.AfterMissSucceedsAt | src/lib/callAI.ts:17-66 | after a miss the first success is stored in the cache and returned |
| CallAi.AfterMissFails | src/lib/callAI.ts:17-80 | after a miss with three failures nothing is stored and the last error is returned |
| CallAi.GenerateBullets | src/lib/callAI.ts:4-81 | `generateBullets` changes the cache and answers as `Generate` says |
| CallAi.RetryUpstream | src/lib/callAI.ts:17-80 | the retry loop changes the cache and answers as `AfterMiss` says |
| CallAi.CacheHitSkipsUpstream | src/lib/callAI.ts:6-12 | a fresh cached entry is returned with no request |
| CallAi.AtMostThreeAttempts | src/lib/callAI.ts:14-17 | at most three requests; none exactly on a hit; waits of 1000·k ms between requests |
| CallAi.SuccessIsReturnedAndCached | src/lib/callAI.ts:53-66 | the first successful reply's bullets are returned, untruncated and without error, and a later lookup finds them |
| CallAi.FailureMessageText | src/lib/callAI.ts:76-80 | the final error names three attempts and the last message |
| CallAi.FailsAfterThreeAttempts | src/lib/callAI.ts:67-80 | three failures give no bullets, the final error, waits of 1000 and 2000 ms, and no cache write |
| BulletsRoute.HandleNeverRateLimits | src/app/api/bullets/route.ts:18-64 | the handling after the limiter never answers 429 |
| BulletsRoute.AnonymousCallersShareOneLimit | src/app/api/bullets/route.ts:8 | a missing or empty header makes the caller "unknown"; any other value is used as it is |
| BulletsRoute.RateLimitComesFirst | src/app/api/bullets/route.ts:9-16 | a refused request gets 429 whatever its body and changes no records |
| BulletsRoute.AdmittedRequestIsCounted | src/app/api/bullets/route.ts:9-16 | every admitted request is counted, whatever happens afterwards |
| BulletsRoute.StatusAndPayloadAgree | src/app/api/bullets/route.ts:8-64 | the status is 200, 400, 429 or 500, and bullets come exactly with 200 |
| BulletsRoute.BrokenBodyIsServerError | src/app/api/bullets/route.ts:59-64 | an unparseable or `null` body gets 500 "Internal server error" |
| BulletsRoute.InvalidInputIsRejected | src/app/api/bullets/route.ts:21-26 | a missing, empty or non-text input gets 400 "Invalid input format" |
| BulletsRoute.ProcessedShortIffCleanShort | src/app/api/bullets/route.ts:28-30 | the processed text is shorter than 10 exactly when the cleaned input is |
| BulletsRoute.ShortInputIsRejected | src/app/api/bullets/route.ts:30-37 | a text input gets 400 "Input too short" exactly when its cleaned form has fewer than 10 characters |
| BulletsRoute.ShortAnswerIgnoresAi | src/app/api/bullets/route.ts:30-39 | a too-short input is refused before `generateBullets` |
| BulletsRoute.AiOnlyConsultedForUsableInput | src/app/api/bullets/route.ts:8-39 | a request that does not reach `generateBullets` is answered the same whatever it would return |
| BulletsRoute.AiErrorIsPassedOn | src/app/api/bullets/route.ts:41-46 | an error from `generateBullets` is passed on with 500 |
| BulletsRoute.SuccessReportsProcessing | src/app/api/bullets/route.ts:49-58 | the success body has the AI's bullets, `truncated` from processing, the raw and processed lengths, and cache stats exactly in development |

## Left out

- `logSecurityEvent` (src/lib/security.ts:144-167) only writes to the console, so it is not modelled.
- The `vbscriptProtocol` and `dangerousChars` patterns are declared but never used by `checkInputSecurity`; their matchers exist, but they belong to no stage.
- Regular-expression `lastIndex` state is not modelled: every `test` starts at position 0. For the threat patterns this is exact, because a failed `test` and a global `replace` both reset `lastIndex` to 0. The three warning patterns are `g` expressions shared across calls. After a successful `test`, `lastIndex` stays at the end of the match, so the next call of `checkInputSecurity` can miss an occurrence before that index.
- JavaScript strings are UTF-16 code units, while a Dafny `char` is a Unicode scalar value. Characters outside the Basic Multilingual Plane count as one character here and as two in the source, which affects lengths, `\x7E` classes and the fingerprint.
- Web Crypto is left out. The HMAC-SHA256 of `generateHMAC` is a function parameter (any deterministic function of message and secret), the random nonce is a parameter, and `TextEncoder` is not modelled.
- `fetch` and the completion service are left out. Each attempt's reply is an oracle input. The request body, headers and model name are not modelled, and neither is the `choices[0].message.content` path of a body that is not a string.
- The `setTimeout` delays of `generateBullets` are reported as a list of milliseconds; no time passes.
- Every `Date.now()` and `process.env` read becomes a parameter. The cache's `get` reads the clock twice (sweep and expiry check), and the model takes two readings.
- Configuration parsing (`parseInt(process.env.…)`) and the singleton instances are left out. Constructors take the configuration.
- Cache.EvictCount: `Math.ceil(maxSize * 0.2)` is computed on integers as `ceil(maxSize / 5)`. That is exact for integer `maxSize`, but floating-point rounding is not modelled.
- KvCache.ExpiryBoundary: a `NaN` ttl or timestamp is not modelled; times are integers.
- Kv.Truthy: `NaN` as a `ttlSeconds` is not modelled.
- Kv.Backend: the store follows Redis semantics for GET, SET, SETEX, DEL, EXISTS, EXPIRE, INCR, DECR, MGET, MSET and PING, and for KEYS only as far as `Kv.GlobMatch` goes; `@vercel/kv`'s JSON serialisation is not modelled. Keys expire only when the service deletes them, not through the passage of time.
- Kv.Backend.Keys: the pattern is matched by `Kv.GlobMatch`, so KEYS does not treat `[...]`, `[^...]`, `[a-z]` or `\` specially as Redis does; a pattern holding those characters is answered as if they were literal. The service itself only ever sends `prefix:*` with a prefix free of them (`Kv.GlobPrefix`).
- Kv.GlobMatch: only the `*` and `?` wildcards of the Redis glob are modelled; bracket classes `[...]`, negated classes `[^...]`, ranges `[a-z]` and `\` escapes are not, because no caller in this code sends a pattern holding them.
- KvRateLimit.Remaining: for a stored value that is not a number (a cache entry), `max(0, limit - NaN)` is `NaN` in the source; the model answers the full limit instead.
- KvCache.GetOutcome: a stored number under a cache key is treated as a miss; the source would read its fields as `undefined`.
- The `catch` of `checkLimit` (src/lib/kvRateLimit.ts:61-70) cannot be reached: the service methods catch every store error. It is not modelled, and neither is the race between `get` and `incr` under concurrent requests.
- The `catch` of `validateCSRFToken` (src/lib/csrf.ts:92-94) cannot be reached by the modelled operations.
- Csrf.GenerateToken: the clock is a natural number of milliseconds.
- Security.CheckInputSecurity: the source's blocks are grouped into four helper methods that follow its own comments (`ScreenMarkup`, `ScreenInjection`, `ScreenSuspicious`, `ScreenAdditional`); the order of the blocks is kept.
- CallAi.RetryUpstream: the `for` loop of `generateBullets` is a method of its own, called after the cache lookup.
- BulletsRoute.Post: the route's collaborators are parameters. These are what `req.json()` yields, what `generateBullets` resolves to, `cache.getStats()` and `NODE_ENV`. The route imports the in-memory limiter (src/lib/rateLimit.ts), and that is the one used.
- BulletsRoute.Handle: a JSON value that is not an object is treated as a body without an `input` field, as destructuring it gives `undefined`.
- The client pages and components, src/app/api/csrf-token/route.ts and next.config.js are not part of this model.
