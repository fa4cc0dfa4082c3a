/** `generateBullets` of src/lib/callAI.ts: answer from the in-memory cache when it can,
    otherwise ask the completion service up to three times, waiting 1000·k ms after the k-th
    failure, keep the lines of the reply that are marked as bullets, and cache them. The
    service is an oracle: the outcome each of the three attempts would have. Waiting is not
    modelled as time passing; the method reports the delays it asks for. */
module CallAi {
  import opened Strings
  import opened Types
  import opened Cache

  /** `maxRetries`. */
  const MaxRetries: nat := 3

  /** What one request to the completion service comes to: an exception (network failure,
      a body that is not JSON) with its message, or a response with its status and the text
      at `choices[0].message.content`, when there is one. */
  datatype Upstream =
    | Thrown(message: string)
    | Response(ok: bool, status: nat, statusText: string, content: Option<string>)

  /** The errors the body of the `try` block throws. */
  datatype Error =
    | Raised(text: string)
    | RequestFailed(status: nat, statusText: string)
    | EmptyResponse

  /** An error's `message`. */
  function Message(e: Error): string
  {
    match e
    case Raised(text) => text
    case RequestFailed(status, statusText) => "API request failed: " + NatToString(status) + " " + statusText
    case EmptyResponse => "Empty response from AI service"
  }

  /** How the body of the `try` block ends: with the bullets, or with the error it throws. */
  datatype Outcome = Success(bullets: seq<string>) | Failure(error: Error)

  // ---------------------------------------------------------------------------
  // Bullet extraction
  // ---------------------------------------------------------------------------

  /** `line.trim().startsWith('-') || line.trim().startsWith('•')`. */
  predicate IsBulletLine(line: string)
  {
    var t := Trim(line);
    t != [] && (t[0] == '-' || t[0] == '\U{2022}')
  }

  /** What one line contributes: itself trimmed if it is a bullet, nothing otherwise. */
  function Kept(line: string): seq<string>
  {
    if IsBulletLine(line) then [Trim(line)] else []
  }

  /** `lines.filter(IsBulletLine).map(trim)`. */
  function BulletLines(lines: seq<string>): (r: seq<string>)
    ensures |r| <= |lines|
  {
    if lines == [] then [] else Kept(lines[0]) + BulletLines(lines[1..])
  }

  /** A bullet as the extraction returns it: its marker first, no whitespace at either end. */
  predicate IsBullet(b: string)
  {
    b != [] && (b[0] == '-' || b[0] == '\U{2022}') && !IsJsWhitespace(b[0]) && !IsJsWhitespace(b[|b| - 1])
  }

  /** Every bullet starts with its marker and has no whitespace at either end. */
  lemma {:induction false} BulletsAreMarked(lines: seq<string>)
    ensures forall k :: 0 <= k < |BulletLines(lines)| ==> IsBullet(BulletLines(lines)[k])
  {
    if lines != [] {
      BulletsAreMarked(lines[1..]);
      var rest := BulletLines(lines[1..]);
      var r := BulletLines(lines);
      if IsBulletLine(lines[0]) {
        var t := Trim(lines[0]);
        assert IsBullet(t);
        assert r == [t] + rest;
      } else {
        assert r == rest;
      }
    }
  }

  /** A single line is kept, trimmed, exactly when it is marked as a bullet. */
  lemma BulletLinesOne(line: string)
    ensures BulletLines([line]) == if IsBulletLine(line) then [Trim(line)] else []
  {
    assert [line][1..] == [];
  }

  /** One step of `BulletLinesAppend`: the first line of `a` is also the first of `a + b`. */
  lemma BulletLinesAppendStep(a: seq<string>, b: seq<string>)
    requires a != []
    requires BulletLines(a[1..] + b) == BulletLines(a[1..]) + BulletLines(b)
    ensures BulletLines(a + b) == BulletLines(a) + BulletLines(b)
  {
    var c := a + b;
    TailOfAppend(a, b);
    assert BulletLines(c) == Kept(a[0]) + BulletLines(c[1..]);
    assert BulletLines(a) == Kept(a[0]) + BulletLines(a[1..]);
    Regroup(Kept(a[0]), BulletLines(a[1..]), BulletLines(b), BulletLines(c), BulletLines(a), BulletLines(c[1..]));
  }

  /** The extraction works line by line and keeps the order of the lines. */
  lemma {:induction false} BulletLinesAppend(a: seq<string>, b: seq<string>)
    ensures BulletLines(a + b) == BulletLines(a) + BulletLines(b)
  {
    if a == [] {
      assert a + b == b;
    } else {
      BulletLinesAppend(a[1..], b);
      BulletLinesAppendStep(a, b);
    }
  }


  /** Without a marked line there are no bullets. */
  lemma {:induction false} NoMarkedLineNoBullets(lines: seq<string>)
    requires forall k :: 0 <= k < |lines| ==> !IsBulletLine(lines[k])
    ensures BulletLines(lines) == []
  {
    if lines != [] {
      NoMarkedLineNoBullets(lines[1..]);
    }
  }

  /** `content.split(/\n/)`, then the bullet lines. */
  function ExtractBullets(content: string): seq<string>
  {
    BulletLines(Split(content, '\n'))
  }

  // ---------------------------------------------------------------------------
  // One attempt
  // ---------------------------------------------------------------------------

  /** The body of the `try` block for one reply of the service. */
  function Attempt(u: Upstream): Outcome
  {
    match u
    case Thrown(m) => Failure(Raised(m))
    case Response(ok, status, statusText, content) =>
      if !ok then Failure(RequestFailed(status, statusText))
      else if content.None? || content.value == "" then Failure(EmptyResponse)
      else Success(ExtractBullets(content.value))
  }

  /** A reply that is not ok, or whose content is missing or empty, is a failed attempt; any
      other reply succeeds with its bullet lines, even when it has none. */
  lemma AttemptOutcomes(u: Upstream)
    ensures Attempt(u).Success? <==> u.Response? && u.ok && u.content.Some? && u.content.value != ""
    ensures u.Response? && !u.ok ==>
      Message(Attempt(u).error) == "API request failed: " + NatToString(u.status) + " " + u.statusText
    ensures u.Response? && u.ok && (u.content.None? || u.content.value == "") ==>
      Message(Attempt(u).error) == "Empty response from AI service"
    ensures u.Response? && u.ok && u.content.Some? && u.content.value != ""
      && (forall k :: 0 <= k < |Split(u.content.value, '\n')| ==> !IsBulletLine(Split(u.content.value, '\n')[k]))
      ==> Attempt(u) == Success([])
  {
    if u.Response? && u.ok && u.content.Some? && u.content.value != ""
      && (forall k :: 0 <= k < |Split(u.content.value, '\n')| ==> !IsBulletLine(Split(u.content.value, '\n')[k]))
    {
      NoMarkedLineNoBullets(Split(u.content.value, '\n'));
    }
  }

  // ---------------------------------------------------------------------------
  // The retry loop
  // ---------------------------------------------------------------------------

  /** The outcome each attempt would have. */
  function Outcomes(upstream: seq<Upstream>): seq<Outcome>
  {
    seq(|upstream|, i requires 0 <= i < |upstream| => Attempt(upstream[i]))
  }

  /** The first attempt at or after `from` that succeeds. */
  function FirstSuccess(outcomes: seq<Outcome>, from: nat): (r: Option<nat>)
    ensures r.Some? ==> (from <= r.value < |outcomes| && outcomes[r.value].Success?
      && forall k :: from <= k < r.value ==> outcomes[k].Failure?)
    ensures r.None? ==> forall k :: from <= k < |outcomes| ==> outcomes[k].Failure?
    decreases |outcomes| - from
  {
    if from >= |outcomes| then None
    else if outcomes[from].Success? then Some(from)
    else FirstSuccess(outcomes, from + 1)
  }

  /** The delays after the first `n` failures: 1000 ms, 2000 ms, ... */
  function Waits(n: nat): (w: seq<int>)
    ensures |w| == n && forall i :: 0 <= i < n ==> w[i] == 1000 * (i + 1)
  {
    if n == 0 then [] else Waits(n - 1) + [1000 * n]
  }

  /** The error returned after the last failure. */
  function FailureMessage(last: Error): string
  {
    "Failed to generate bullets after " + NatToString(MaxRetries) + " attempts: " + Message(last)
  }

  /** The retry loop: the response, the number of requests made and the delays asked for. */
  function Retry(outcomes: seq<Outcome>): (AIResponse, nat, seq<int>)
    requires |outcomes| == MaxRetries
  {
    match FirstSuccess(outcomes, 0)
    case Some(k) => (AIResponse(outcomes[k].bullets, false, None), k + 1, Waits(k))
    case None =>
      (AIResponse([], false, Some(FailureMessage(outcomes[MaxRetries - 1].error))),
       MaxRetries, Waits(MaxRetries - 1))
  }

  /** The first successful attempt ends the loop with its bullets. */
  lemma RetrySucceedsAt(outcomes: seq<Outcome>, k: nat)
    requires |outcomes| == MaxRetries && k < MaxRetries && outcomes[k].Success?
    requires forall j :: 0 <= j < k ==> outcomes[j].Failure?
    ensures FirstSuccess(outcomes, 0) == Some(k)
    ensures Retry(outcomes) == (AIResponse(outcomes[k].bullets, false, None), k + 1, Waits(k))
  {
  }

  /** Three failures end the loop with the last error. */
  lemma RetryFails(outcomes: seq<Outcome>)
    requires |outcomes| == MaxRetries
    requires forall j :: 0 <= j < MaxRetries ==> outcomes[j].Failure?
    ensures FirstSuccess(outcomes, 0).None?
    ensures Retry(outcomes)
      == (AIResponse([], false, Some(FailureMessage(outcomes[MaxRetries - 1].error))), MaxRetries, Waits(MaxRetries - 1))
  {
  }

  /** What happens on a cache miss, from the cache's map after the lookup: the map after
      the result is stored (only on success), the response, the number of requests made and
      the delays asked for. `setNow` is the clock when the result is stored. */
  function AfterMiss(config: CacheConfig, slots: seq<Slot>, prompt: string, upstream: seq<Upstream>,
    setNow: int): (seq<Slot>, AIResponse, nat, seq<int>)
    requires |upstream| == MaxRetries
  {
    var outcomes := Outcomes(upstream);
    var (r, attempts, waits) := Retry(outcomes);
    var stored := if FirstSuccess(outcomes, 0).Some?
      then SetOutcome(config, slots, KeyOf(prompt), r.bullets, false, setNow, setNow)
      else slots;
    (stored, r, attempts, waits)
  }

  /** The first `n` attempts all failed. */
  predicate FailedFirst(upstream: seq<Upstream>, n: nat)
    requires n <= |upstream|
  {
    n == 0 || (FailedFirst(upstream, n - 1) && Attempt(upstream[n - 1]).Failure?)
  }

  lemma {:induction false} FailedFirstAll(upstream: seq<Upstream>, n: nat)
    requires n <= |upstream| && FailedFirst(upstream, n)
    ensures forall k :: 0 <= k < n ==> Attempt(upstream[k]).Failure?
  {
    if n > 0 {
      FailedFirstAll(upstream, n - 1);
    }
  }

  /** A miss whose first success is attempt `k + 1` stores and returns that attempt's
      bullets after `k + 1` requests. */
  lemma AfterMissSucceedsAt(config: CacheConfig, slots: seq<Slot>, prompt: string, upstream: seq<Upstream>,
    setNow: int, k: nat)
    requires |upstream| == MaxRetries && k < MaxRetries && Attempt(upstream[k]).Success?
    requires forall j :: 0 <= j < k ==> Attempt(upstream[j]).Failure?
    ensures var bullets := Attempt(upstream[k]).bullets;
      AfterMiss(config, slots, prompt, upstream, setNow)
        == (SetOutcome(config, slots, KeyOf(prompt), bullets, false, setNow, setNow),
            AIResponse(bullets, false, None), k + 1, Waits(k))
  {
    RetrySucceedsAt(Outcomes(upstream), k);
  }

  /** A miss whose three attempts all fail stores nothing and returns the last error. */
  lemma AfterMissFails(config: CacheConfig, slots: seq<Slot>, prompt: string, upstream: seq<Upstream>, setNow: int)
    requires |upstream| == MaxRetries
    requires forall j :: 0 <= j < MaxRetries ==> Attempt(upstream[j]).Failure?
    ensures AfterMiss(config, slots, prompt, upstream, setNow)
      == (slots, AIResponse([], false, Some(FailureMessage(Attempt(upstream[MaxRetries - 1]).error))),
          MaxRetries, Waits(MaxRetries - 1))
  {
    RetryFails(Outcomes(upstream));
  }

  /** Specification of `generateBullets(prompt)`: the cache's map afterwards, the response,
      the number of requests made and the delays asked for. `now` is the clock during the
      lookup and `setNow` the clock when the result is stored. */
  function Generate(config: CacheConfig, slots: seq<Slot>, prompt: string, upstream: seq<Upstream>,
    now: int, setNow: int): (seq<Slot>, AIResponse, nat, seq<int>)
    requires |upstream| == MaxRetries
  {
    var (afterGet, cached) := GetOutcome(config.enabled, slots, KeyOf(prompt), now, now);
    if cached.Some? then (afterGet, AIResponse(cached.value.bullets, cached.value.truncated, None), 0, [])
    else AfterMiss(config, afterGet, prompt, upstream, setNow)
  }

  /** `generateBullets(prompt)` against the given cache. */
  method GenerateBullets(cache: MemoryCache, prompt: string, upstream: seq<Upstream>, now: int, setNow: int)
    returns (r: AIResponse, attempts: nat, waits: seq<int>)
    requires cache.Valid() && |upstream| == MaxRetries
    modifies cache
    ensures cache.Valid()
    ensures (cache.slots, r, attempts, waits)
      == Generate(cache.config, old(cache.slots), prompt, upstream, now, setNow)
  {
    var cached := cache.Get(prompt, now, now);
    if cached.Some? {
      return AIResponse(cached.value.bullets, cached.value.truncated, None), 0, [];
    }
    r, attempts, waits := RetryUpstream(cache, prompt, upstream, setNow);
  }

  /** The `for` loop of `generateBullets`, after a cache miss. */
  method RetryUpstream(cache: MemoryCache, prompt: string, upstream: seq<Upstream>, setNow: int)
    returns (r: AIResponse, attempts: nat, waits: seq<int>)
    requires cache.Valid() && |upstream| == MaxRetries
    modifies cache
    ensures cache.Valid()
    ensures (cache.slots, r, attempts, waits) == AfterMiss(cache.config, old(cache.slots), prompt, upstream, setNow)
  {
    var lastError: Option<Error> := None;
    attempts, waits := 0, [];
    var attempt := 1;
    while attempt <= MaxRetries
      invariant 1 <= attempt <= MaxRetries + 1
      invariant FailedFirst(upstream, attempt - 1)
      invariant waits == Waits(if attempt <= MaxRetries then attempt - 1 else MaxRetries - 1)
      invariant attempt > 1 ==> lastError == Some(Attempt(upstream[attempt - 2]).error)
      invariant cache.Valid() && cache.slots == old(cache.slots)
    {
      var outcome := Attempt(upstream[attempt - 1]);
      if outcome.Success? {
        FailedFirstAll(upstream, attempt - 1);
        AfterMissSucceedsAt(cache.config, cache.slots, prompt, upstream, setNow, attempt - 1);
        cache.Set(prompt, outcome.bullets, false, setNow, setNow);
        return AIResponse(outcome.bullets, false, None), attempt, waits;
      }
      lastError := Some(outcome.error);
      if attempt < MaxRetries {
        waits := waits + [1000 * attempt];
      }
      attempt := attempt + 1;
    }
    FailedFirstAll(upstream, MaxRetries);
    AfterMissFails(cache.config, cache.slots, prompt, upstream, setNow);
    attempts := MaxRetries;
    r := AIResponse([], false, Some(FailureMessage(lastError.value)));
  }

  // ---------------------------------------------------------------------------
  // Properties
  // ---------------------------------------------------------------------------

  /** A fresh cached entry for the prompt is returned as it is, with no request made. */
  lemma CacheHitSkipsUpstream(config: CacheConfig, slots: seq<Slot>, prompt: string,
    upstream: seq<Upstream>, now: int, setNow: int, e: CacheEntry)
    requires |upstream| == MaxRetries && config.enabled && DistinctKeys(slots)
    requires Slot(KeyOf(prompt), e) in slots && !IsExpired(e, now)
    ensures var (_, r, attempts, waits) := Generate(config, slots, prompt, upstream, now, setNow);
      r == AIResponse(e.bullets, e.truncated, None) && attempts == 0 && waits == []
  {
    LiveMembers(slots, now, Slot(KeyOf(prompt), e));
    LookupDistinct(Live(slots, now), Slot(KeyOf(prompt), e));
  }

  /** At most three requests are made; on a cache miss at least one, and the delays are
      1000·k ms after the k-th request, for every request but the last. */
  lemma AtMostThreeAttempts(config: CacheConfig, slots: seq<Slot>, prompt: string,
    upstream: seq<Upstream>, now: int, setNow: int)
    requires |upstream| == MaxRetries
    ensures var (_, r, attempts, waits) := Generate(config, slots, prompt, upstream, now, setNow);
      attempts <= 3
      && (attempts == 0 <==> GetOutcome(config.enabled, slots, KeyOf(prompt), now, now).1.Some?)
      && (attempts > 0 ==> |waits| == attempts - 1 && forall i :: 0 <= i < |waits| ==> waits[i] == 1000 * (i + 1))
  {
  }

  /** On a cache miss the outcome is what the retry loop does from the map after the
      lookup. */
  lemma MissGoesUpstream(config: CacheConfig, slots: seq<Slot>, prompt: string,
    upstream: seq<Upstream>, now: int, setNow: int)
    requires |upstream| == MaxRetries
    requires GetOutcome(config.enabled, slots, KeyOf(prompt), now, now).1.None?
    ensures Generate(config, slots, prompt, upstream, now, setNow)
      == AfterMiss(config, GetOutcome(config.enabled, slots, KeyOf(prompt), now, now).0, prompt, upstream, setNow)
  {
  }

  /** The first successful request decides: its bullet lines are returned, not truncated and
      without error, and are then in the cache, so that a lookup at the time they were
      stored finds them. */
  lemma SuccessIsReturnedAndCached(config: CacheConfig, slots: seq<Slot>, prompt: string,
    upstream: seq<Upstream>, now: int, setNow: int, k: nat)
    requires |upstream| == MaxRetries && config.enabled && config.ttl >= 0 && DistinctKeys(slots)
    requires GetOutcome(true, slots, KeyOf(prompt), now, now).1.None?
    requires k < MaxRetries && Attempt(upstream[k]).Success?
    requires forall j :: 0 <= j < k ==> Attempt(upstream[j]).Failure?
    ensures var (after, r, attempts, _) := Generate(config, slots, prompt, upstream, now, setNow);
      var bullets := Attempt(upstream[k]).bullets;
      r == AIResponse(bullets, false, None) && attempts == k + 1
      && GetOutcome(true, after, KeyOf(prompt), setNow, setNow).1 == Some(CacheEntry(bullets, false, setNow, config.ttl))
  {
    var afterGet := GetOutcome(true, slots, KeyOf(prompt), now, now).0;
    MissGoesUpstream(config, slots, prompt, upstream, now, setNow);
    var bullets := Attempt(upstream[k]).bullets;
    AfterMissSucceedsAt(config, afterGet, prompt, upstream, setNow, k);
    assert DistinctKeys(afterGet);
    Cache.SetThenGet(config, afterGet, prompt, bullets, false, setNow);
  }

  /** The final error names the three attempts. */
  lemma FailureMessageText(e: Error)
    ensures FailureMessage(e) == "Failed to generate bullets after 3 attempts: " + Message(e)
  {
    assert NatToString(MaxRetries) == "3";
    assert "Failed to generate bullets after " + "3" + " attempts: " == "Failed to generate bullets after 3 attempts: ";
  }

  /** When all three requests fail the response has no bullets and an error naming the three
      attempts and the last failure, the delays were 1000 ms and 2000 ms, and nothing is
      stored in the cache. */
  lemma FailsAfterThreeAttempts(config: CacheConfig, slots: seq<Slot>, prompt: string,
    upstream: seq<Upstream>, now: int, setNow: int)
    requires |upstream| == MaxRetries
    requires GetOutcome(config.enabled, slots, KeyOf(prompt), now, now).1.None?
    requires forall j :: 0 <= j < MaxRetries ==> Attempt(upstream[j]).Failure?
    ensures var (after, r, attempts, waits) := Generate(config, slots, prompt, upstream, now, setNow);
      r == AIResponse([], false, Some("Failed to generate bullets after 3 attempts: " + Message(Attempt(upstream[2]).error)))
      && attempts == 3 && waits == [1000, 2000]
      && after == GetOutcome(config.enabled, slots, KeyOf(prompt), now, now).0
  {
    MissGoesUpstream(config, slots, prompt, upstream, now, setNow);
    AfterMissFails(config, GetOutcome(config.enabled, slots, KeyOf(prompt), now, now).0, prompt, upstream, setNow);
    FailureMessageText(Attempt(upstream[2]).error);
    assert Waits(2) == [1000, 2000];
  }
}
