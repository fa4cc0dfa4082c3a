/** The in-memory fixed-window limiter of src/lib/rateLimit.ts: a module-level map from
    `rate_limit:<ip>` to `{count, resetTime}`, allowing 10 requests per 60 s window. */
module RateLimit {

  /** Requests allowed per window (src/lib/rateLimit.ts:8). */
  const Limit: int := 10
  /** Window length in milliseconds (src/lib/rateLimit.ts:9). */
  const WindowMs: int := 60 * 1000

  /** One stored record. */
  datatype Window = Window(count: int, resetTime: int)

  /** What `rateLimit` resolves to. */
  datatype Verdict = Verdict(success: bool, remaining: int)

  function KeyFor(ip: string): (key: string)
    ensures |key| == |ip| + 11 && key[11..] == ip
  {
    "rate_limit:" + ip
  }

  /** Distinct callers never share a record. */
  lemma KeysDistinguishCallers(a: string, b: string)
    ensures KeyFor(a) == KeyFor(b) <==> a == b
  {
    if KeyFor(a) == KeyFor(b) {
      assert a == KeyFor(a)[11..] == KeyFor(b)[11..] == b;
    }
  }

  /** The window that applies to `key` at `now` has run out, or there never was one. */
  predicate Expired(windows: map<string, Window>, key: string, now: int)
  {
    key !in windows || now > windows[key].resetTime
  }

  /** Every stored count lies in 1..Limit. */
  predicate CountsInRange(windows: map<string, Window>)
  {
    forall k :: k in windows ==> 1 <= windows[k].count <= Limit
  }

  /** Specification of one call of `rateLimit(ip)` at time `now`: the new store and the
      verdict. */
  function Step(windows: map<string, Window>, ip: string, now: int): (map<string, Window>, Verdict)
  {
    var key := KeyFor(ip);
    if Expired(windows, key, now) then
      (windows[key := Window(1, now + WindowMs)], Verdict(true, Limit - 1))
    else if windows[key].count >= Limit then
      (windows, Verdict(false, 0))
    else
      var w := windows[key].(count := windows[key].count + 1);
      (windows[key := w], Verdict(true, Limit - w.count))
  }

  /** A first request, or one after the window has run out, opens a fresh window of one
      request and leaves nine. */
  lemma OpensWindow(windows: map<string, Window>, ip: string, now: int)
    requires Expired(windows, KeyFor(ip), now)
    ensures Step(windows, ip, now).0[KeyFor(ip)] == Window(1, now + WindowMs)
    ensures Step(windows, ip, now).1 == Verdict(true, 9)
  {
  }

  /** The comparison with `resetTime` is strict: at `now == resetTime` the old window still
      counts, one millisecond later it does not. */
  lemma WindowEndsAfterResetTime(windows: map<string, Window>, ip: string)
    requires KeyFor(ip) in windows
    ensures !Expired(windows, KeyFor(ip), windows[KeyFor(ip)].resetTime)
    ensures Expired(windows, KeyFor(ip), windows[KeyFor(ip)].resetTime + 1)
  {
  }

  /** A caller at the limit is refused, with nothing left and nothing recorded. */
  lemma RefusesAtLimit(windows: map<string, Window>, ip: string, now: int)
    requires !Expired(windows, KeyFor(ip), now) && windows[KeyFor(ip)].count >= Limit
    ensures Step(windows, ip, now) == (windows, Verdict(false, 0))
  {
  }

  /** Below the limit the count goes up by exactly one, the window end stays, and the
      remaining allowance is what the new count leaves. */
  lemma CountsWithinWindow(windows: map<string, Window>, ip: string, now: int)
    requires !Expired(windows, KeyFor(ip), now) && windows[KeyFor(ip)].count < Limit
    ensures var (after, v) := Step(windows, ip, now);
      after[KeyFor(ip)] == Window(windows[KeyFor(ip)].count + 1, windows[KeyFor(ip)].resetTime)
      && v == Verdict(true, Limit - after[KeyFor(ip)].count)
  {
  }

  /** Whatever the branch, a successful verdict reports the allowance left by the stored
      count, and that allowance lies in 0..9; a refusal reports 0. */
  lemma RemainingMatchesCount(windows: map<string, Window>, ip: string, now: int)
    requires CountsInRange(windows)
    ensures var (after, v) := Step(windows, ip, now);
      (v.success ==> (KeyFor(ip) in after && v.remaining == Limit - after[KeyFor(ip)].count
        && 0 <= v.remaining <= Limit - 1))
      && (!v.success ==> v.remaining == 0)
  {
  }

  /** Counts stay within 1..10. */
  lemma StepKeepsCountsInRange(windows: map<string, Window>, ip: string, now: int)
    requires CountsInRange(windows)
    ensures CountsInRange(Step(windows, ip, now).0)
  {
  }

  /** Only the caller's own record is read or written. */
  lemma StepTouchesOnlyOwnKey(windows: map<string, Window>, ip: string, now: int, k: string)
    requires k != KeyFor(ip)
    ensures k in Step(windows, ip, now).0 <==> k in windows
    ensures k in windows ==> Step(windows, ip, now).0[k] == windows[k]
  {
  }

  /** A run of calls by one caller at the given times, in order: the final store and the
      verdicts. */
  function Calls(windows: map<string, Window>, ip: string, times: seq<int>): (r: (map<string, Window>, seq<Verdict>))
    ensures |r.1| == |times|
  {
    if times == [] then (windows, [])
    else
      var (before, vs) := Calls(windows, ip, times[..|times| - 1]);
      var (after, v) := Step(before, ip, times[|times| - 1]);
      (after, vs + [v])
  }

  /** A run of `n` calls that opens a window and stays inside it has stored count
      `min(n, 10)` and the first window end, and exactly its first ten calls succeed. */
  lemma {:induction false} RunWithinWindow(windows: map<string, Window>, ip: string, times: seq<int>)
    requires |times| >= 1 && Expired(windows, KeyFor(ip), times[0])
    requires forall i :: 0 <= i < |times| ==> times[i] <= times[0] + WindowMs
    ensures var (after, vs) := Calls(windows, ip, times);
      KeyFor(ip) in after
      && after[KeyFor(ip)] == Window(if |times| < Limit then |times| else Limit, times[0] + WindowMs)
      && forall i :: 0 <= i < |times| ==> (vs[i].success <==> i < Limit)
  {
    var key := KeyFor(ip);
    var n := |times|;
    var init := times[..n - 1];
    if n == 1 {
      assert init == [];
    } else {
      assert init[0] == times[0];
      RunWithinWindow(windows, ip, init);
      var (before, vs) := Calls(windows, ip, init);
      assert before[key] == Window(if n - 1 < Limit then n - 1 else Limit, times[0] + WindowMs);
      assert !Expired(before, key, times[n - 1]);
    }
  }

  /** Within one window exactly ten calls succeed and the eleventh fails. */
  lemma TenPerWindow(windows: map<string, Window>, ip: string, times: seq<int>)
    requires |times| == 11 && Expired(windows, KeyFor(ip), times[0])
    requires forall i :: 0 <= i < |times| ==> times[i] <= times[0] + WindowMs
    ensures forall i :: 0 <= i < 10 ==> Calls(windows, ip, times).1[i].success
    ensures !Calls(windows, ip, times).1[10].success
  {
    RunWithinWindow(windows, ip, times);
  }

  /** Once the window has run out, the next call succeeds again. */
  lemma SucceedsAfterWindow(windows: map<string, Window>, ip: string, times: seq<int>, now: int)
    requires |times| >= 1 && Expired(windows, KeyFor(ip), times[0])
    requires forall i :: 0 <= i < |times| ==> times[i] <= times[0] + WindowMs
    requires now > times[0] + WindowMs
    ensures Step(Calls(windows, ip, times).0, ip, now).1 == Verdict(true, Limit - 1)
  {
    RunWithinWindow(windows, ip, times);
  }

  /** The module-level `rateLimitStore`. */
  class RateLimitStore {
    var windows: map<string, Window>

    ghost predicate Valid()
      reads this
    {
      CountsInRange(windows)
    }

    constructor()
      ensures Valid() && windows == map[]
    {
      windows := map[];
    }

    /** `rateLimit(ip)` with `Date.now()` passed in as `now`. */
    method RateLimit(ip: string, now: int) returns (v: Verdict)
      requires Valid()
      modifies this
      ensures Valid()
      ensures (windows, v) == Step(old(windows), ip, now)
    {
      StepKeepsCountsInRange(windows, ip, now);
      var key := KeyFor(ip);
      if key !in windows || now > windows[key].resetTime {
        windows := windows[key := Window(1, now + WindowMs)];
        return Verdict(true, Limit - 1);
      }
      var current := windows[key];
      if current.count >= Limit {
        return Verdict(false, 0);
      }
      current := current.(count := current.count + 1);
      windows := windows[key := current];
      return Verdict(true, Limit - current.count);
    }
  }
}
