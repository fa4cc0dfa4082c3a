/** The string fingerprint shared by `MemoryCache.generateKey` (src/lib/cache.ts) and
    `VercelKVCache.generateKey` (src/lib/kvCache.ts): `hash = (hash << 5) - hash + code`
    folded over the code units, with every step truncated to a signed 32-bit integer. */
module Hashing {
  import opened Strings

  const TwoTo32: int := 0x1_0000_0000
  const TwoTo31: int := 0x8000_0000

  predicate IsInt32(x: int)
  {
    -TwoTo31 <= x < TwoTo31
  }

  /** ECMAScript ToInt32: the signed 32-bit integer congruent to `x` modulo 2^32. */
  function ToInt32(x: int): (r: int)
    ensures IsInt32(r)
    ensures (x - r) % TwoTo32 == 0
  {
    var m := x % TwoTo32;
    if m >= TwoTo31 then m - TwoTo32 else m
  }

  /** Specification of the fingerprint: the polynomial hash in base 31, reduced step by step. */
  function Hash(s: string): int
  {
    if s == [] then 0 else ToInt32(31 * Hash(s[..|s| - 1]) + s[|s| - 1] as int)
  }

  /** The same polynomial without any reduction. */
  function Polynomial(s: string): int
  {
    if s == [] then 0 else 31 * Polynomial(s[..|s| - 1]) + s[|s| - 1] as int
  }

  /** ToInt32 depends only on the residue modulo 2^32. */
  lemma ToInt32Congruent(x: int, y: int)
    requires (x - y) % TwoTo32 == 0
    ensures ToInt32(x) == ToInt32(y)
  {
    var q := (x - y) / TwoTo32;
    assert x == y + q * TwoTo32;
    assert x % TwoTo32 == y % TwoTo32;
  }

  /** Adding a multiple of 2^32 does not change ToInt32. */
  lemma ToInt32Shift(y: int, q: int)
    ensures ToInt32(y + q * TwoTo32) == ToInt32(y)
  {
    ToInt32Congruent(y + q * TwoTo32, y);
  }

  /** Reducing the accumulator before a step does not change the reduced result. */
  lemma ReduceBeforeStep(p: int, c: int)
    ensures ToInt32(31 * ToInt32(p) + c) == ToInt32(31 * p + c)
  {
    var h := ToInt32(p);
    var q := (p - h) / TwoTo32;
    assert p == h + q * TwoTo32;
    assert 31 * p + c == (31 * h + c) + (31 * q) * TwoTo32;
    ToInt32Shift(31 * h + c, 31 * q);
  }

  /** Reducing at every step gives the same result as reducing the whole polynomial once:
      the key is `|ToInt32(sum of s[i] * 31^(n-1-i))|`. */
  lemma {:induction false} HashIsReducedPolynomial(s: string)
    ensures Hash(s) == ToInt32(Polynomial(s))
    decreases |s|
  {
    if s != [] {
      var init := s[..|s| - 1];
      HashIsReducedPolynomial(init);
      ReduceBeforeStep(Polynomial(init), s[|s| - 1] as int);
    }
  }

  /** One step of the source loop on a 32-bit accumulator: the shift `h << 5` truncates, the
      subtraction and addition are exact, and `hash & hash` truncates again. */
  lemma ShiftStep(h: int, c: int)
    requires IsInt32(h)
    ensures ToInt32(ToInt32(h * 32) - h + c) == ToInt32(31 * h + c)
  {
    var t := ToInt32(h * 32);
    var q := (h * 32 - t) / TwoTo32;
    assert h * 32 - t == q * TwoTo32;
    assert (31 * h + c) - (t - h + c) == q * TwoTo32;
    ToInt32Congruent(31 * h + c, t - h + c);
  }

  /** The loop of `generateKey` (src/lib/cache.ts:16-21, src/lib/kvCache.ts:20-23). */
  method HashCode(s: string) returns (h: int)
    ensures h == Hash(s)
    ensures IsInt32(h)
  {
    h := 0;
    var i := 0;
    while i < |s|
      invariant 0 <= i <= |s|
      invariant h == Hash(s[..i])
    {
      var code := s[i] as int;
      ShiftStep(h, code);
      h := ToInt32(h * 32) - h + code;
      h := ToInt32(h);
      assert s[..i + 1][..i] == s[..i];
      i := i + 1;
    }
    assert s[..i] == s;
  }

  /** The decimal part of a cache key: `Math.abs(hash)` rendered in base 10. */
  function HashDigits(s: string): (r: string)
    ensures |r| >= 1
  {
    NatToString(Abs(Hash(s)))
  }

  /** Fingerprints collide: "Aa" and "BB" share the hash 2112, hence one cache slot. */
  lemma CollidingInputs()
    ensures Hash("Aa") == Hash("BB") == 2112
    ensures HashDigits("Aa") == HashDigits("BB")
  {
    assert Hash("A") == ToInt32(65) == 65 by { assert "A"[..0] == ""; }
    assert Hash("B") == ToInt32(66) == 66 by { assert "B"[..0] == ""; }
    assert Hash("Aa") == ToInt32(31 * 65 + 97) == 2112 by { assert "Aa"[..1] == "A"; }
    assert Hash("BB") == ToInt32(31 * 66 + 66) == 2112 by { assert "BB"[..1] == "B"; }
  }
}
