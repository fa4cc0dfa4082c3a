/** CSRF tokens of src/lib/csrf.ts. A production token is `timestamp:nonce:signature`, with
    a 16-byte random nonce in hex and the HMAC-SHA256 (RFC 2104) of `timestamp:nonce` in hex;
    in development it is `dev:session:timestamp:signature`. The HMAC is a parameter (any
    deterministic function of message and secret), and so are the random bytes and the
    clock. */
module Csrf {
  import opened Strings

  newtype byte = x: int | 0 <= x < 256

  /** `generateHMAC(message, secret)` before hex encoding: the raw signature bytes. */
  type Hmac = (string, string) -> seq<byte>

  /** The environment the module reads. */
  datatype Env = Env(development: bool, sessionId: Option<string>, csrfSecret: Option<string>)

  /** Tokens older than this many milliseconds are refused. */
  const MaxAgeMs: int := 5 * 60 * 1000

  /** Length in bytes of the random nonce. */
  const NonceBytes: nat := 16

  /** `process.env.X || fallback`: an absent or empty value falls back. */
  function OrElse(v: Option<string>, fallback: string): string
  {
    if v.Some? && v.value != "" then v.value else fallback
  }

  function Secret(env: Env): string
  {
    OrElse(env.csrfSecret, "dev-secret-change-in-production")
  }

  function SessionId(env: Env): string
  {
    OrElse(env.sessionId, "dev-session")
  }

  // ---------------------------------------------------------------------------
  // arrayBufferToHex
  // ---------------------------------------------------------------------------

  /** `b.toString(16).padStart(2, '0')`. */
  function ByteToHex(b: byte): (r: string)
    ensures |r| == 2 && r == [DigitChar(b as nat / 16), DigitChar(b as nat % 16)]
  {
    if b < 16 then "0" + [DigitChar(b as nat)] else [DigitChar(b as nat / 16), DigitChar(b as nat % 16)]
  }

  /** `arrayBufferToHex`: the bytes' two-digit renderings, joined. */
  function ToHex(bytes: seq<byte>): (r: string)
    ensures |r| == 2 * |bytes|
  {
    if bytes == [] then "" else ByteToHex(bytes[0]) + ToHex(bytes[1..])
  }

  predicate IsLowerHexDigit(c: char)
  {
    IsHexDigit(c) && !('A' <= c <= 'F')
  }

  /** Every character of the encoding is a lower-case hex digit; in particular none is `:`. */
  lemma {:induction false} ToHexDigits(bytes: seq<byte>)
    ensures forall k :: 0 <= k < |ToHex(bytes)| ==> IsLowerHexDigit(ToHex(bytes)[k])
  {
    if bytes != [] {
      ToHexDigits(bytes[1..]);
      var r := ToHex(bytes);
      var h := ByteToHex(bytes[0]);
      assert r == h + ToHex(bytes[1..]);
      forall k | 0 <= k < |r| ensures IsLowerHexDigit(r[k]) {
        if k >= 2 {
          assert r[k] == ToHex(bytes[1..])[k - 2];
        }
      }
    }
  }

  /** The decoder the encoding is the inverse of: pairs of hex digits, high digit first. */
  function FromHex(s: string): seq<byte>
    requires |s| % 2 == 0
    requires forall k :: 0 <= k < |s| ==> IsLowerHexDigit(s[k])
  {
    if s == [] then []
    else
      assert IsLowerHexDigit(s[0]) && IsLowerHexDigit(s[1]);
      [(HexValue(s[0]) * 16 + HexValue(s[1])) as byte] + FromHex(s[2..])
  }

  /** Decoding the encoding gives back the bytes: each byte is written as exactly two digits,
      so the encoding is injective. */
  lemma {:induction false} HexRoundTrip(bytes: seq<byte>)
    ensures |ToHex(bytes)| % 2 == 0
    ensures forall k :: 0 <= k < |ToHex(bytes)| ==> IsLowerHexDigit(ToHex(bytes)[k])
    ensures FromHex(ToHex(bytes)) == bytes
  {
    ToHexDigits(bytes);
    if bytes != [] {
      HexRoundTrip(bytes[1..]);
      var r := ToHex(bytes);
      var b := bytes[0] as nat;
      assert r[..2] == ByteToHex(bytes[0]) && r[2..] == ToHex(bytes[1..]);
      assert HexValue(DigitChar(b / 16)) == b / 16;
      assert HexValue(DigitChar(b % 16)) == b % 16;
    }
  }

  lemma HexInjective(a: seq<byte>, b: seq<byte>)
    requires ToHex(a) == ToHex(b)
    ensures a == b
  {
    HexRoundTrip(a);
    HexRoundTrip(b);
  }

  // ---------------------------------------------------------------------------
  // Tokens
  // ---------------------------------------------------------------------------

  /** `generateHMAC(message, secret)`: the signature in hex. */
  function Sign(hmac: Hmac, message: string, secret: string): string
  {
    ToHex(hmac(message, secret))
  }

  /** `generateCSRFToken()` at time `now` with the given random bytes (used only outside
      development). */
  function GenerateToken(env: Env, hmac: Hmac, now: nat, random: seq<byte>): (token: string)
    requires !env.development ==> |random| == NonceBytes
  {
    if env.development then
      var payload := "dev:" + SessionId(env) + ":" + NatToString(now);
      payload + ":" + Sign(hmac, payload, Secret(env))
    else
      var payload := NatToString(now) + ":" + ToHex(random);
      payload + ":" + Sign(hmac, payload, Secret(env))
  }

  /** The age check: refuses when the timestamp parses and is more than five minutes old; a
      timestamp that does not parse (NaN) never triggers it. */
  predicate TooOld(timestamp: string, now: int)
  {
    var t := ParseInt(timestamp);
    t.Some? && now - t.value > MaxAgeMs
  }

  /** `validateCSRFToken(token)` at time `now`. */
  function Validate(env: Env, hmac: Hmac, token: string, now: int): bool
  {
    if token == "" then false
    else
      var parts := Split(token, ':');
      if |parts| < 3 then false
      else if env.development && parts[0] == "dev" then
        // `[prefix, sessionId, timestamp, signature] = parts`: with three parts the
        // signature is undefined and matches nothing.
        var payload := parts[0] + ":" + parts[1] + ":" + parts[2];
        if TooOld(parts[2], now) then false
        else |parts| >= 4 && parts[3] == Sign(hmac, payload, Secret(env))
      else
        var payload := parts[0] + ":" + parts[1];
        if TooOld(parts[0], now) then false
        else parts[2] == Sign(hmac, payload, Secret(env))
  }

  /** A production token has three fields: the decimal time, a 32-digit nonce, and the
      signature of the first two joined by `:`. */
  lemma ProductionTokenShape(env: Env, hmac: Hmac, now: nat, random: seq<byte>)
    requires !env.development && |random| == NonceBytes
    ensures var payload := NatToString(now) + ":" + ToHex(random);
      Split(GenerateToken(env, hmac, now, random), ':')
        == [NatToString(now), ToHex(random), Sign(hmac, payload, Secret(env))]
    ensures |ToHex(random)| == 32
  {
    var payload := NatToString(now) + ":" + ToHex(random);
    NoColonInHex(random);
    NoColonInHex(hmac(payload, Secret(env)));
    NoColonInNat(now);
    SplitFields(NatToString(now), ToHex(random), Sign(hmac, payload, Secret(env)), ':');
  }

  lemma NoColonInHex(bytes: seq<byte>)
    ensures ':' !in ToHex(bytes)
  {
    ToHexDigits(bytes);
    var s := ToHex(bytes);
    forall k | 0 <= k < |s| ensures s[k] != ':' {
      assert IsLowerHexDigit(s[k]);
    }
  }

  lemma NoColonInNat(n: nat)
    ensures ':' !in NatToString(n)
  {
    var s := NatToString(n);
    forall k | 0 <= k < |s| ensures s[k] != ':' {
      assert IsDecimalDigit(s[k]);
    }
  }

  /** Round trip: outside development, a token validates at every time from its creation
      until five minutes later, both ends included. */
  lemma ProductionRoundTrip(env: Env, hmac: Hmac, t: nat, random: seq<byte>, now: int)
    requires !env.development && |random| == NonceBytes
    requires t <= now <= t + MaxAgeMs
    ensures Validate(env, hmac, GenerateToken(env, hmac, t, random), now)
  {
    ProductionTokenShape(env, hmac, t, random);
    ParseNatToString(t);
  }

  /** In development, a token validates for five minutes when the session id has no `:`. */
  lemma DevelopmentRoundTrip(env: Env, hmac: Hmac, t: nat, random: seq<byte>, now: int)
    requires env.development && ':' !in SessionId(env)
    requires t <= now <= t + MaxAgeMs
    ensures Validate(env, hmac, GenerateToken(env, hmac, t, random), now)
  {
    DevelopmentTokenShape(env, hmac, t, random);
    assert !TooOld(NatToString(t), now) by {
      ParseNatToString(t);
    }
    DevelopmentFieldsValidate(env, hmac, GenerateToken(env, hmac, t, random), SessionId(env), NatToString(t), now);
  }

  /** A token whose fields are `dev`, a session, a fresh timestamp and the signature of the
      first three validates in development. */
  lemma DevelopmentFieldsValidate(env: Env, hmac: Hmac, token: string, session: string, timestamp: string, now: int)
    requires env.development && !TooOld(timestamp, now)
    requires Split(token, ':') == ["dev", session, timestamp, Sign(hmac, "dev:" + session + ":" + timestamp, Secret(env))]
    ensures Validate(env, hmac, token, now)
  {
    assert token != "" by {
      assert |Split(token, ':')| != 1;
    }
    assert "dev" + ":" + session + ":" + timestamp == "dev:" + session + ":" + timestamp;
  }

  /** A development token has four fields: `dev`, the session id, the decimal time, and the
      signature of the first three joined by `:`. */
  lemma DevelopmentTokenShape(env: Env, hmac: Hmac, t: nat, random: seq<byte>)
    requires env.development && ':' !in SessionId(env)
    ensures var payload := "dev:" + SessionId(env) + ":" + NatToString(t);
      Split(GenerateToken(env, hmac, t, random), ':')
        == ["dev", SessionId(env), NatToString(t), Sign(hmac, payload, Secret(env))]
  {
    var payload := "dev:" + SessionId(env) + ":" + NatToString(t);
    var signature := Sign(hmac, payload, Secret(env));
    NoColonInHex(hmac(payload, Secret(env)));
    NoColonInNat(t);
    assert GenerateToken(env, hmac, t, random)
      == "dev" + [':'] + SessionId(env) + [':'] + NatToString(t) + [':'] + signature;
    SplitAppend("dev" + [':'] + SessionId(env) + [':'] + NatToString(t), signature, ':');
    SplitFields("dev", SessionId(env), NatToString(t), ':');
    SplitNoSeparator(signature, ':');
  }

  /** What validation accepts, in full: a token of at least three fields whose timestamp is
      not too old and whose signature field is the HMAC of its payload; in development a `dev`
      token needs a fourth field and the payload and timestamp shift by one field. */
  lemma AcceptedIffSignedAndFresh(env: Env, hmac: Hmac, token: string, now: int)
    ensures Validate(env, hmac, token, now) <==>
      var parts := Split(token, ':');
      |parts| >= 3 &&
      if env.development && parts[0] == "dev" then
        |parts| >= 4 && !TooOld(parts[2], now)
        && parts[3] == Sign(hmac, parts[0] + ":" + parts[1] + ":" + parts[2], Secret(env))
      else
        !TooOld(parts[0], now) && parts[2] == Sign(hmac, parts[0] + ":" + parts[1], Secret(env))
  {
    if |Split(token, ':')| >= 3 {
      assert token != "";
    }
  }

  /** A forged or altered signature is refused at every time: outside the `dev` path, a token
      whose third field is not the HMAC of its first two never validates. */
  lemma ForgedSignatureRefused(env: Env, hmac: Hmac, token: string, now: int)
    requires |Split(token, ':')| >= 3
    requires !(env.development && Split(token, ':')[0] == "dev")
    requires var parts := Split(token, ':');
      parts[2] != Sign(hmac, parts[0] + ":" + parts[1], Secret(env))
    ensures !Validate(env, hmac, token, now)
  {
    AcceptedIffSignedAndFresh(env, hmac, token, now);
  }

  /** The same for a development token: a fourth field other than the HMAC of the first three
      is refused. */
  lemma ForgedDevSignatureRefused(env: Env, hmac: Hmac, token: string, now: int)
    requires env.development && |Split(token, ':')| >= 4 && Split(token, ':')[0] == "dev"
    requires var parts := Split(token, ':');
      parts[3] != Sign(hmac, "dev:" + parts[1] + ":" + parts[2], Secret(env))
    ensures !Validate(env, hmac, token, now)
  {
    var parts := Split(token, ':');
    assert parts[0] + ":" + parts[1] + ":" + parts[2] == "dev:" + parts[1] + ":" + parts[2];
    AcceptedIffSignedAndFresh(env, hmac, token, now);
  }

  /** An empty token, or one with fewer than three fields, is refused. */
  lemma ShortTokensRefused(env: Env, hmac: Hmac, token: string, now: int)
    requires token == "" || |Split(token, ':')| < 3
    ensures !Validate(env, hmac, token, now)
  {
  }

  /** The age limit: a parsed timestamp more than five minutes old is refused, and at exactly
      five minutes only the signature decides. */
  lemma AgeLimit(env: Env, hmac: Hmac, token: string, now: int)
    requires |Split(token, ':')| >= 3
    requires !env.development
    ensures var parts := Split(token, ':');
      var t := ParseInt(parts[0]);
      (t.Some? && now - t.value > MaxAgeMs ==> !Validate(env, hmac, token, now))
      && (t.Some? && now - t.value == MaxAgeMs ==>
        (Validate(env, hmac, token, now) <==> parts[2] == Sign(hmac, parts[0] + ":" + parts[1], Secret(env))))
  {
    assert token != "";
  }

  /** Fields after the third are ignored outside development: appending `:rest` to a
      three-field token changes nothing. */
  lemma ExtraFieldsIgnored(env: Env, hmac: Hmac, token: string, rest: string, now: int)
    requires !env.development && |Split(token, ':')| == 3
    ensures Validate(env, hmac, token + ":" + rest, now) == Validate(env, hmac, token, now)
  {
    SplitAppend(token, rest, ':');
    assert token + ":" + rest == token + [':'] + rest;
    var parts := Split(token, ':');
    var longer := Split(token + ":" + rest, ':');
    assert longer[..3] == parts;
    assert token != "";
  }

  /** Outside development a `dev:` token goes through the production path: its first field
      `dev` is not a number, the age check is skipped, and only the signature over
      `dev:session` decides. */
  lemma DevTokenInProduction(env: Env, hmac: Hmac, token: string, now: int)
    requires !env.development
    requires |Split(token, ':')| >= 3 && Split(token, ':')[0] == "dev"
    ensures var parts := Split(token, ':');
      Validate(env, hmac, token, now) <==> parts[2] == Sign(hmac, "dev:" + parts[1], Secret(env))
  {
    assert token != "";
    var parts := Split(token, ':');
    assert parts[0] + ":" + parts[1] == "dev:" + parts[1];
    DevIsNotANumber();
  }

  lemma DevIsNotANumber()
    ensures ParseInt("dev").None?
  {
    var t := "dev";
    assert TrimStartIndex(t) == 0 by {
      assert !IsJsWhitespace(t[0]);
    }
    assert t[0..] == t;
    assert DigitPrefixLength(t, 10) == 0 by {
      assert !IsRadixDigit(t[0], 10);
    }
  }
}
