/** Execution tokens: minting, verification, and the checks on a token's claims. */
module ExecutionTokens {
  import opened Prelude
  import opened Events
  import opened Base64Url

  datatype Claims = Claims(
    decisionId: string,
    action: string,
    exp: int,
    nbf: int,
    jti: string,
    kid: string,
    payloadHash: Option<string>,
    runId: Option<string>)

  /** Unforeseen stands for the exceptions that verification lets through without meaning to. */
  datatype TokenError = TokenInvalid | ActionMismatch | PayloadMismatch | TokenExpired | Unforeseen

  const SECOND: int := 1000000

  /** Python's int(t.timestamp()), which truncates towards zero. */
  function Seconds(t: Time): int {
    if t >= 0 then t / SECOND else -(-t / SECOND)
  }

  /** Whole seconds, rounded towards zero. */
  lemma SecondsMeaning(t: Time)
    ensures 0 <= t ==> Seconds(t) * 1000000 <= t < Seconds(t) * 1000000 + 1000000
    ensures t <= 0 ==> Seconds(t) * 1000000 - 1000000 < t <= Seconds(t) * 1000000
  {
  }

  lemma SecondsMonotone(t: Time, u: Time)
    requires t <= u
    ensures Seconds(t) <= Seconds(u)
  {
  }

  /** The checks on verified claims, in the order in which they are made. */
  function CheckClaims(c: Claims, expectedAction: string, expectedHash: Option<string>, now: int): Option<TokenError> {
    if now < c.nbf then Some(TokenInvalid)
    else if c.action != expectedAction then Some(ActionMismatch)
    else if expectedHash.Some? && c.payloadHash != expectedHash then Some(PayloadMismatch)
    else if now >= c.exp then Some(TokenExpired)
    else None
  }

  // ---------- The text of a token ----------

  datatype Json = JString(s: string) | JInt(n: int) | JNull | JOther

  /** What a payload's bytes decode to; the library's errors are Undecodable. */
  datatype Loaded = Undecodable | NotAnObject | Object(fields: map<string, Json>)

  /** The foreign code: HMAC-SHA256 of a text under a key, and the JSON library. */
  datatype Crypto = Crypto(
    mac: (string, string) -> seq<Byte>,
    dump: map<string, Json> -> seq<Byte>,
    load: seq<Byte> -> Loaded)

  ghost predicate Sound(c: Crypto) {
    && (forall key, text :: c.mac(key, text) != [])
    && (forall fields :: c.dump(fields) != [])
    && (forall fields :: c.load(c.dump(fields)) == Object(fields))
  }

  function ClaimsOf(
    decisionId: string, action: string, now: Time, ttl: int, jti: string, kid: string,
    payloadHash: Option<string>, runId: Option<string>): Claims
  {
    Claims(decisionId, action, Seconds(now + ttl * SECOND), Seconds(now), jti, kid, payloadHash,
           if runId.Some? && Strip(runId.value) != "" then Some(Strip(runId.value)) else None)
  }

  function FieldsOf(c: Claims): map<string, Json> {
    var required := map[
      "decision_id" := JString(c.decisionId), "action" := JString(c.action), "exp" := JInt(c.exp),
      "nbf" := JInt(c.nbf), "jti" := JString(c.jti), "kid" := JString(c.kid)];
    var hashed := if c.payloadHash.Some? then required["payload_hash" := JString(c.payloadHash.value)] else required;
    if c.runId.Some? then hashed["run_id" := JString(c.runId.value)] else hashed
  }

  function Sign(crypto: Crypto, key: string, payload: string): string {
    Encode(crypto.mac(key, payload))
  }

  /** The token's text: the payload and its signature, each in base64url, joined by a dot. */
  function Mint(crypto: Crypto, key: string, c: Claims): string {
    var payload := Encode(crypto.dump(FieldsOf(c)));
    payload + "." + Sign(crypto, key, payload)
  }

  /** Python's str.split("."). */
  function SplitDots(s: string): (parts: seq<string>)
    ensures parts != []
  {
    if s == "" then [""]
    else
      var rest := SplitDots(s[1..]);
      if s[0] == '.' then [""] + rest else [[s[0]] + rest[0]] + rest[1..]
  }

  /** dict.get: a missing key and a null are the same. */
  function Get(fields: map<string, Json>, key: string): Json {
    if key in fields then fields[key] else JNull
  }

  predicate OptionalString(j: Json) {
    j.JNull? || j.JString?
  }

  function StringOption(j: Json): Option<string> {
    if j.JString? then Some(j.s) else None
  }

  predicate WellTyped(fields: map<string, Json>) {
    && Get(fields, "action").JString? && Get(fields, "decision_id").JString? && Get(fields, "exp").JInt?
    && Get(fields, "nbf").JInt? && Get(fields, "jti").JString?
    && OptionalString(Get(fields, "payload_hash")) && OptionalString(Get(fields, "run_id"))
  }

  /** Verification against a key map. A payload that is JSON but no object has no claims to get, and the
      comparison of digests refuses text that is not ASCII; the service foresees neither exception. */
  function Verify(
    crypto: Crypto, keys: map<string, string>, token: string,
    expectedAction: string, expectedHash: Option<string>, now: Time): Result<Claims, TokenError>
  {
    var parts := SplitDots(token);
    if |parts| != 2 || parts[0] == "" || parts[1] == "" then Err(TokenInvalid)
    else
      var raw := Decode(parts[0]);
      if raw.None? then Err(TokenInvalid)
      else
        var loaded := crypto.load(raw.value);
        if loaded.Undecodable? then Err(TokenInvalid)
        else if loaded.NotAnObject? then Err(Unforeseen)
        else
          var kid := Get(loaded.fields, "kid");
          if !kid.JString? || IsBlank(kid.s) || kid.s !in keys then Err(TokenInvalid)
          else if !Ascii(parts[1]) then Err(Unforeseen)
          else if parts[1] != Sign(crypto, keys[kid.s], parts[0]) then Err(TokenInvalid)
          else if !WellTyped(loaded.fields) then Err(TokenInvalid)
          else
            var c := Claims(
              Get(loaded.fields, "decision_id").s, Get(loaded.fields, "action").s,
              Get(loaded.fields, "exp").n, Get(loaded.fields, "nbf").n,
              Get(loaded.fields, "jti").s, kid.s,
              StringOption(Get(loaded.fields, "payload_hash")), StringOption(Get(loaded.fields, "run_id")));
            match CheckClaims(c, expectedAction, expectedHash, Seconds(now))
            case Some(e) => Err(e)
            case None => Ok(c)
  }

  // ---------- Round trip ----------

  lemma {:induction false} SplitDotless(b: string)
    requires forall i :: 0 <= i < |b| ==> b[i] != '.'
    ensures SplitDots(b) == [b]
  {
    if b != "" {
      SplitDotless(b[1..]);
      assert [b[0]] + b[1..] == b;
    }
  }

  lemma {:induction false} SplitAtDot(a: string, b: string)
    requires forall i :: 0 <= i < |a| ==> a[i] != '.'
    requires forall i :: 0 <= i < |b| ==> b[i] != '.'
    ensures SplitDots(a + "." + b) == [a, b]
  {
    var s := a + "." + b;
    if a == "" {
      assert s[0] == '.' && s[1..] == b;
      SplitDotless(b);
    } else {
      assert s[0] == a[0] && s[1..] == a[1..] + "." + b;
      SplitAtDot(a[1..], b);
      assert [a[0]] + a[1..] == a;
    }
  }

  function JoinDots(parts: seq<string>): string
    requires parts != []
  {
    if |parts| == 1 then parts[0] else parts[0] + "." + JoinDots(parts[1..])
  }

  /** Splitting takes a text apart at all its dots and nowhere else. */
  lemma {:induction false} SplitMeaning(s: string)
    ensures JoinDots(SplitDots(s)) == s
    ensures forall i :: 0 <= i < |SplitDots(s)| ==> '.' !in SplitDots(s)[i]
  {
    if s != "" {
      var rest := SplitDots(s[1..]);
      SplitMeaning(s[1..]);
      assert s == [s[0]] + s[1..];
      if s[0] == '.' {
        assert ([""] + rest)[1..] == rest;
        assert JoinDots([""] + rest) == "" + "." + JoinDots(rest);
      } else {
        JoinLonger(s[0], rest);
      }
    }
  }

  lemma JoinLonger(c: char, parts: seq<string>)
    requires parts != []
    ensures JoinDots([[c] + parts[0]] + parts[1..]) == [c] + JoinDots(parts)
  {
    var longer := [[c] + parts[0]] + parts[1..];
    assert longer[1..] == parts[1..];
    if |parts| > 1 {
      assert [c] + parts[0] + "." + JoinDots(parts[1..]) == [c] + (parts[0] + "." + JoinDots(parts[1..]));
    }
  }

  lemma FieldsGiveClaims(c: Claims)
    ensures var f := FieldsOf(c);
            && WellTyped(f) && Get(f, "kid") == JString(c.kid)
            && c == Claims(Get(f, "decision_id").s, Get(f, "action").s, Get(f, "exp").n, Get(f, "nbf").n,
                           Get(f, "jti").s, c.kid,
                           StringOption(Get(f, "payload_hash")), StringOption(Get(f, "run_id")))
  {
  }

  /** A minted token verifies to exactly what its claims allow: from its first second up to, and not
      including, its last, for its own action and payload; otherwise it fails with the first check it fails. */
  lemma MintedVerifies(
    crypto: Crypto, keys: map<string, string>, c: Claims, action: string, hash: Option<string>, now: Time)
    requires Sound(crypto) && c.kid in keys && !IsBlank(c.kid)
    ensures Verify(crypto, keys, Mint(crypto, keys[c.kid], c), action, hash, now) ==
            match CheckClaims(c, action, hash, Seconds(now)) case Some(e) => Err(e) case None => Ok(c)
  {
    var payload := crypto.dump(FieldsOf(c));
    var text, signature := Encode(payload), Sign(crypto, keys[c.kid], Encode(payload));
    StripIsUndone(payload);
    StripIsUndone(crypto.mac(keys[c.kid], text));
    SplitAtDot(text, signature);
    RoundTrip(payload);
    FieldsGiveClaims(c);
  }

  /** Why a minted token is refused: too early, for another action, for another payload, or too late, in this order;
      and otherwise it is not. */
  lemma MintedRefused(
    crypto: Crypto, keys: map<string, string>, c: Claims, action: string, hash: Option<string>, now: Time)
    requires Sound(crypto) && c.kid in keys && !IsBlank(c.kid)
    ensures var r := Verify(crypto, keys, Mint(crypto, keys[c.kid], c), action, hash, now);
            var early, late := Seconds(now) < c.nbf, c.exp <= Seconds(now);
            var other := hash.Some? && c.payloadHash != hash;
            && (r == Err(TokenInvalid) <==> early)
            && (r == Err(ActionMismatch) <==> !early && c.action != action)
            && (r == Err(PayloadMismatch) <==> !early && c.action == action && other)
            && (r == Err(TokenExpired) <==> !early && c.action == action && !other && late)
            && (r == Ok(c) <==> !early && c.action == action && !other && !late)
  {
    MintedVerifies(crypto, keys, c, action, hash, now);
  }

  /** The names under which a token's payload holds its claims; an absent one has no entry. */
  lemma FieldNames(c: Claims)
    ensures FieldsOf(c) ==
            map["decision_id" := JString(c.decisionId), "action" := JString(c.action), "exp" := JInt(c.exp),
                "nbf" := JInt(c.nbf), "jti" := JString(c.jti), "kid" := JString(c.kid)]
            + (if c.payloadHash.Some? then map["payload_hash" := JString(c.payloadHash.value)] else map[])
            + (if c.runId.Some? then map["run_id" := JString(c.runId.value)] else map[])
  {
  }

  /** A token minted at t for ttl seconds is good from the second of t for exactly ttl seconds. */
  lemma TokenLifetime(crypto: Crypto, keys: map<string, string>, c: Claims, t: Time, ttl: int, now: Time)
    requires Sound(crypto) && c.kid in keys && !IsBlank(c.kid)
    requires 0 <= t && 0 < ttl
    requires c == ClaimsOf(c.decisionId, c.action, t, ttl, c.jti, c.kid, c.payloadHash, c.runId)
    ensures Verify(crypto, keys, Mint(crypto, keys[c.kid], c), c.action, c.payloadHash, now).Ok?
            <==> Seconds(t) <= Seconds(now) < Seconds(t) + ttl
  {
    MintedVerifies(crypto, keys, c, c.action, c.payloadHash, now);
    assert (t + ttl * SECOND) / SECOND == t / SECOND + ttl;
  }

  /** Whatever verifies was signed with the key it names. */
  lemma VerifiedIsSigned(
    crypto: Crypto, keys: map<string, string>, token: string, action: string, hash: Option<string>, now: Time)
    requires Verify(crypto, keys, token, action, hash, now).Ok?
    ensures var c := Verify(crypto, keys, token, action, hash, now).value;
            && c.kid in keys
            && CheckClaims(c, action, hash, Seconds(now)).None?
            && exists payload :: SplitDots(token) == [payload, Sign(crypto, keys[c.kid], payload)]
  {
    var parts := SplitDots(token);
    assert parts == [parts[0], parts[1]];
  }

  // ---------- What verifies, exactly ----------

  /** The fields hold these claims under their names; an optional one that is absent may be null. */
  predicate HoldClaims(fields: map<string, Json>, c: Claims) {
    && HasField(fields, "decision_id", JString(c.decisionId)) && HasField(fields, "action", JString(c.action))
    && HasField(fields, "exp", JInt(c.exp)) && HasField(fields, "nbf", JInt(c.nbf))
    && HasField(fields, "jti", JString(c.jti)) && HasField(fields, "kid", JString(c.kid))
    && HasOptional(fields, "payload_hash", c.payloadHash) && HasOptional(fields, "run_id", c.runId)
  }

  predicate HasField(fields: map<string, Json>, name: string, value: Json) {
    name in fields && fields[name] == value
  }

  predicate HasOptional(fields: map<string, Json>, name: string, value: Option<string>) {
    if value.Some? then HasField(fields, name, JString(value.value))
    else name !in fields || fields[name] == JNull
  }

  /** The claims are good now, for this action and this payload. */
  predicate GoodFor(c: Claims, action: string, hash: Option<string>, now: Time) {
    && c.nbf <= Seconds(now) < c.exp && c.action == action
    && (hash.Some? ==> c.payloadHash == hash)
  }

  lemma SignatureIsText(crypto: Crypto, key: string, payload: string)
    requires Sound(crypto)
    ensures Ascii(Sign(crypto, key, payload)) && Sign(crypto, key, payload) != ""
  {
    StripIsUndone(crypto.mac(key, payload));
    var text := Sign(crypto, key, payload);
    forall c | c in text ensures c as int < 128 {
      var i :| 0 <= i < |text| && text[i] == c;
    }
  }

  lemma HeldClaims(fields: map<string, Json>, c: Claims)
    ensures HoldClaims(fields, c) <==>
            && WellTyped(fields) && Get(fields, "kid") == JString(c.kid)
            && c == Claims(Get(fields, "decision_id").s, Get(fields, "action").s,
                           Get(fields, "exp").n, Get(fields, "nbf").n,
                           Get(fields, "jti").s, c.kid,
                           StringOption(Get(fields, "payload_hash")), StringOption(Get(fields, "run_id")))
  {
  }

  /** A token verifies to claims if and only if it is a payload and its signature under the configured key that the
      payload names, the payload holds the claims, and they are good now. */
  lemma VerifiesExactly(
    crypto: Crypto, keys: map<string, string>, token: string, action: string, hash: Option<string>, now: Time,
    c: Claims)
    requires Sound(crypto)
    ensures Verify(crypto, keys, token, action, hash, now) == Ok(c) <==>
            && c.kid in keys && !IsBlank(c.kid) && GoodFor(c, action, hash, now)
            && exists payload, fields ::
                 && payload != "" && SplitDots(token) == [payload, Sign(crypto, keys[c.kid], payload)]
                 && Decode(payload).Some? && crypto.load(Decode(payload).value) == Object(fields)
                 && HoldClaims(fields, c)
  {
    var parts := SplitDots(token);
    if Verify(crypto, keys, token, action, hash, now) == Ok(c) {
      var fields := crypto.load(Decode(parts[0]).value).fields;
      HeldClaims(fields, c);
      assert parts == [parts[0], Sign(crypto, keys[c.kid], parts[0])];
      assert crypto.load(Decode(parts[0]).value) == Object(fields);
    }
    if c.kid in keys && !IsBlank(c.kid) && GoodFor(c, action, hash, now) {
      if payload, fields :|
        && payload != "" && parts == [payload, Sign(crypto, keys[c.kid], payload)]
        && Decode(payload).Some? && crypto.load(Decode(payload).value) == Object(fields)
        && HoldClaims(fields, c)
      {
        HeldClaims(fields, c);
        SignatureIsText(crypto, keys[c.kid], payload);
      }
    }
  }
}
