/**
 Signed webhooks: the `t=<seconds>,s=<hex>` header of `signPayload` and the
 check of `verifySignature`. HMAC-SHA256 is an abstract function whose results
 are 64 lower-case hex digits.
 */
module WebhookSignature {
  import opened Options
  import opened Text
  import opened Decimals
  import opened Json
  import opened CanonicalJson

  /** The HMAC of a message under a secret, in hex. */
  type Hmac = (Text, Text) -> Text

  const T_MARK: Text := [116, EQUALS]
  const S_MARK: Text := [COMMA, 115, EQUALS]
  const HEX_LENGTH := 64

  predicate IsLowerHex(t: Text) {
    |t| == HEX_LENGTH && forall i :: 0 <= i < |t| ==> 48 <= t[i] <= 57 || 97 <= t[i] <= 102
  }

  ghost predicate PrintsHex(hmac: Hmac) {
    forall secret: Text, message: Text :: IsLowerHex(hmac(secret, message))
  }

  function Signed(timestamp: nat, body: Text): Text {
    ToDec(timestamp) + [DOT] + body
  }

  function SignPayload(hmac: Hmac, nowMs: nat, body: Text, secret: Text): Text {
    var timestamp := nowMs / 1000;
    T_MARK + ToDec(timestamp) + S_MARK + hmac(secret, Signed(timestamp, body))
  }

  datatype Header = Header(digits: Text, hex: Text)

  /** The header pattern: `t=`, digits, `,s=`, 64 lower-case hex digits, and nothing else. */
  ghost predicate Matches(h: Text, header: Header) {
    && header.digits != [] && AllDigits(header.digits) && IsLowerHex(header.hex)
    && h == T_MARK + header.digits + S_MARK + header.hex
  }

  /** Splits a header from its fixed-length ends. */
  function ReadHeader(h: Text): Option<Header> {
    var k := |h| - HEX_LENGTH;
    if k >= 6 && h[..2] == T_MARK && h[k - 3..k] == S_MARK && AllDigits(h[2..k - 3]) && IsLowerHex(h[k..])
    then Some(Header(h[2..k - 3], h[k..]))
    else None
  }

  /** `verifySignature`; `maxAge` is the optional replay window, `now` the clock in seconds. */
  predicate Verify(hmac: Hmac, body: Text, secret: Text, signature: Text, maxAge: Option<int>, now: int) {
    match ReadHeader(signature)
    case None => false
    case Some(header) =>
      var timestamp := NumberOf(header.digits);
      if maxAge.Some? && now - timestamp > maxAge.value then false
      else header.hex == hmac(secret, Signed(timestamp, body))
  }

  /** The reader finds exactly the headers of the pattern, and finds their parts. */
  lemma {:induction false} ReadHeaderMatches(h: Text, header: Header)
    ensures ReadHeader(h) == Some(header) <==> Matches(h, header)
  {
    var k := |h| - HEX_LENGTH;
    if ReadHeader(h) == Some(header) {
      assert h == h[..2] + h[2..k - 3] + h[k - 3..k] + h[k..];
    }
    if Matches(h, header) {
      var d := header.digits;
      assert k == 2 + |d| + 3;
      assert h[..2] == T_MARK && h[2..k - 3] == d && h[k - 3..k] == S_MARK && h[k..] == header.hex;
    }
  }

  /**
   What the check demands, spelled out: `h` is `t=`, digits, `,s=` and 64
   lower-case hex digits; the digits are not too old; and the hex is the HMAC
   of the timestamp, a dot and the body.
   */
  ghost predicate Passes(hmac: Hmac, body: Text, secret: Text, h: Text, maxAge: Option<int>, now: int, digits: Text, hex: Text) {
    && h == [116, 61] + digits + [44, 115, 61] + hex
    && digits != [] && (forall i :: 0 <= i < |digits| ==> 48 <= digits[i] <= 57)
    && |hex| == 64 && (forall i :: 0 <= i < 64 ==> 48 <= hex[i] <= 57 || 97 <= hex[i] <= 102)
    && (maxAge.Some? ==> now - NumberOf(digits) <= maxAge.value)
    && hex == hmac(secret, ToDec(NumberOf(digits)) + [46] + body)
  }

  /** Exactly the texts that meet those demands pass as the header of a body. */
  lemma {:induction false} VerifyExactly(hmac: Hmac, body: Text, secret: Text, h: Text, maxAge: Option<int>, now: int)
    ensures Verify(hmac, body, secret, h, maxAge, now) <==>
            exists digits: Text, hex: Text :: Passes(hmac, body, secret, h, maxAge, now, digits, hex)
  {
    if Verify(hmac, body, secret, h, maxAge, now) {
      var header := ReadHeader(h).value;
      ReadHeaderMatches(h, header);
      assert Passes(hmac, body, secret, h, maxAge, now, header.digits, header.hex);
    }
    if digits: Text, hex: Text :| Passes(hmac, body, secret, h, maxAge, now, digits, hex) {
      ReadHeaderMatches(h, Header(digits, hex));
    }
  }

  /** The signed message determines its timestamp and its body: the dot is no digit. */
  lemma {:induction false} SignedInjective(t: nat, a: Text, u: nat, b: Text)
    ensures ToDec(t) + [46] + a == ToDec(u) + [46] + b <==> t == u && a == b
  {
    var x, y := ToDec(t) + [DOT] + a, ToDec(u) + [DOT] + b;
    if x == y {
      assert x == ToDec(t) + ([DOT] + a) && y == ToDec(u) + ([DOT] + b);
      DigitRunAll(ToDec(t), [DOT] + a);
      DigitRunAll(ToDec(u), [DOT] + b);
      SameSplit(ToDec(t), [DOT] + a, ToDec(u), [DOT] + b);
      SameSplit([DOT], a, [DOT], b);
      ValueToDec(t);
      ValueToDec(u);
    }
  }

  /**
   Timestamp and body are both bound: unless HMAC collides, a header that names
   some second beside the HMAC made for second `at` and body `signed` passes
   exactly for that second, that body, and while it is inside the window.
   */
  lemma {:induction false} HeaderBindsTimestampAndBody(
    hmac: Hmac, digits: Text, at: nat, signed: Text, body: Text, secret: Text, maxAge: Option<int>, now: int)
    requires PrintsHex(hmac) && digits != [] && AllDigits(digits)
    requires hmac(secret, ToDec(NumberOf(digits)) + [46] + body) == hmac(secret, ToDec(at) + [46] + signed) ==>
             ToDec(NumberOf(digits)) + [46] + body == ToDec(at) + [46] + signed
    ensures Verify(hmac, body, secret, [116, 61] + digits + [44, 115, 61] + hmac(secret, ToDec(at) + [46] + signed), maxAge, now) <==>
            NumberOf(digits) == at && body == signed && (maxAge.Some? ==> now - at <= maxAge.value)
  {
    var hex := hmac(secret, ToDec(at) + [46] + signed);
    var h := [116, 61] + digits + [44, 115, 61] + hex;
    assert IsLowerHex(hex);
    assert Matches(h, Header(digits, hex));
    ReadHeaderMatches(h, Header(digits, hex));
    SignedInjective(NumberOf(digits), body, at, signed);
  }

  /** The printed header: the second it was made, and the HMAC of that second, a dot and the body. */
  lemma {:induction false} SignPayloadPasses(hmac: Hmac, nowMs: nat, body: Text, secret: Text, maxAge: Option<int>, now: int)
    requires PrintsHex(hmac)
    ensures exists second: nat, hex: Text ::
              && 1000 * second <= nowMs < 1000 * second + 1000
              && SignPayload(hmac, nowMs, body, secret) == [116, 61] + ToDec(second) + [44, 115, 61] + hex
              && hex == hmac(secret, ToDec(second) + [46] + body)
              && (Passes(hmac, body, secret, SignPayload(hmac, nowMs, body, secret), maxAge, now, ToDec(second), hex) <==>
                  (maxAge.Some? ==> now - second <= maxAge.value))
  {
    var second := nowMs / 1000;
    var hex := hmac(secret, ToDec(second) + [46] + body);
    assert IsLowerHex(hex);
    ValueToDec(second);
    assert SignPayload(hmac, nowMs, body, secret) == [116, 61] + ToDec(second) + [44, 115, 61] + hex;
  }

  /** What a signed header makes the verifier compare. */
  lemma {:induction false} VerifySigned(hmac: Hmac, nowMs: nat, signed: Text, body: Text, secret: Text, maxAge: Option<int>, now: int)
    requires PrintsHex(hmac)
    ensures Verify(hmac, body, secret, SignPayload(hmac, nowMs, signed, secret), maxAge, now) <==>
            (maxAge.Some? ==> now - nowMs / 1000 <= maxAge.value) &&
            hmac(secret, ToDec(nowMs / 1000) + [46] + signed) == hmac(secret, ToDec(nowMs / 1000) + [46] + body)
  {
    var ts := nowMs / 1000;
    var header := Header(ToDec(ts), hmac(secret, Signed(ts, signed)));
    assert IsLowerHex(hmac(secret, Signed(ts, signed)));
    assert Matches(SignPayload(hmac, nowMs, signed, secret), header);
    ReadHeaderMatches(SignPayload(hmac, nowMs, signed, secret), header);
    ValueToDec(ts);
  }

  /**
   A signature survives reserialization: whatever text the payload arrives as,
   if it parses to the same meaning, the verifier accepts its canonical form
   under the header printed by the signer exactly while the age is within the
   window.
   */
  lemma {:induction false} SignatureSurvivesReserialization(
    hmac: Hmac, v: Value, text: Text, secret: Text, nowMs: nat, maxAge: Option<int>, now: int)
    requires PrintsHex(hmac)
    requires WellFormed(v) && IsJsonValue(v)
    requires Parse(text).Some? && SameJson(Parse(text).value, v)
    ensures IsJsonValue(Parse(text).value)
    ensures Verify(hmac, Serialize(Parse(text).value), secret,
                   SignPayload(hmac, nowMs, Serialize(v), secret), maxAge, now) <==>
            (maxAge.Some? ==> now - nowMs / 1000 <= maxAge.value)
  {
    ParsePlain(text);
    CanonicalAfterReserialization(v, text);
    VerifySigned(hmac, nowMs, Serialize(v), Serialize(v), secret, maxAge, now);
  }

  /** The case of a payload sent through `JSON.stringify` with its keys in any other order. */
  lemma {:induction false} SignatureSurvivesReordering(
    hmac: Hmac, v: Value, w: Value, secret: Text, nowMs: nat, maxAge: Option<int>, now: int)
    requires PrintsHex(hmac)
    requires WellFormed(v) && WellFormed(w) && IsJsonValue(v) && IsJsonValue(w) && SameJson(v, w)
    ensures Parse(Stringify(w)).Some? && IsJsonValue(Parse(Stringify(w)).value)
    ensures Verify(hmac, Serialize(Parse(Stringify(w)).value), secret,
                   SignPayload(hmac, nowMs, Serialize(v), secret), maxAge, now) <==>
            (maxAge.Some? ==> now - nowMs / 1000 <= maxAge.value)
  {
    StringifyReparse(v, w);
    NormalizeClean(w);
    VerifySigned(hmac, nowMs, Serialize(v), Serialize(v), secret, maxAge, now);
  }

  /**
   And it accepts nothing else: unless HMAC collides on the two signed
   messages, a payload passes under another payload's header exactly when the
   two mean the same and the header is fresh.
   */
  lemma {:induction false} SignatureRejectsOtherPayloads(
    hmac: Hmac, v: Value, w: Value, secret: Text, nowMs: nat, maxAge: Option<int>, now: int)
    requires PrintsHex(hmac)
    requires WellFormed(v) && WellFormed(w) && IsJsonValue(v) && IsJsonValue(w)
    requires var stamp := ToDec(nowMs / 1000) + [46];
             hmac(secret, stamp + Serialize(v)) == hmac(secret, stamp + Serialize(w)) ==>
             stamp + Serialize(v) == stamp + Serialize(w)
    ensures Verify(hmac, Serialize(w), secret, SignPayload(hmac, nowMs, Serialize(v), secret), maxAge, now) <==>
            (maxAge.Some? ==> now - nowMs / 1000 <= maxAge.value) && SameJson(v, w)
  {
    VerifySigned(hmac, nowMs, Serialize(v), Serialize(w), secret, maxAge, now);
    CanonicalDecides(v, w);
    SignedInjective(nowMs / 1000, Serialize(v), nowMs / 1000, Serialize(w));
  }
}
