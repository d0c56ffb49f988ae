/** Bytes in hexadecimal, as Node's `Buffer` writes and reads them, and `split` at a separator. */
module HexBytes {
  import opened JsonStrings
  import opened Text

  type Byte = n: int | 0 <= n < 256

  type Bytes = seq<Byte>

  function Hex(bytes: Bytes): (t: Text)
    ensures |t| == 2 * |bytes|
  {
    if bytes == [] then [] else [HexDigit(bytes[0] / 16), HexDigit(bytes[0] % 16)] + Hex(bytes[1..])
  }

  /** `Buffer.from(t, 'hex')`: pairs of digits up to the first that is not one; an odd digit is dropped. */
  function Unhex(t: Text): (bytes: Bytes)
    ensures 2 * |bytes| <= |t|
  {
    if |t| < 2 || !IsHexDigit(t[0]) || !IsHexDigit(t[1]) then []
    else [16 * HexValue(t[0]) + HexValue(t[1])] + Unhex(t[2..])
  }

  lemma {:induction false} UnhexHex(bytes: Bytes)
    ensures Unhex(Hex(bytes)) == bytes
  {
    if bytes != [] {
      HexRoundTrip(bytes[0] / 16);
      HexRoundTrip(bytes[0] % 16);
      UnhexHex(bytes[1..]);
      assert Hex(bytes)[2..] == Hex(bytes[1..]);
    }
  }

  lemma {:induction false} HexHasNoColon(bytes: Bytes)
    ensures COLON !in Hex(bytes)
  {
    if bytes != [] {
      HexHasNoColon(bytes[1..]);
    }
  }

  /** `t.split(separator)`. */
  function Split(t: Text, separator: CodeUnit): (parts: seq<Text>)
    ensures |parts| >= 1 && forall k :: 0 <= k < |parts| ==> |parts[k]| <= |t|
  {
    if t == [] then [[]]
    else
      var rest := Split(t[1..], separator);
      if t[0] == separator then [[]] + rest else [[t[0]] + rest[0]] + rest[1..]
  }

  /** The parts put back together. */
  function Joined(parts: seq<Text>, separator: CodeUnit): Text {
    if parts == [] then [] else if |parts| == 1 then parts[0] else parts[0] + [separator] + Joined(parts[1..], separator)
  }

  lemma {:induction false} JoinedThree(a: Text, b: Text, c: Text, separator: CodeUnit)
    ensures Joined([a, b, c], separator) == a + [separator] + b + [separator] + c
  {
    assert [a, b, c][1..] == [b, c] && [b, c][1..] == [c];
    assert Joined([c], separator) == c;
    assert Joined([b, c], separator) == b + [separator] + c;
    assert a + [separator] + (b + [separator] + c) == a + [separator] + b + [separator] + c;
  }

  /** Splitting loses nothing and leaves no separator inside a part. */
  lemma {:induction false} SplitExactly(t: Text, separator: CodeUnit)
    ensures Joined(Split(t, separator), separator) == t
    ensures forall k :: 0 <= k < |Split(t, separator)| ==> separator !in Split(t, separator)[k]
  {
    if t != [] {
      SplitExactly(t[1..], separator);
      var rest := Split(t[1..], separator);
      assert t == [t[0]] + t[1..];
      if t[0] == separator {
        assert ([[]] + rest)[1..] == rest;
      } else {
        assert ([[t[0]] + rest[0]] + rest[1..])[1..] == rest[1..];
        assert |rest| > 1 ==> [t[0]] + (rest[0] + [separator] + Joined(rest[1..], separator))
                              == [t[0]] + rest[0] + [separator] + Joined(rest[1..], separator);
      }
    }
  }

  lemma {:induction false} SplitFirst(part: Text, separator: CodeUnit, rest: Text)
    requires separator !in part
    ensures Split(part + [separator] + rest, separator) == [part] + Split(rest, separator)
  {
    var t := part + [separator] + rest;
    if part == [] {
      assert t[1..] == rest;
    } else {
      SplitFirst(part[1..], separator, rest);
      assert t[1..] == part[1..] + [separator] + rest;
      assert part == [part[0]] + part[1..];
    }
  }

  lemma {:induction false} SplitLast(part: Text, separator: CodeUnit)
    requires separator !in part
    ensures Split(part, separator) == [part]
  {
    if part != [] {
      SplitLast(part[1..], separator);
      assert part == [part[0]] + part[1..];
    }
  }
}

/** Encryption at rest of sensitive string fields, and its walk over nested plain data. */
module FieldEncryption {
  import opened HexBytes
  import opened Options
  import opened Text

  const IV_LENGTH := 12
  const TAG_LENGTH := 16
  const MIN_KEY_LENGTH := 32

  /** `$enc$v1$`. */
  const ENCRYPTED_PREFIX: Text := [36, 101, 110, 99, 36, 118, 49, 36]

  const SENSITIVE_FIELDS: set<string> := {"secretHash", "secret", "privateKey", "secretKey"}

  datatype Error = MissingKey | ShortKey | MalformedPayload | BadLengths | AuthenticationFailed

  datatype Result<+T> = Ok(value: T) | Err(error: Error)

  datatype Sealed = Sealed(ciphertext: Bytes, tag: Bytes)

  /** The library's functions: SHA-256, AES-256-GCM by key and IV, and UTF-8. */
  datatype Crypto = Crypto(
    digest: Text -> Bytes,
    seal: (Bytes, Bytes, Bytes) -> Sealed,
    open: (Bytes, Bytes, Sealed) -> Option<Bytes>,
    toUtf8: Text -> Bytes,
    fromUtf8: Bytes -> Text)

  /**
   What is assumed of them: opening undoes sealing, tags have their length,
   a plaintext is as long as its ciphertext, and decoding UTF-8 gives at most
   one code unit a byte.
   */
  ghost predicate Lawful(c: Crypto) {
    && (forall key: Bytes, iv: Bytes, plain: Bytes ::
          |c.seal(key, iv, plain).tag| == TAG_LENGTH && c.open(key, iv, c.seal(key, iv, plain)) == Some(plain))
    && (forall key: Bytes, iv: Bytes, s: Sealed ::
          c.open(key, iv, s).Some? ==> |c.open(key, iv, s).value| == |s.ciphertext|)
    && (forall bytes: Bytes :: |c.fromUtf8(bytes)| <= |bytes|)
  }

  /** The `secretKey` argument and the environment's key; the empty text stands for an absent one. */
  datatype Setup = Setup(crypto: Crypto, secretKey: Text, envKey: Text)

  type Iv = bytes: Bytes | |bytes| == IV_LENGTH witness seq(IV_LENGTH, _ => 0)

  // ---------- one field ----------

  function ChosenKey(x: Setup): Text {
    if x.secretKey != [] then x.secretKey else x.envKey
  }

  function DeriveKey(x: Setup): Result<Bytes> {
    if ChosenKey(x) == [] then Err(MissingKey)
    else if |ChosenKey(x)| < MIN_KEY_LENGTH then Err(ShortKey)
    else Ok(x.crypto.digest(ChosenKey(x)))
  }

  predicate IsEncrypted(s: Text) {
    ENCRYPTED_PREFIX <= s
  }

  function Payload(iv: Bytes, s: Sealed): Text {
    Hex(iv) + [COLON] + (Hex(s.tag) + [COLON] + Hex(s.ciphertext))
  }

  function EncryptField(x: Setup, plaintext: Text, iv: Iv): Result<Text> {
    if IsEncrypted(plaintext) then Ok(plaintext)
    else
      match DeriveKey(x)
      case Err(e) => Err(e)
      case Ok(key) => Ok(ENCRYPTED_PREFIX + Payload(iv, x.crypto.seal(key, iv, x.crypto.toUtf8(plaintext))))
  }

  function DecryptField(x: Setup, s: Text): Result<Text> {
    if !IsEncrypted(s) then Ok(s)
    else
      match DeriveKey(x)
      case Err(e) => Err(e)
      case Ok(key) => OpenPayload(x.crypto, key, s[|ENCRYPTED_PREFIX|..])
  }

  function OpenPayload(c: Crypto, key: Bytes, payload: Text): Result<Text> {
    var parts := Split(payload, COLON);
    if |parts| != 3 then Err(MalformedPayload)
    else
      var iv, tag, ciphertext := Unhex(parts[0]), Unhex(parts[1]), Unhex(parts[2]);
      if |iv| != IV_LENGTH || |tag| != TAG_LENGTH then Err(BadLengths)
      else
        match c.open(key, iv, Sealed(ciphertext, tag))
        case None => Err(AuthenticationFailed)
        case Some(plain) => Ok(c.fromUtf8(plain))
  }

  /** A payload splits into exactly its three parts, and each reads back. */
  lemma {:induction false} PayloadParses(iv: Bytes, s: Sealed)
    ensures Split(Payload(iv, s), COLON) == [Hex(iv), Hex(s.tag), Hex(s.ciphertext)]
    ensures Unhex(Hex(iv)) == iv && Unhex(Hex(s.tag)) == s.tag && Unhex(Hex(s.ciphertext)) == s.ciphertext
  {
    HexHasNoColon(iv);
    HexHasNoColon(s.tag);
    HexHasNoColon(s.ciphertext);
    SplitFirst(Hex(iv), COLON, Hex(s.tag) + [COLON] + Hex(s.ciphertext));
    SplitFirst(Hex(s.tag), COLON, Hex(s.ciphertext));
    SplitLast(Hex(s.ciphertext), COLON);
    UnhexHex(iv);
    UnhexHex(s.tag);
    UnhexHex(s.ciphertext);
  }

  /** The key: the one passed, or else the environment's; at least 32 characters. */
  predicate KeyIs(x: Setup, key: Text) {
    key == (if x.secretKey == [] then x.envKey else x.secretKey) && |key| >= 32
  }

  /**
   What is stored for a text without the prefix: the prefix `$enc$v1$`, then
   IV, tag and ciphertext in hex with colons between, sealed under the SHA-256
   of the key. With no key at all, or one too short, the error says which.
   */
  lemma {:induction false} EncryptFieldExactly(x: Setup, s: Text, iv: Iv, key: Text)
    requires !([36, 101, 110, 99, 36, 118, 49, 36] <= s)
    requires key == if x.secretKey == [] then x.envKey else x.secretKey
    ensures EncryptField(x, s, iv) ==
            if key == [] then Err(MissingKey)
            else if |key| < 32 then Err(ShortKey)
            else var sealed := x.crypto.seal(x.crypto.digest(key), iv, x.crypto.toUtf8(s));
                 Ok([36, 101, 110, 99, 36, 118, 49, 36] + Hex(iv) + [58] + Hex(sealed.tag) + [58] + Hex(sealed.ciphertext))
  {
    var sealed := x.crypto.seal(x.crypto.digest(key), iv, x.crypto.toUtf8(s));
    assert ENCRYPTED_PREFIX + Payload(iv, sealed) == ENCRYPTED_PREFIX + Hex(iv) + [COLON] + Hex(sealed.tag) + [COLON] + Hex(sealed.ciphertext);
  }

  /** A payload of three parts without colons, IV and tag of 12 and 16 bytes, that opens under the key. */
  ghost predicate Opens(x: Setup, key: Text, payload: Text, iv: Text, tag: Text, ciphertext: Text, plain: Text) {
    && payload == iv + [58] + tag + [58] + ciphertext && 58 !in iv && 58 !in tag && 58 !in ciphertext
    && |Unhex(iv)| == 12 && |Unhex(tag)| == 16
    && var unsealed := x.crypto.open(x.crypto.digest(key), Unhex(iv), Sealed(Unhex(ciphertext), Unhex(tag)));
       unsealed.Some? && plain == x.crypto.fromUtf8(unsealed.value)
  }

  lemma {:induction false} ThreeParts(payload: Text, a: Text, b: Text, c: Text)
    ensures Split(payload, COLON) == [a, b, c] <==>
            payload == a + [58] + b + [58] + c && 58 !in a && 58 !in b && 58 !in c
  {
    if Split(payload, COLON) == [a, b, c] {
      SplitExactly(payload, COLON);
      JoinedThree(a, b, c, COLON);
      assert forall k :: 0 <= k < 3 ==> COLON !in [a, b, c][k];
      assert 58 !in [a, b, c][0] && 58 !in [a, b, c][1] && 58 !in [a, b, c][2];
    }
    if payload == a + [58] + b + [58] + c && 58 !in a && 58 !in b && 58 !in c {
      assert payload == a + [COLON] + (b + [COLON] + c);
      SplitFirst(a, COLON, b + [COLON] + c);
      SplitFirst(b, COLON, c);
      SplitLast(c, COLON);
    }
  }

  /** Exactly which texts with the prefix decrypt, and to what. */
  lemma {:induction false} DecryptFieldExactly(x: Setup, key: Text, payload: Text, plain: Text)
    requires KeyIs(x, key)
    ensures DecryptField(x, [36, 101, 110, 99, 36, 118, 49, 36] + payload) == Ok(plain) <==>
            exists iv: Text, tag: Text, ciphertext: Text :: Opens(x, key, payload, iv, tag, ciphertext, plain)
  {
    var c, bytes := x.crypto, x.crypto.digest(key);
    assert (ENCRYPTED_PREFIX + payload)[|ENCRYPTED_PREFIX|..] == payload;
    assert DecryptField(x, ENCRYPTED_PREFIX + payload) == OpenPayload(c, bytes, payload);
    var parts := Split(payload, COLON);
    if OpenPayload(c, bytes, payload) == Ok(plain) {
      ThreeParts(payload, parts[0], parts[1], parts[2]);
      assert Opens(x, key, payload, parts[0], parts[1], parts[2], plain);
    }
    if iv: Text, tag: Text, ciphertext: Text :| Opens(x, key, payload, iv, tag, ciphertext, plain) {
      ThreeParts(payload, iv, tag, ciphertext);
    }
  }

  /** The text has no lone surrogate: UTF-8 gives it back. */
  predicate Survives(c: Crypto, s: Text) {
    c.fromUtf8(c.toUtf8(s)) == s
  }

  predicate HasKey(x: Setup) {
    DeriveKey(x).Ok?
  }

  /** A freshly encrypted field decrypts to what UTF-8 makes of the plaintext. */
  lemma {:induction false} FieldRoundTrip(x: Setup, s: Text, iv: Iv)
    requires Lawful(x.crypto) && HasKey(x) && !IsEncrypted(s)
    ensures var e := EncryptField(x, s, iv);
            e.Ok? && IsEncrypted(e.value) && DecryptField(x, e.value) == Ok(x.crypto.fromUtf8(x.crypto.toUtf8(s)))
  {
    var c, key := x.crypto, DeriveKey(x).value;
    var plain := c.toUtf8(s);
    var sealed := c.seal(key, iv, plain);
    var e := ENCRYPTED_PREFIX + Payload(iv, sealed);
    assert e[|ENCRYPTED_PREFIX|..] == Payload(iv, sealed);
    PayloadParses(iv, sealed);
    assert sealed == Sealed(sealed.ciphertext, sealed.tag);
    assert c.open(key, iv, sealed) == Some(plain);
  }

  /** Decrypting shortens: a text with the prefix never decrypts to itself. */
  lemma {:induction false} DecryptShortens(x: Setup, s: Text)
    requires Lawful(x.crypto) && IsEncrypted(s) && DecryptField(x, s).Ok?
    ensures |DecryptField(x, s).value| < |s|
  {
    var c, key, parts := x.crypto, DeriveKey(x).value, Split(s[|ENCRYPTED_PREFIX|..], COLON);
    var sealed := Sealed(Unhex(parts[2]), Unhex(parts[1]));
    var plain := c.open(key, Unhex(parts[0]), sealed).value;
    assert |plain| == |sealed.ciphertext|;
    assert |c.fromUtf8(plain)| <= |plain|;
  }

  /** What a text must be for its field to come back: without the prefix, and sound as UTF-16. */
  predicate Restorable(c: Crypto, s: Text) {
    !IsEncrypted(s) && Survives(c, s)
  }

  lemma {:induction false} FieldRestored(x: Setup, s: Text, iv: Iv)
    requires Lawful(x.crypto) && HasKey(x)
    ensures EncryptField(x, s, iv).Ok?
    ensures DecryptField(x, EncryptField(x, s, iv).value) == Ok(s) <==> Restorable(x.crypto, s)
  {
    if IsEncrypted(s) {
      if DecryptField(x, s).Ok? {
        DecryptShortens(x, s);
      }
    } else {
      FieldRoundTrip(x, s, iv);
    }
  }

  lemma {:induction false} FieldSealed(x: Setup, s: Text, iv: Iv)
    ensures var e := EncryptField(x, s, iv);
            && (e.Ok? <==> HasKey(x) || IsEncrypted(s))
            && (if e.Ok? then IsEncrypted(e.value) else e.error == DeriveKey(x).error)
  {
  }

  // ---------- nested data ----------

  /** Plain data; scalars and instances of classes are told apart only by an identity. */
  datatype Data =
    | Str(text: Text)
    | Scalar(id: nat)
    | Instance(id: nat)
    | Arr(items: seq<Data>)
    | Obj(members: seq<Member>)

  datatype Member = Member(key: string, value: Data)

  /** The two walks; encryption draws an IV for each field, named here by the field's path. */
  datatype Walk = Encrypting(ivs: seq<nat> -> Iv) | Decrypting

  function OnField(x: Setup, w: Walk, s: Text, path: seq<nat>): Result<Text> {
    match w
    case Encrypting(ivs) => EncryptField(x, s, ivs(path))
    case Decrypting => DecryptField(x, s)
  }

  /** `encryptSensitiveFields` and `decryptSensitiveFields`. */
  function Transform(x: Setup, w: Walk, d: Data, path: seq<nat>): (r: Result<Data>)
    ensures r.Ok? ==> (r.value.Str? <==> d.Str?)
    decreases d, 1
  {
    match d
    case Arr(items) =>
      var r := TransformItems(x, w, items, path);
      if r.Ok? then Ok(Arr(r.value)) else Err(r.error)
    case Obj(members) =>
      var r := TransformMembers(x, w, members, path);
      if r.Ok? then Ok(Obj(r.value)) else Err(r.error)
    case _ => Ok(d)
  }

  function TransformItems(x: Setup, w: Walk, items: seq<Data>, path: seq<nat>): (r: Result<seq<Data>>)
    ensures r.Ok? ==> |r.value| == |items|
    decreases items, 0
  {
    if items == [] then Ok([])
    else
      var n := |items| - 1;
      var before := TransformItems(x, w, items[..n], path);
      if before.Err? then before
      else
        var last := Transform(x, w, items[n], path + [n]);
        if last.Ok? then Ok(before.value + [last.value]) else Err(last.error)
  }

  function TransformMembers(x: Setup, w: Walk, members: seq<Member>, path: seq<nat>): (r: Result<seq<Member>>)
    ensures r.Ok? ==> |r.value| == |members|
    decreases members, 0
  {
    if members == [] then Ok([])
    else
      var n := |members| - 1;
      var before := TransformMembers(x, w, members[..n], path);
      if before.Err? then before
      else
        var last := TransformMember(x, w, members[n], path + [n]);
        if last.Ok? then Ok(before.value + [last.value]) else Err(last.error)
  }

  /** A sensitive string is encrypted or decrypted; anything else is walked into. */
  function TransformMember(x: Setup, w: Walk, m: Member, path: seq<nat>): (r: Result<Member>)
    ensures r.Ok? ==> r.value.key == m.key && (r.value.value.Str? <==> m.value.Str?)
    decreases m, 2
  {
    if m.key in SENSITIVE_FIELDS && m.value.Str? then
      var r := OnField(x, w, m.value.text, path);
      if r.Ok? then Ok(Member(m.key, Str(r.value))) else Err(r.error)
    else
      var r := Transform(x, w, m.value, path);
      if r.Ok? then Ok(Member(m.key, r.value)) else Err(r.error)
  }

  // ---------- place by place ----------

  /** What stands at a path of positions, if anything. */
  function At(d: Data, path: seq<nat>): Option<Data>
    decreases path
  {
    if path == [] then Some(d)
    else
      match d
      case Arr(items) => if path[0] < |items| then At(items[path[0]], path[1..]) else None
      case Obj(members) => if path[0] < |members| then At(members[path[0]].value, path[1..]) else None
      case _ => None
  }

  /** The name a place has in its object; none in an array or at the top. */
  function NameAt(d: Data, path: seq<nat>): Option<string>
    decreases path
  {
    if path == [] then None
    else
      match d
      case Arr(items) => if path[0] < |items| then NameAt(items[path[0]], path[1..]) else None
      case Obj(members) =>
        if path[0] < |members| then
          if |path| == 1 then Some(members[path[0]].key) else NameAt(members[path[0]].value, path[1..])
        else None
      case _ => None
  }

  /** The text stored for a string under some name, at some place. */
  function StoredText(x: Setup, w: Walk, name: Option<string>, s: Text, place: seq<nat>): Result<Text> {
    if name.Some? && (name.value == "secretHash" || name.value == "secret" || name.value == "privateKey" || name.value == "secretKey")
    then OnField(x, w, s, place) else Ok(s)
  }

  /** How what stands at a place relates to what stood there before. */
  ghost predicate SamePlace(x: Setup, w: Walk, before: Option<Data>, after: Option<Data>, name: Option<string>, place: seq<nat>) {
    match before
    case None => after.None?
    case Some(Str(s)) => after.Some? && after.value.Str? && StoredText(x, w, name, s, place) == Ok(after.value.text)
    case Some(Arr(items)) => after.Some? && after.value.Arr? && |after.value.items| == |items|
    case Some(Obj(members)) =>
      && after.Some? && after.value.Obj? && |after.value.members| == |members|
      && forall k :: 0 <= k < |members| ==> after.value.members[k].key == members[k].key
    case Some(v) => after == before
  }

  lemma {:induction false} ItemAt(x: Setup, w: Walk, items: seq<Data>, path: seq<nat>, i: nat)
    requires i < |items| && TransformItems(x, w, items, path).Ok?
    ensures Transform(x, w, items[i], path + [i]) == Ok(TransformItems(x, w, items, path).value[i])
  {
    var n := |items| - 1;
    if i < n {
      ItemAt(x, w, items[..n], path, i);
    }
  }

  lemma {:induction false} MemberAt(x: Setup, w: Walk, members: seq<Member>, path: seq<nat>, i: nat)
    requires i < |members| && TransformMembers(x, w, members, path).Ok?
    ensures TransformMember(x, w, members[i], path + [i]) == Ok(TransformMembers(x, w, members, path).value[i])
  {
    var n := |members| - 1;
    if i < n {
      MemberAt(x, w, members[..n], path, i);
    }
  }

  /**
   What a walk does, place by place at any depth: a string named `secretHash`,
   `secret`, `privateKey` or `secretKey` is encrypted or decrypted with the IV
   of its place; every other string, scalar and instance stays, and arrays and
   objects keep their length, order and names.
   */
  lemma {:induction false} WalkAtEveryPlace(x: Setup, w: Walk, d: Data, base: seq<nat>, path: seq<nat>)
    requires Transform(x, w, d, base).Ok?
    ensures var e := Transform(x, w, d, base).value;
            NameAt(e, path) == NameAt(d, path) && SamePlace(x, w, At(d, path), At(e, path), NameAt(d, path), base + path)
    decreases |path|, 0
  {
    if path == [] {
      TopPlace(x, w, d, base);
    } else {
      var i, rest := path[0], path[1..];
      assert base + path == base + [i] + rest;
      if d.Arr? && i < |d.items| {
        ItemAt(x, w, d.items, base, i);
        WalkAtEveryPlace(x, w, d.items[i], base + [i], rest);
        NoNameAtTop(d.items[i], rest);
      } else if d.Obj? && i < |d.members| {
        MemberAt(x, w, d.members, base, i);
        MemberPlace(x, w, d.members[i], base + [i], rest);
      }
    }
  }

  lemma {:induction false} NoNameAtTop(d: Data, path: seq<nat>)
    ensures path == [] ==> NameAt(d, path) == None
  {
  }

  lemma {:induction false} TopPlace(x: Setup, w: Walk, d: Data, base: seq<nat>)
    requires Transform(x, w, d, base).Ok?
    ensures SamePlace(x, w, Some(d), Some(Transform(x, w, d, base).value), None, base)
  {
    if d.Obj? {
      forall k | 0 <= k < |d.members| ensures TransformMembers(x, w, d.members, base).value[k].key == d.members[k].key {
        MemberAt(x, w, d.members, base, k);
      }
    }
  }

  /** A member, by its own name at the top and by the names inside it below. */
  lemma {:induction false} MemberPlace(x: Setup, w: Walk, m: Member, base: seq<nat>, rest: seq<nat>)
    requires TransformMember(x, w, m, base).Ok?
    ensures var e := TransformMember(x, w, m, base).value;
            && e.key == m.key
            && (rest != [] ==> NameAt(e.value, rest) == NameAt(m.value, rest))
            && SamePlace(x, w, At(m.value, rest), At(e.value, rest), if rest == [] then Some(m.key) else NameAt(m.value, rest), base + rest)
    decreases |rest|, 1
  {
    assert base + [] == base;
    if !(m.key in SENSITIVE_FIELDS && m.value.Str?) {
      if rest == [] {
        TopPlace(x, w, m.value, base);
      } else {
        WalkAtEveryPlace(x, w, m.value, base, rest);
      }
    }
  }

  /** The strings at sensitive fields, anywhere in the data. */
  function Secrets(d: Data): set<Text>
    decreases d, 1
  {
    match d
    case Arr(items) => SecretsOfItems(items)
    case Obj(members) => SecretsOfMembers(members)
    case _ => {}
  }

  function SecretsOfItems(items: seq<Data>): set<Text>
    decreases items, 0
  {
    if items == [] then {} else SecretsOfItems(items[..|items| - 1]) + Secrets(items[|items| - 1])
  }

  function SecretsOfMembers(members: seq<Member>): set<Text>
    decreases members, 0
  {
    if members == [] then {} else SecretsOfMembers(members[..|members| - 1]) + SecretsOfMember(members[|members| - 1])
  }

  function SecretsOfMember(m: Member): set<Text>
    decreases m, 2
  {
    if m.key in SENSITIVE_FIELDS && m.value.Str? then {m.value.text} else Secrets(m.value)
  }

  // ---------- decrypting undoes encrypting ----------

  predicate AllRestorable(c: Crypto, secrets: set<Text>) {
    forall s :: s in secrets ==> Restorable(c, s)
  }

  /**
   The tree codec. With a usable key, encrypting any nested data succeeds and
   decrypting the result gives the data back exactly when every sensitive
   string is free of the prefix and of lone surrogates, whatever the IVs.
   */
  lemma {:induction false} TreeRoundTrip(x: Setup, ivs: seq<nat> -> Iv, d: Data, path: seq<nat>)
    requires Lawful(x.crypto) && HasKey(x)
    ensures var e := Transform(x, Encrypting(ivs), d, path);
            e.Ok? && (Transform(x, Decrypting, e.value, path) == Ok(d) <==> AllRestorable(x.crypto, Secrets(d)))
    decreases d, 1
  {
    match d
    case Arr(items) => ItemsRoundTrip(x, ivs, items, path);
    case Obj(members) => MembersRoundTrip(x, ivs, members, path);
    case _ =>
  }

  /** One more item is transformed after the others. */
  lemma {:induction false} ItemsMore(x: Setup, w: Walk, before: seq<Data>, d: Data, path: seq<nat>)
    ensures var b, r := TransformItems(x, w, before, path), Transform(x, w, d, path + [|before|]);
            TransformItems(x, w, before + [d], path) ==
            if b.Err? then b else if r.Ok? then Ok(b.value + [r.value]) else Err(r.error)
  {
    assert (before + [d])[..|before|] == before;
  }

  lemma {:induction false} ItemsRoundTrip(x: Setup, ivs: seq<nat> -> Iv, items: seq<Data>, path: seq<nat>)
    requires Lawful(x.crypto) && HasKey(x)
    ensures var e := TransformItems(x, Encrypting(ivs), items, path);
            e.Ok? && (TransformItems(x, Decrypting, e.value, path) == Ok(items) <==> AllRestorable(x.crypto, SecretsOfItems(items)))
    decreases items, 0
  {
    if items != [] {
      var n := |items| - 1;
      ItemsRoundTrip(x, ivs, items[..n], path);
      TreeRoundTrip(x, ivs, items[n], path + [n]);
      var before := TransformItems(x, Encrypting(ivs), items[..n], path).value;
      var last := Transform(x, Encrypting(ivs), items[n], path + [n]).value;
      ItemsMore(x, Decrypting, before, last, path);
      assert items == items[..n] + [items[n]];
    }
  }

  /** One more member is transformed after the others. */
  lemma {:induction false} MembersMore(x: Setup, w: Walk, before: seq<Member>, m: Member, path: seq<nat>)
    ensures var b, r := TransformMembers(x, w, before, path), TransformMember(x, w, m, path + [|before|]);
            TransformMembers(x, w, before + [m], path) ==
            if b.Err? then b else if r.Ok? then Ok(b.value + [r.value]) else Err(r.error)
  {
    assert (before + [m])[..|before|] == before;
  }

  lemma {:induction false} MembersRoundTrip(x: Setup, ivs: seq<nat> -> Iv, members: seq<Member>, path: seq<nat>)
    requires Lawful(x.crypto) && HasKey(x)
    ensures var e := TransformMembers(x, Encrypting(ivs), members, path);
            e.Ok? && (TransformMembers(x, Decrypting, e.value, path) == Ok(members)
                      <==> AllRestorable(x.crypto, SecretsOfMembers(members)))
    decreases members, 0
  {
    if members != [] {
      var n := |members| - 1;
      MembersRoundTrip(x, ivs, members[..n], path);
      MemberRoundTrip(x, ivs, members[n], path + [n]);
      var before := TransformMembers(x, Encrypting(ivs), members[..n], path).value;
      var last := TransformMember(x, Encrypting(ivs), members[n], path + [n]).value;
      MembersMore(x, Decrypting, before, last, path);
      assert members == members[..n] + [members[n]];
    }
  }

  lemma {:induction false} MemberRoundTrip(x: Setup, ivs: seq<nat> -> Iv, m: Member, path: seq<nat>)
    requires Lawful(x.crypto) && HasKey(x)
    ensures var e := TransformMember(x, Encrypting(ivs), m, path);
            e.Ok? && (TransformMember(x, Decrypting, e.value, path) == Ok(m) <==> AllRestorable(x.crypto, SecretsOfMember(m)))
    decreases m, 2
  {
    if m.key in SENSITIVE_FIELDS && m.value.Str? {
      FieldRestored(x, m.value.text, ivs(path));
    } else {
      TreeRoundTrip(x, ivs, m.value, path);
    }
  }

  // ---------- encrypting twice ----------

  predicate AllSealed(secrets: set<Text>) {
    forall s :: s in secrets ==> IsEncrypted(s)
  }

  /**
   Encryption fails exactly when there is no usable key and some sensitive
   string still lacks the prefix. When it succeeds no sensitive string is left
   in the clear, and encrypting the result again, with any key or none and any
   IVs, changes nothing.
   */
  lemma {:induction false} EncryptOnce(x: Setup, ivs: seq<nat> -> Iv, y: Setup, again: seq<nat> -> Iv, d: Data, path: seq<nat>)
    ensures var e := Transform(x, Encrypting(ivs), d, path);
            && (e.Ok? <==> HasKey(x) || AllSealed(Secrets(d)))
            && (e.Err? ==> e.error == DeriveKey(x).error)
            && (e.Ok? ==> AllSealed(Secrets(e.value)) && Transform(y, Encrypting(again), e.value, path) == e)
    decreases d, 1
  {
    match d
    case Arr(items) => EncryptItemsOnce(x, ivs, y, again, items, path);
    case Obj(members) => EncryptMembersOnce(x, ivs, y, again, members, path);
    case _ =>
  }

  lemma {:induction false} EncryptItemsOnce(x: Setup, ivs: seq<nat> -> Iv, y: Setup, again: seq<nat> -> Iv, items: seq<Data>, path: seq<nat>)
    ensures var e := TransformItems(x, Encrypting(ivs), items, path);
            && (e.Ok? <==> HasKey(x) || AllSealed(SecretsOfItems(items)))
            && (e.Err? ==> e.error == DeriveKey(x).error)
            && (e.Ok? ==> AllSealed(SecretsOfItems(e.value)) && TransformItems(y, Encrypting(again), e.value, path) == e)
    decreases items, 0
  {
    if items != [] {
      var n := |items| - 1;
      EncryptItemsOnce(x, ivs, y, again, items[..n], path);
      EncryptOnce(x, ivs, y, again, items[n], path + [n]);
      var before := TransformItems(x, Encrypting(ivs), items[..n], path);
      var last := Transform(x, Encrypting(ivs), items[n], path + [n]);
      if before.Ok? && last.Ok? {
        assert (before.value + [last.value])[..n] == before.value;
      }
    }
  }

  lemma {:induction false} EncryptMembersOnce(x: Setup, ivs: seq<nat> -> Iv, y: Setup, again: seq<nat> -> Iv, members: seq<Member>, path: seq<nat>)
    ensures var e := TransformMembers(x, Encrypting(ivs), members, path);
            && (e.Ok? <==> HasKey(x) || AllSealed(SecretsOfMembers(members)))
            && (e.Err? ==> e.error == DeriveKey(x).error)
            && (e.Ok? ==> AllSealed(SecretsOfMembers(e.value)) && TransformMembers(y, Encrypting(again), e.value, path) == e)
    decreases members, 0
  {
    if members != [] {
      var n := |members| - 1;
      EncryptMembersOnce(x, ivs, y, again, members[..n], path);
      EncryptMemberOnce(x, ivs, y, again, members[n], path + [n]);
      var before := TransformMembers(x, Encrypting(ivs), members[..n], path);
      var last := TransformMember(x, Encrypting(ivs), members[n], path + [n]);
      if before.Ok? && last.Ok? {
        assert (before.value + [last.value])[..n] == before.value;
      }
    }
  }

  lemma {:induction false} EncryptMemberOnce(x: Setup, ivs: seq<nat> -> Iv, y: Setup, again: seq<nat> -> Iv, m: Member, path: seq<nat>)
    ensures var e := TransformMember(x, Encrypting(ivs), m, path);
            && (e.Ok? <==> HasKey(x) || AllSealed(SecretsOfMember(m)))
            && (e.Err? ==> e.error == DeriveKey(x).error)
            && (e.Ok? ==> AllSealed(SecretsOfMember(e.value)) && TransformMember(y, Encrypting(again), e.value, path) == e)
    decreases m, 2
  {
    if m.key in SENSITIVE_FIELDS && m.value.Str? {
      FieldSealed(x, m.value.text, ivs(path));
    } else {
      EncryptOnce(x, ivs, y, again, m.value, path);
    }
  }

  // ---------- the walk as the source runs it ----------

  lemma {:induction false} ItemsStop(x: Setup, w: Walk, items: seq<Data>, path: seq<nat>, i: nat)
    requires i <= |items| && TransformItems(x, w, items[..i], path).Err?
    ensures TransformItems(x, w, items, path) == TransformItems(x, w, items[..i], path)
    decreases |items|
  {
    if i == |items| {
      assert items[..i] == items;
    } else {
      assert items[..|items| - 1][..i] == items[..i];
      ItemsStop(x, w, items[..|items| - 1], path, i);
    }
  }

  lemma {:induction false} MembersStop(x: Setup, w: Walk, members: seq<Member>, path: seq<nat>, i: nat)
    requires i <= |members| && TransformMembers(x, w, members[..i], path).Err?
    ensures TransformMembers(x, w, members, path) == TransformMembers(x, w, members[..i], path)
    decreases |members|
  {
    if i == |members| {
      assert members[..i] == members;
    } else {
      assert members[..|members| - 1][..i] == members[..i];
      MembersStop(x, w, members[..|members| - 1], path, i);
    }
  }

  /** `data.map(…)`; the first error ends the walk. */
  method TransformArray(x: Setup, w: Walk, items: seq<Data>, path: seq<nat>) returns (r: Result<seq<Data>>)
    ensures r == TransformItems(x, w, items, path)
    decreases items, 0
  {
    var mapped: seq<Data> := [];
    for i := 0 to |items|
      invariant TransformItems(x, w, items[..i], path) == Ok(mapped)
    {
      assert items[..i + 1][..i] == items[..i];
      var item := TransformSensitiveFields(x, w, items[i], path + [i]);
      if item.Err? {
        ItemsStop(x, w, items, path, i + 1);
        return Err(item.error);
      }
      mapped := mapped + [item.value];
    }
    assert items[..|items|] == items;
    return Ok(mapped);
  }

  /** One key of an object: encrypt or decrypt a sensitive string, walk into anything else. */
  method TransformValue(x: Setup, w: Walk, m: Member, path: seq<nat>) returns (r: Result<Member>)
    ensures r == TransformMember(x, w, m, path)
    decreases m, 2
  {
    if m.key in SENSITIVE_FIELDS && m.value.Str? {
      var field := OnField(x, w, m.value.text, path);
      if field.Err? {
        return Err(field.error);
      }
      return Ok(Member(m.key, Str(field.value)));
    }
    var inner := TransformSensitiveFields(x, w, m.value, path);
    if inner.Err? {
      return Err(inner.error);
    }
    return Ok(Member(m.key, inner.value));
  }

  /** The object is copied and the copy's values are overwritten key by key. */
  method TransformObject(x: Setup, w: Walk, members: seq<Member>, path: seq<nat>) returns (r: Result<seq<Member>>)
    ensures r == TransformMembers(x, w, members, path)
    decreases members, 0
  {
    var result := members;
    for i := 0 to |members|
      invariant |result| == |members| && forall k :: i <= k < |members| ==> result[k] == members[k]
      invariant TransformMembers(x, w, members[..i], path) == Ok(result[..i])
    {
      assert members[..i + 1][..i] == members[..i];
      ghost var done := result[..i];
      var member := TransformValue(x, w, result[i], path + [i]);
      if member.Err? {
        MembersStop(x, w, members, path, i + 1);
        return Err(member.error);
      }
      result := result[i := member.value];
      assert result[..i + 1] == done + [result[i]];
    }
    assert members[..|members|] == members && result[..|members|] == result;
    return Ok(result);
  }

  /** The two walks as the source runs them, with one loop for arrays and one for objects. */
  method TransformSensitiveFields(x: Setup, w: Walk, data: Data, path: seq<nat>) returns (r: Result<Data>)
    ensures r == Transform(x, w, data, path)
    decreases data, 1
  {
    match data
    case Arr(items) =>
      var mapped := TransformArray(x, w, items, path);
      return if mapped.Ok? then Ok(Arr(mapped.value)) else Err(mapped.error);
    case Obj(members) =>
      var result := TransformObject(x, w, members, path);
      return if result.Ok? then Ok(Obj(result.value)) else Err(result.error);
    case _ => return Ok(data);
  }
}
