/**
 JSON strings: the quoting of `JSON.stringify` (well-formed variant: lone
 surrogates are escaped) and the reader of section 7 of RFC 8259.
 */
module JsonStrings {
  import opened Text

  /** What a reader makes of a text: a value and the rest of the text, or failure. */
  datatype Parsed<+T> = Fail | Done(value: T, rest: Text)

  const LOWER_U: CodeUnit := 117

  predicate IsHighSurrogate(u: CodeUnit) {
    0xD800 <= u <= 0xDBFF
  }

  predicate IsLowSurrogate(u: CodeUnit) {
    0xDC00 <= u <= 0xDFFF
  }

  // ---------- writing ----------

  function HexDigit(n: nat): CodeUnit
    requires n < 16
  {
    if n < 10 then 48 + n else 97 + (n - 10)
  }

  function Hex4(u: CodeUnit): Text {
    [HexDigit(u / 4096), HexDigit(u / 256 % 16), HexDigit(u / 16 % 16), HexDigit(u % 16)]
  }

  function EscapeUnit(u: CodeUnit): Text {
    if u == 8 then [BACKSLASH, 98]
    else if u == 9 then [BACKSLASH, 116]
    else if u == 10 then [BACKSLASH, 110]
    else if u == 12 then [BACKSLASH, 102]
    else if u == 13 then [BACKSLASH, 114]
    else if u == QUOTE || u == BACKSLASH then [BACKSLASH, u]
    else if u < 0x20 || IsHighSurrogate(u) || IsLowSurrogate(u) then [BACKSLASH, LOWER_U] + Hex4(u)
    else [u]
  }

  predicate StartsWithPair(t: Text) {
    |t| >= 2 && IsHighSurrogate(t[0]) && IsLowSurrogate(t[1])
  }

  /** The inside of a quoted string. */
  function EscapeBody(t: Text): Text {
    if t == [] then []
    else if StartsWithPair(t) then [t[0], t[1]] + EscapeBody(t[2..])
    else EscapeUnit(t[0]) + EscapeBody(t[1..])
  }

  function Quote(t: Text): Text {
    [QUOTE] + EscapeBody(t) + [QUOTE]
  }

  // ---------- reading ----------

  predicate IsHexDigit(u: CodeUnit) {
    48 <= u <= 57 || 97 <= u <= 102 || 65 <= u <= 70
  }

  function HexValue(u: CodeUnit): (n: nat)
    requires IsHexDigit(u)
    ensures n < 16
  {
    if u <= 57 then u - 48 else if u >= 97 then u - 87 else u - 55
  }

  /** The code unit four hex digits denote. */
  function HexUnit(a: CodeUnit, b: CodeUnit, c: CodeUnit, d: CodeUnit): CodeUnit
    requires IsHexDigit(a) && IsHexDigit(b) && IsHexDigit(c) && IsHexDigit(d)
  {
    4096 * HexValue(a) + 256 * HexValue(b) + 16 * HexValue(c) + HexValue(d)
  }

  /** One escape sequence, the backslash already consumed. */
  function ReadEscape(s: Text): (p: Parsed<CodeUnit>)
    ensures p.Done? ==> |p.rest| < |s|
  {
    if s == [] then Fail
    else if s[0] == QUOTE || s[0] == BACKSLASH || s[0] == 47 then Done(s[0], s[1..])
    else if s[0] == 98 then Done(8, s[1..])
    else if s[0] == 116 then Done(9, s[1..])
    else if s[0] == 110 then Done(10, s[1..])
    else if s[0] == 102 then Done(12, s[1..])
    else if s[0] == 114 then Done(13, s[1..])
    else if s[0] == LOWER_U && |s| >= 5 && (forall i :: 1 <= i < 5 ==> IsHexDigit(s[i])) then
      Done(HexUnit(s[1], s[2], s[3], s[4]), s[5..])
    else Fail
  }

  /** The inside of a string and its closing quote, the opening quote already consumed. */
  function ReadBody(s: Text): (p: Parsed<Text>)
    ensures p.Done? ==> |p.rest| < |s|
  {
    if s == [] || s[0] < 0x20 then Fail
    else if s[0] == QUOTE then Done([], s[1..])
    else if s[0] == BACKSLASH then
      match ReadEscape(s[1..])
      case Fail => Fail
      case Done(u, rest) => Prefix([u], ReadBody(rest))
    else Prefix([s[0]], ReadBody(s[1..]))
  }

  function Prefix(t: Text, p: Parsed<Text>): Parsed<Text> {
    if p.Done? then Done(t + p.value, p.rest) else Fail
  }

  function ReadString(s: Text): (p: Parsed<Text>)
    ensures p.Done? ==> |p.rest| < |s|
  {
    if s != [] && s[0] == QUOTE then ReadBody(s[1..]) else Fail
  }

  /**
   The escapes of `JSON.stringify`, unit by unit: `\b`, `\t`, `\n`, `\f`, `\r`,
   `\"` and `\\`; four lower-case hex digits for other controls and for lone
   surrogates; anything else stands for itself.
   */
  lemma {:induction false} EscapesExactly(u: CodeUnit)
    ensures u == 8 ==> EscapeUnit(u) == [92, 98]
    ensures u == 9 ==> EscapeUnit(u) == [92, 116]
    ensures u == 10 ==> EscapeUnit(u) == [92, 110]
    ensures u == 12 ==> EscapeUnit(u) == [92, 102]
    ensures u == 13 ==> EscapeUnit(u) == [92, 114]
    ensures u == 34 || u == 92 ==> EscapeUnit(u) == [92, u]
    ensures u < 32 && u !in {8, 9, 10, 12, 13} ==>
              EscapeUnit(u) == [92, 117, 48, 48, 48 + u / 16, if u % 16 < 10 then 48 + u % 16 else 87 + u % 16]
    ensures 0xD800 <= u <= 0xDFFF ==> |EscapeUnit(u)| == 6 && EscapeUnit(u)[..3] == [92, 117, 100]
    ensures EscapeUnit(u) == [u] <==> u >= 32 && u != 34 && u != 92 && !(0xD800 <= u <= 0xDFFF)
  {
  }

  // ---------- round trip ----------

  lemma {:induction false} HexRoundTrip(n: nat)
    requires n < 16
    ensures IsHexDigit(HexDigit(n)) && HexValue(HexDigit(n)) == n
  {
  }

  lemma {:induction false} HexDigitsSum(u: nat)
    requires u < 0x1_0000
    ensures 4096 * (u / 4096) + 256 * (u / 256 % 16) + 16 * (u / 16 % 16) + u % 16 == u
  {
    var a, b := u / 16, u / 256;
    assert u == 16 * a + u % 16;
    assert b == a / 16 && a == 16 * b + a % 16;
    assert u / 4096 == b / 16 && b == 16 * (b / 16) + b % 16;
  }

  lemma {:induction false} ReadHex4(u: CodeUnit, rest: Text)
    ensures ReadEscape([LOWER_U] + Hex4(u) + rest) == Done(u, rest)
  {
    var s := [LOWER_U] + Hex4(u) + rest;
    HexRoundTrip(u / 4096);
    HexRoundTrip(u / 256 % 16);
    HexRoundTrip(u / 16 % 16);
    HexRoundTrip(u % 16);
    HexDigitsSum(u);
    assert s[0] == LOWER_U;
    assert s[1] == HexDigit(u / 4096) && s[2] == HexDigit(u / 256 % 16);
    assert s[3] == HexDigit(u / 16 % 16) && s[4] == HexDigit(u % 16);
    assert s[5..] == rest;
  }

  lemma {:induction false} ReadRawUnit(u: CodeUnit, tail: Text)
    requires u >= 0x20 && u != QUOTE && u != BACKSLASH
    ensures ReadBody([u] + tail) == Prefix([u], ReadBody(tail))
  {
    assert ([u] + tail)[1..] == tail;
  }

  lemma {:induction false} ReadEscaped(e: Text, u: CodeUnit, tail: Text)
    requires ReadEscape(e + tail) == Done(u, tail)
    ensures ReadBody([BACKSLASH] + e + tail) == Prefix([u], ReadBody(tail))
  {
    assert ([BACKSLASH] + e + tail)[1..] == e + tail;
  }

  lemma {:induction false} ReadLetter(letter: CodeUnit, u: CodeUnit, tail: Text)
    requires ReadEscape([letter]) == Done(u, []) && letter != LOWER_U
    ensures ReadEscape([letter] + tail) == Done(u, tail)
  {
    assert ([letter] + tail)[1..] == tail;
  }

  lemma {:induction false} EscapeForms(u: CodeUnit, e: Text)
    requires e == EscapeUnit(u)
    ensures |e| == 1 ==> e == [u] && u >= 0x20 && u != QUOTE && u != BACKSLASH
    ensures |e| == 2 ==> e == [BACKSLASH] + [e[1]] && ReadEscape([e[1]]) == Done(u, []) && e[1] != LOWER_U
    ensures |e| > 2 ==> e == [BACKSLASH] + ([LOWER_U] + Hex4(u))
  {
  }

  lemma {:induction false} ReadEscapedUnit(u: CodeUnit, tail: Text)
    ensures ReadBody(EscapeUnit(u) + tail) == Prefix([u], ReadBody(tail))
  {
    var e := EscapeUnit(u);
    EscapeForms(u, e);
    if |e| == 1 {
      ReadRawUnit(u, tail);
    } else if |e| == 2 {
      ReadLetter(e[1], u, tail);
      ReadEscaped([e[1]], u, tail);
    } else {
      ReadHex4(u, tail);
      ReadEscaped([LOWER_U] + Hex4(u), u, tail);
    }
  }

  lemma {:induction false} ReadRawPair(u: CodeUnit, w: CodeUnit, tail: Text)
    requires IsHighSurrogate(u) && IsLowSurrogate(w)
    ensures ReadBody([u, w] + tail) == Prefix([u, w], ReadBody(tail))
  {
    assert [u, w] + tail == [u] + ([w] + tail);
    ReadRawUnit(u, [w] + tail);
    ReadRawUnit(w, tail);
    if ReadBody(tail).Done? {
      assert [u] + ([w] + ReadBody(tail).value) == [u, w] + ReadBody(tail).value;
    }
  }

  /** The first step of `EscapeBody`, with whatever follows it. */
  lemma {:induction false} EscapeBodySplit(t: Text, rest: Text)
    requires t != []
    ensures StartsWithPair(t) ==> EscapeBody(t) + rest == [t[0], t[1]] + (EscapeBody(t[2..]) + rest)
    ensures !StartsWithPair(t) ==> EscapeBody(t) + rest == EscapeUnit(t[0]) + (EscapeBody(t[1..]) + rest)
  {
    if StartsWithPair(t) {
      Associates([t[0], t[1]], EscapeBody(t[2..]), rest);
    } else {
      Associates(EscapeUnit(t[0]), EscapeBody(t[1..]), rest);
    }
  }

  lemma {:induction false} Associates(a: Text, b: Text, c: Text)
    ensures (a + b) + c == a + (b + c)
  {
  }

  /** Reading undoes quoting, for every sequence of code units, paired or not. */
  lemma {:induction false} ReadEscapeBody(t: Text, rest: Text)
    ensures ReadBody(EscapeBody(t) + ([QUOTE] + rest)) == Done(t, rest)
  {
    if t == [] {
      assert EscapeBody(t) + ([QUOTE] + rest) == [QUOTE] + rest;
      assert ([QUOTE] + rest)[1..] == rest;
    } else {
      var k := if StartsWithPair(t) then 2 else 1;
      ReadEscapeBody(t[k..], rest);
      EscapeBodySplit(t, [QUOTE] + rest);
      var tail := EscapeBody(t[k..]) + ([QUOTE] + rest);
      if k == 2 {
        ReadRawPair(t[0], t[1], tail);
        assert t == [t[0], t[1]] + t[k..];
      } else {
        ReadEscapedUnit(t[0], tail);
        assert t == [t[0]] + t[k..];
      }
    }
  }

  lemma {:induction false} ReadQuote(t: Text, rest: Text)
    ensures ReadString(Quote(t) + rest) == Done(t, rest)
  {
    ReadEscapeBody(t, rest);
    Associates([QUOTE] + EscapeBody(t), [QUOTE], rest);
    Associates([QUOTE], EscapeBody(t), [QUOTE] + rest);
    assert (Quote(t) + rest)[1..] == EscapeBody(t) + ([QUOTE] + rest);
  }
}
