/**
 JSON number tokens, section 6 of RFC 8259. A number is kept as its token: the
 conversion between tokens and IEEE doubles is not part of this model.
 */
module JsonNumbers {
  import opened Text
  import opened Decimals
  import opened JsonStrings

  function SignLength(s: Text): (n: nat)
    ensures n <= |s|
  {
    if s != [] && s[0] == MINUS then 1 else 0
  }

  /** `0`, or a digit run without a leading zero. */
  function IntLength(s: Text): (n: nat)
    ensures n <= |s|
  {
    if s != [] && s[0] == DIGIT_ZERO then 1 else DigitRun(s)
  }

  /** `.` and at least one digit, or nothing. */
  function FractionLength(s: Text): (n: nat)
    ensures n <= |s|
  {
    if s != [] && s[0] == DOT && DigitRun(s[1..]) > 0 then 1 + DigitRun(s[1..]) else 0
  }

  predicate IsExponentMark(u: CodeUnit) {
    u == 101 || u == 69
  }

  function ExponentSignLength(s: Text): (n: nat)
    ensures n <= |s|
  {
    if s != [] && (s[0] == PLUS || s[0] == MINUS) then 1 else 0
  }

  /** `e` or `E`, an optional sign and at least one digit, or nothing. */
  function ExponentLength(s: Text): (n: nat)
    ensures n <= |s|
  {
    if s != [] && IsExponentMark(s[0]) then
      var k := 1 + ExponentSignLength(s[1..]);
      if DigitRun(s[k..]) > 0 then k + DigitRun(s[k..]) else 0
    else 0
  }

  /** Fraction and exponent. */
  function TailLength(s: Text): (n: nat)
    ensures n <= |s|
  {
    var c := FractionLength(s);
    c + ExponentLength(s[c..])
  }

  function UnsignedLength(s: Text): (n: nat)
    ensures n <= |s|
  {
    var b := IntLength(s);
    if b == 0 then 0 else b + TailLength(s[b..])
  }

  /** The length of the number token a text starts with; 0 when it starts with none. */
  function NumberLength(s: Text): (n: nat)
    ensures n <= |s|
  {
    var a := SignLength(s);
    var b := UnsignedLength(s[a..]);
    if b == 0 then 0 else a + b
  }

  function ReadNumber(s: Text): (p: Parsed<Text>)
    ensures p.Done? ==> |p.rest| < |s|
  {
    var n := NumberLength(s);
    if n == 0 then Fail else Done(s[..n], s[n..])
  }

  predicate ValidNumber(t: Text) {
    t != [] && NumberLength(t) == |t|
  }

  /** Units that could continue a number token. */
  predicate IsNumberUnit(u: CodeUnit) {
    IsDigit(u) || u == DOT || u == PLUS || u == MINUS || IsExponentMark(u)
  }

  predicate EndsNumber(rest: Text) {
    rest == [] || !IsNumberUnit(rest[0])
  }

  lemma {:induction false} DigitRunExtend(t: Text, rest: Text)
    requires EndsNumber(rest)
    ensures DigitRun(t + rest) == DigitRun(t)
  {
    if t == [] {
      assert t + rest == rest;
    } else {
      assert (t + rest)[1..] == t[1..] + rest;
      DigitRunExtend(t[1..], rest);
    }
  }

  lemma {:induction false} IntLengthExtend(t: Text, rest: Text)
    requires EndsNumber(rest)
    ensures IntLength(t + rest) == IntLength(t)
  {
    DigitRunExtend(t, rest);
    assert t == [] ==> t + rest == rest;
  }

  lemma {:induction false} FractionLengthExtend(t: Text, rest: Text)
    requires EndsNumber(rest)
    ensures FractionLength(t + rest) == FractionLength(t)
  {
    if t == [] {
      assert t + rest == rest;
    } else {
      assert (t + rest)[1..] == t[1..] + rest;
      DigitRunExtend(t[1..], rest);
    }
  }

  lemma {:induction false} ExponentLengthExtend(t: Text, rest: Text)
    requires EndsNumber(rest)
    ensures ExponentLength(t + rest) == ExponentLength(t)
  {
    if t == [] {
      assert t + rest == rest;
    } else if IsExponentMark(t[0]) {
      var tail := t[1..];
      assert (t + rest)[1..] == tail + rest;
      assert tail == [] ==> tail + rest == rest;
      assert ExponentSignLength(tail + rest) == ExponentSignLength(tail);
      var k := 1 + ExponentSignLength(tail);
      assert (t + rest)[k..] == t[k..] + rest;
      DigitRunExtend(t[k..], rest);
    }
  }

  lemma {:induction false} DropAppend(t: Text, rest: Text, k: nat)
    requires k <= |t|
    ensures (t + rest)[k..] == t[k..] + rest
  {
  }

  lemma {:induction false} TailLengthExtend(t: Text, rest: Text)
    requires EndsNumber(rest)
    ensures TailLength(t + rest) == TailLength(t)
  {
    var c := FractionLength(t);
    FractionLengthExtend(t, rest);
    DropAppend(t, rest, c);
    ExponentLengthExtend(t[c..], rest);
  }

  lemma {:induction false} UnsignedLengthExtend(t: Text, rest: Text)
    requires EndsNumber(rest)
    ensures UnsignedLength(t + rest) == UnsignedLength(t)
  {
    var b := IntLength(t);
    IntLengthExtend(t, rest);
    DropAppend(t, rest, b);
    TailLengthExtend(t[b..], rest);
  }

  lemma {:induction false} NumberLengthExtend(t: Text, rest: Text)
    requires t != [] && EndsNumber(rest)
    ensures NumberLength(t + rest) == NumberLength(t)
  {
    var a := SignLength(t);
    DropAppend(t, rest, a);
    UnsignedLengthExtend(t[a..], rest);
  }

  /** The reader is greedy but stops exactly at the end of a valid token. */
  lemma {:induction false} ReadNumberExtend(t: Text, rest: Text)
    requires ValidNumber(t) && EndsNumber(rest)
    ensures ReadNumber(t + rest) == Done(t, rest)
  {
    NumberLengthExtend(t, rest);
    assert (t + rest)[..|t|] == t && (t + rest)[|t|..] == rest;
  }

  /** A token starts with a digit or a minus sign, so no other kind of value can be mistaken for it. */
  lemma {:induction false} NumberStart(t: Text)
    requires NumberLength(t) > 0
    ensures IsDigit(t[0]) || t[0] == MINUS
  {
  }

  lemma {:induction false} DigitRunTake(s: Text, n: nat)
    requires DigitRun(s) <= n <= |s|
    ensures DigitRun(s[..n]) == DigitRun(s)
  {
    if s != [] && IsDigit(s[0]) {
      assert s[..n][1..] == s[1..][..n - 1];
      DigitRunTake(s[1..], n - 1);
    }
  }

  lemma {:induction false} IntTake(s: Text, n: nat)
    requires 0 < IntLength(s) <= n <= |s|
    ensures IntLength(s[..n]) == IntLength(s)
  {
    if s[0] != DIGIT_ZERO {
      DigitRunTake(s, n);
    }
  }

  lemma {:induction false} ExponentTake(s: Text)
    ensures ExponentLength(s[..ExponentLength(s)]) == ExponentLength(s)
  {
    var n := ExponentLength(s);
    if n > 0 {
      var t := s[..n];
      assert t[1..] == s[1..][..n - 1];
      var k := 1 + ExponentSignLength(s[1..]);
      assert ExponentSignLength(t[1..]) == ExponentSignLength(s[1..]);
      assert t[k..] == s[k..][..n - k];
      DigitRunTake(s[k..], n - k);
    }
  }

  lemma {:induction false} TailTake(s: Text)
    ensures TailLength(s[..TailLength(s)]) == TailLength(s)
  {
    var n, c := TailLength(s), FractionLength(s);
    if n > 0 {
      assert s[..n][1..] == s[1..][..n - 1];
      if c > 0 {
        DigitRunTake(s[1..], n - 1);
      } else {
        assert s[0..] == s;
      }
      assert FractionLength(s[..n]) == c;
      assert s[..n][c..] == s[c..][..n - c];
      ExponentTake(s[c..]);
    }
  }

  lemma {:induction false} UnsignedTake(s: Text)
    ensures UnsignedLength(s[..UnsignedLength(s)]) == UnsignedLength(s)
  {
    var n, b := UnsignedLength(s), IntLength(s);
    if b > 0 {
      IntTake(s, n);
      assert s[..n][b..] == s[b..][..n - b];
      TailTake(s[b..]);
    }
  }

  /** What the reader returns is itself a valid token. */
  lemma {:induction false} ReadNumberValid(s: Text)
    requires NumberLength(s) > 0
    ensures ValidNumber(s[..NumberLength(s)])
  {
    var n, a := NumberLength(s), SignLength(s);
    assert s[..n][a..] == s[a..][..n - a];
    UnsignedTake(s[a..]);
  }
}
