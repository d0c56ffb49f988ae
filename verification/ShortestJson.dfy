/**
 The canonical text is the shortest there is: no text without lone surrogates
 that means the same is shorter. So nothing is printed but what has to be, no
 white space and no longer escape than needed.
 */
module ShortestJson {
  import opened Options
  import opened Text
  import opened Decimals
  import opened JsonStrings
  import opened JsonNumbers
  import opened Json
  import opened CanonicalJson

  predicate IsSurrogate(u: CodeUnit) {
    IsHighSurrogate(u) || IsLowSurrogate(u)
  }

  /** Well-formed UTF-16: surrogates come in pairs, high before low. */
  predicate Paired(s: Text) {
    if s == [] then true
    else if StartsWithPair(s) then Paired(s[2..])
    else !IsSurrogate(s[0]) && Paired(s[1..])
  }

  lemma {:induction false} PairedDrop(s: Text, k: nat)
    requires Paired(s) && k <= |s|
    requires forall i :: 0 <= i < k ==> !IsSurrogate(s[i])
    ensures Paired(s[k..])
  {
    if k == 0 {
      assert s[0..] == s;
    } else {
      PairedDrop(s[1..], k - 1);
      assert s[1..][k - 1..] == s[k..];
    }
  }

  lemma {:induction false} PairedConcat(s: Text, t: Text)
    requires Paired(s) && Paired(t)
    ensures Paired(s + t)
  {
    if s == [] {
      assert s + t == t;
    } else {
      var k := if StartsWithPair(s) then 2 else 1;
      PairedConcat(s[k..], t);
      assert (s + t)[k..] == s[k..] + t;
    }
  }

  lemma {:induction false} PairedPlain(s: Text)
    requires forall i :: 0 <= i < |s| ==> !IsSurrogate(s[i])
    ensures Paired(s)
  {
    if s != [] {
      PairedPlain(s[1..]);
    }
  }

  // ---------- strings ----------

  /** Escapes use the letters `b`, `t`, `n`, `f`, `r`, `u` and lower-case hex digits, and hide every surrogate. */
  lemma {:induction false} EscapeUnits(u: CodeUnit)
    ensures forall i :: 1 <= i < |EscapeUnit(u)| ==> !(65 <= EscapeUnit(u)[i] <= 90)
    ensures forall i :: 0 <= i < |EscapeUnit(u)| ==> !IsSurrogate(EscapeUnit(u)[i])
  {
  }

  /** A unit in front of a body adds at most its own escape. */
  lemma {:induction false} EscapeCons(u: CodeUnit, t: Text)
    ensures |EscapeBody([u] + t)| <= |EscapeUnit(u)| + |EscapeBody(t)|
  {
    assert ([u] + t)[1..] == t;
    if StartsWithPair([u] + t) {
      assert ([u] + t)[2..] == t[1..];
    }
  }

  lemma {:induction false} EscapePair(u: CodeUnit, w: CodeUnit, t: Text)
    requires IsHighSurrogate(u) && IsLowSurrogate(w)
    ensures |EscapeBody([u, w] + t)| == 2 + |EscapeBody(t)|
  {
    assert ([u, w] + t)[2..] == t;
  }

  lemma {:induction false} ReadEscapeShort(s: Text)
    requires Paired(s) && ReadEscape(s).Done?
    ensures Paired(ReadEscape(s).rest)
    ensures |EscapeUnit(ReadEscape(s).value)| <= 1 + |s| - |ReadEscape(s).rest|
  {
    var k := |s| - |ReadEscape(s).rest|;
    PairedDrop(s, k);
  }

  /** No well-formed text that reads as a string is shorter than its quoted form. */
  lemma {:induction false} ReadBodyShort(s: Text)
    requires Paired(s) && ReadBody(s).Done?
    ensures Paired(ReadBody(s).rest)
    ensures |EscapeBody(ReadBody(s).value)| + 1 <= |s| - |ReadBody(s).rest|
    decreases |s|, 1
  {
    if s[0] == BACKSLASH {
      assert !IsSurrogate(s[0]);
      ReadEscapeShort(s[1..]);
      var e := ReadEscape(s[1..]);
      ReadBodyShort(e.rest);
      EscapeCons(e.value, ReadBody(e.rest).value);
    } else if s[0] != QUOTE && StartsWithPair(s) {
      ReadPairShort(s);
    } else if s[0] != QUOTE {
      ReadBodyShort(s[1..]);
      EscapeCons(s[0], ReadBody(s[1..]).value);
    }
  }

  lemma {:induction false} ReadPairShort(s: Text)
    requires Paired(s) && StartsWithPair(s) && ReadBody(s).Done?
    ensures Paired(ReadBody(s).rest)
    ensures |EscapeBody(ReadBody(s).value)| + 1 <= |s| - |ReadBody(s).rest|
    decreases |s|, 0
  {
    ReadRawPair(s[0], s[1], s[2..]);
    assert s == [s[0], s[1]] + s[2..];
    ReadBodyShort(s[2..]);
    EscapePair(s[0], s[1], ReadBody(s[2..]).value);
  }

  lemma {:induction false} ReadStringShort(s: Text)
    requires Paired(s) && ReadString(s).Done?
    ensures Paired(ReadString(s).rest)
    ensures |Quote(ReadString(s).value)| <= |s| - |ReadString(s).rest|
  {
    ReadBodyShort(s[1..]);
  }

  lemma {:induction false} EscapeBodyPaired(t: Text)
    ensures Paired(EscapeBody(t))
  {
    if t != [] {
      if StartsWithPair(t) {
        EscapeBodyPaired(t[2..]);
        assert ([t[0], t[1]] + EscapeBody(t[2..]))[2..] == EscapeBody(t[2..]);
      } else {
        EscapeBodyPaired(t[1..]);
        EscapeUnits(t[0]);
        PairedPlain(EscapeUnit(t[0]));
        PairedConcat(EscapeUnit(t[0]), EscapeBody(t[1..]));
      }
    }
  }

  lemma {:induction false} QuotePaired(t: Text)
    ensures Paired(Quote(t))
  {
    EscapeBodyPaired(t);
    PairedPlain([QUOTE]);
    PairedConcat([QUOTE], EscapeBody(t));
    PairedConcat([QUOTE] + EscapeBody(t), [QUOTE]);
  }

  // ---------- numbers ----------

  predicate Bare(s: Text) {
    forall i :: 0 <= i < |s| ==> !IsSurrogate(s[i])
  }

  lemma {:induction false} BareJoin(s: Text, a: nat, b: nat)
    requires a + b <= |s| && Bare(s[..a]) && Bare(s[a..][..b])
    ensures Bare(s[..a + b])
  {
    assert s[..a + b] == s[..a] + s[a..][..b];
  }

  lemma {:induction false} DigitsBare(t: Text)
    requires AllDigits(t)
    ensures Bare(t)
  {
  }

  lemma {:induction false} FractionBare(s: Text)
    ensures Bare(s[..FractionLength(s)])
  {
    if FractionLength(s) > 0 {
      DigitsBare(s[1..][..DigitRun(s[1..])]);
      BareJoin(s, 1, DigitRun(s[1..]));
    }
  }

  lemma {:induction false} ExponentBare(s: Text)
    ensures Bare(s[..ExponentLength(s)])
  {
    if ExponentLength(s) > 0 {
      var k := ExponentSignLength(s[1..]);
      BareJoin(s, 1, k);
      DigitsBare(s[1 + k..][..DigitRun(s[1 + k..])]);
      BareJoin(s, 1 + k, DigitRun(s[1 + k..]));
    }
  }

  lemma {:induction false} TailBare(s: Text)
    ensures Bare(s[..TailLength(s)])
  {
    var c := FractionLength(s);
    FractionBare(s);
    ExponentBare(s[c..]);
    BareJoin(s, c, ExponentLength(s[c..]));
  }

  lemma {:induction false} IntBare(s: Text)
    ensures Bare(s[..IntLength(s)])
  {
    DigitsBare(s[..DigitRun(s)]);
  }

  lemma {:induction false} UnsignedBare(s: Text)
    ensures Bare(s[..UnsignedLength(s)])
  {
    var b := IntLength(s);
    IntBare(s);
    TailBare(s[b..]);
    BareJoin(s, b, TailLength(s[b..]));
  }

  lemma {:induction false} NumberBare(s: Text)
    ensures Bare(s[..NumberLength(s)])
  {
    var a := SignLength(s);
    UnsignedBare(s[a..]);
    BareJoin(s, a, UnsignedLength(s[a..]));
  }

  // ---------- values ----------

  lemma {:induction false} SkipSpacePaired(s: Text)
    requires Paired(s)
    ensures Paired(SkipSpace(s))
  {
    if s != [] && IsSpace(s[0]) {
      SkipSpacePaired(s[1..]);
    }
  }

  lemma {:induction false} ExpectPaired(u: CodeUnit, s: Text)
    requires Paired(s) && Expect(u, s).Done? && !IsSurrogate(u)
    ensures Paired(Expect(u, s).rest)
  {
    SkipSpacePaired(s);
  }

  lemma {:induction false} ReadScalarShort(t: Text)
    requires Paired(t) && ReadScalar(t).Done?
    ensures Paired(ReadScalar(t).rest)
    ensures |Print(ReadScalar(t).value)| <= |t| - |ReadScalar(t).rest|
  {
    if NULL_WORD <= t || TRUE_WORD <= t {
      PairedDrop(t, 4);
    } else if FALSE_WORD <= t {
      PairedDrop(t, 5);
    } else {
      var n := NumberLength(t);
      NumberBare(t);
      assert forall i :: 0 <= i < n ==> t[..n][i] == t[i];
      PairedDrop(t, n);
    }
  }

  /** The length of printed members, a separator or brace after each. */
  function Weight(ms: seq<Member>): nat {
    if ms == [] then 0 else |PrintMember(ms[0])| + 1 + Weight(ms[1..])
  }

  lemma {:induction false} WeightOfPrinted(ms: seq<Member>)
    requires ms != []
    ensures |PrintMembers(ms)| + 1 == Weight(ms)
  {
    if |ms| > 1 {
      WeightOfPrinted(ms[1..]);
    }
  }

  lemma {:induction false} PutWeight(ms: seq<Member>, key: Text, value: Value)
    ensures Put(ms, key, value) != []
    ensures Weight(Put(ms, key, value)) <= Weight(ms) + |PrintMember(Member(key, value))| + 1
  {
    if ms != [] {
      if ms[0].key == key {
        assert ([Member(key, value)] + ms[1..])[1..] == ms[1..];
      } else {
        PutWeight(ms[1..], key, value);
        assert ([ms[0]] + Put(ms[1..], key, value))[1..] == Put(ms[1..], key, value);
      }
    }
  }

  /** Whatever is read prints in no more units than were read. */
  lemma {:induction false} ReadShort(s: Text)
    requires Paired(s) && ReadValue(s).Done?
    ensures Paired(ReadValue(s).rest)
    ensures |Print(ReadValue(s).value)| <= |s| - |ReadValue(s).rest|
    decreases |s|, 0
  {
    var t := SkipSpace(s);
    SkipSpacePaired(s);
    if t[0] == QUOTE {
      ReadStringShort(t);
    } else if t[0] == OPEN_BRACKET {
      ReadArrayShort(t[1..]);
    } else if t[0] == OPEN_BRACE {
      ReadObjectShort(t[1..]);
    } else {
      ReadScalarShort(t);
    }
  }

  lemma {:induction false} ReadArrayShort(s: Text)
    requires Paired(s)
    ensures Expect(CLOSE_BRACKET, s).Done? ==> Paired(Expect(CLOSE_BRACKET, s).rest)
    ensures Expect(CLOSE_BRACKET, s).Fail? && ReadItems(s).Done? ==>
              Paired(ReadItems(s).rest) && |PrintItems(ReadItems(s).value)| + 1 <= |s| - |ReadItems(s).rest|
    decreases |s|, 2
  {
    if Expect(CLOSE_BRACKET, s).Done? {
      ExpectPaired(CLOSE_BRACKET, s);
    } else if ReadItems(s).Done? {
      ReadItemsShort(s);
    }
  }

  lemma {:induction false} ReadObjectShort(s: Text)
    requires Paired(s)
    ensures Expect(CLOSE_BRACE, s).Done? ==> Paired(Expect(CLOSE_BRACE, s).rest)
    ensures Expect(CLOSE_BRACE, s).Fail? && ReadMembers(s, []).Done? ==>
              Paired(ReadMembers(s, []).rest) &&
              |PrintMembers(ReadMembers(s, []).value)| + 1 <= |s| - |ReadMembers(s, []).rest|
    decreases |s|, 2
  {
    if Expect(CLOSE_BRACE, s).Done? {
      ExpectPaired(CLOSE_BRACE, s);
    } else if ReadMembers(s, []).Done? {
      ReadMembersShort(s, []);
      WeightOfPrinted(ReadMembers(s, []).value);
    }
  }

  lemma {:induction false} ReadItemsShort(s: Text)
    requires Paired(s) && ReadItems(s).Done?
    ensures Paired(ReadItems(s).rest)
    ensures |PrintItems(ReadItems(s).value)| + 1 <= |s| - |ReadItems(s).rest|
    decreases |s|, 1
  {
    ReadShort(s);
    var v, rest := ReadValue(s).value, ReadValue(s).rest;
    if Expect(CLOSE_BRACKET, rest).Done? {
      ExpectPaired(CLOSE_BRACKET, rest);
    } else {
      ExpectPaired(COMMA, rest);
      var after := Expect(COMMA, rest).rest;
      ReadItemsShort(after);
      PrintItemsCons(v, ReadItems(after).value);
    }
  }

  lemma {:induction false} PrintItemsCons(v: Value, vs: seq<Value>)
    ensures |PrintItems([v] + vs)| <= |Print(v)| + 1 + |PrintItems(vs)|
  {
    assert ([v] + vs)[1..] == vs;
  }

  lemma {:induction false} ReadMemberShort(s: Text)
    requires Paired(s) && ReadMember(s).Done?
    ensures Paired(ReadMember(s).rest)
    ensures |PrintMember(ReadMember(s).value)| <= |s| - |ReadMember(s).rest|
    decreases |s|, 0
  {
    var t := SkipSpace(s);
    SkipSpacePaired(s);
    ReadStringShort(t);
    var rest := ReadString(t).rest;
    ExpectPaired(COLON, rest);
    ReadShort(Expect(COLON, rest).rest);
  }

  lemma {:induction false} ReadMembersShort(s: Text, before: seq<Member>)
    requires Paired(s) && ReadMembers(s, before).Done?
    ensures Paired(ReadMembers(s, before).rest)
    ensures ReadMembers(s, before).value != []
    ensures Weight(ReadMembers(s, before).value) <= Weight(before) + |s| - |ReadMembers(s, before).rest|
    decreases |s|, 1
  {
    ReadMemberShort(s);
    var m, rest := ReadMember(s).value, ReadMember(s).rest;
    PutWeight(before, m.key, m.value);
    if Expect(CLOSE_BRACE, rest).Done? {
      ExpectPaired(CLOSE_BRACE, rest);
    } else {
      ExpectPaired(COMMA, rest);
      ReadMembersShort(Expect(COMMA, rest).rest, Put(before, m.key, m.value));
    }
  }

  // ---------- sorting keeps the length ----------

  lemma {:induction false} InsertWeight(m: Member, ms: seq<Member>)
    ensures InsertByKey(m, ms) != []
    ensures Weight(InsertByKey(m, ms)) == |PrintMember(m)| + 1 + Weight(ms)
  {
    if ms == [] || !Before(ms[0].key, m.key) {
      assert ([m] + ms)[1..] == ms;
    } else {
      InsertWeight(m, ms[1..]);
      assert ([ms[0]] + InsertByKey(m, ms[1..]))[1..] == InsertByKey(m, ms[1..]);
    }
  }

  lemma {:induction false} NormalizeLength(v: Value)
    requires Plain(v)
    ensures |Print(Normalize(v))| == |Print(v)|
    decreases v, 1
  {
    match v
    case Arr(items) => NormalizeItemsLength(items);
    case Obj(ms) =>
      NormalizeMembersWeight(ms);
      if ms != [] {
        WeightOfPrinted(ms);
        WeightOfPrinted(NormalizeMembers(ms));
      }
    case _ =>
  }

  lemma {:induction false} NormalizeItemsLength(items: seq<Value>)
    requires PlainItems(items)
    ensures |PrintItems(NormalizeItems(items))| == |PrintItems(items)|
    decreases items, 0
  {
    if items != [] {
      NormalizeLength(items[0]);
      NormalizeItemsLength(items[1..]);
      assert NormalizeItems(items)[1..] == NormalizeItems(items[1..]);
    }
  }

  lemma {:induction false} NormalizeMembersWeight(ms: seq<Member>)
    requires PlainMembers(ms)
    ensures Weight(NormalizeMembers(ms)) == Weight(ms)
    ensures ms != [] ==> NormalizeMembers(ms) != []
    decreases ms, 0
  {
    if ms != [] {
      NormalizeLength(ms[0].value);
      NormalizeMembersWeight(ms[1..]);
      InsertWeight(Member(ms[0].key, Normalize(ms[0].value)), NormalizeMembers(ms[1..]));
    }
  }

  // ---------- the canonical text is itself well formed ----------

  lemma {:induction false} PrintPaired(v: Value)
    requires Plain(v)
    ensures Paired(Print(v))
    decreases v, 1
  {
    match v
    case Num(t) =>
      NumberBare(t);
      assert t[..|t|] == t;
      PairedPlain(t);
    case Str(t) => QuotePaired(t);
    case Arr(items) =>
      PrintItemsPaired(items);
      Enclosed(OPEN_BRACKET, PrintItems(items), CLOSE_BRACKET);
    case Obj(ms) =>
      PrintMembersPaired(ms);
      Enclosed(OPEN_BRACE, PrintMembers(ms), CLOSE_BRACE);
    case _ => PairedPlain(Print(v));
  }

  lemma {:induction false} Enclosed(a: CodeUnit, t: Text, b: CodeUnit)
    requires Paired(t) && !IsSurrogate(a) && !IsSurrogate(b)
    ensures Paired([a] + t + [b])
  {
    PairedPlain([a]);
    PairedPlain([b]);
    PairedConcat([a], t);
    PairedConcat([a] + t, [b]);
  }

  lemma {:induction false} Separated(s: Text, u: CodeUnit, t: Text)
    requires Paired(s) && !IsSurrogate(u) && Paired(t)
    ensures Paired(s + [u] + t)
  {
    PairedPlain([u]);
    PairedConcat(s, [u]);
    PairedConcat(s + [u], t);
  }

  lemma {:induction false} PrintItemsPaired(items: seq<Value>)
    requires PlainItems(items)
    ensures Paired(PrintItems(items))
    decreases items, 0
  {
    if items != [] {
      PrintPaired(items[0]);
      PrintItemsPaired(items[1..]);
      Separated(Print(items[0]), COMMA, PrintItems(items[1..]));
    }
  }

  lemma {:induction false} PrintMembersPaired(ms: seq<Member>)
    requires PlainMembers(ms)
    ensures Paired(PrintMembers(ms))
    decreases ms, 0
  {
    if ms != [] {
      PrintPaired(ms[0].value);
      QuotePaired(ms[0].key);
      Separated(Quote(ms[0].key), COLON, Print(ms[0].value));
      PrintMembersPaired(ms[1..]);
      Separated(PrintMember(ms[0]), COMMA, PrintMembers(ms[1..]));
    }
  }

  // ---------- main result ----------

  /** No well-formed text with the value's meaning is shorter than its canonical text, which is itself well formed. */
  lemma {:induction false} CanonicalShortest(v: Value, text: Text)
    requires WellFormed(v) && IsJsonValue(v)
    requires Paired(text) && Parse(text).Some? && SameJson(Parse(text).value, v)
    ensures Paired(Serialize(v)) && |Serialize(v)| <= |text|
  {
    var w := Parse(text).value;
    ParsePlain(text);
    PlainWellFormed(w);
    ReadShort(text);
    NormalizeLength(w);
    NormalFormDecides(w, v);
    SerializePrints(v);
    NormalizePlain(v);
    PrintPaired(Normalize(v));
  }
}
