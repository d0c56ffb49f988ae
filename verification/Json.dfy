/**
 JavaScript values as `JSON.stringify` sees them, the printer for values in a
 given key order, and a parser for RFC 8259 (sections 2 to 7) with the
 duplicate-key rule of `JSON.parse`: the last value wins.
 */
module Json {
  import opened Options
  import opened Text
  import opened Decimals
  import opened JsonStrings
  import opened JsonNumbers

  datatype Member = Member(key: Text, value: Value)

  /**
   `Num` holds the token `JSON.stringify` prints for a finite number;
   `NonFinite` is NaN or an infinity; `Dropped` is undefined, a function or a
   symbol. The members of an object are in the order of `Object.keys`.
   */
  datatype Value =
    | Null
    | Bool(flag: bool)
    | Num(token: Text)
    | NonFinite
    | Str(text: Text)
    | Arr(items: seq<Value>)
    | Obj(members: seq<Member>)
    | Dropped

  predicate DistinctKeys(ms: seq<Member>) {
    forall i, j :: 0 <= i < j < |ms| ==> ms[i].key != ms[j].key
  }

  /** What every JavaScript value satisfies: keys are distinct and number tokens are well formed. */
  predicate WellFormed(v: Value) {
    match v
    case Num(t) => ValidNumber(t)
    case Arr(items) => forall i :: 0 <= i < |items| ==> WellFormed(items[i])
    case Obj(ms) => DistinctKeys(ms) && forall i :: 0 <= i < |ms| ==> WellFormed(ms[i].value)
    case _ => true
  }

  /** The values `JSON.parse` can return. */
  predicate Plain(v: Value) {
    match v
    case Num(t) => ValidNumber(t)
    case Arr(items) => PlainItems(items)
    case Obj(ms) => DistinctKeys(ms) && PlainMembers(ms)
    case NonFinite => false
    case Dropped => false
    case _ => true
  }

  predicate PlainItems(items: seq<Value>) {
    forall i :: 0 <= i < |items| ==> Plain(items[i])
  }

  predicate PlainMembers(ms: seq<Member>) {
    forall i :: 0 <= i < |ms| ==> Plain(ms[i].value)
  }

  const NULL_WORD: Text := [110, 117, 108, 108]
  const TRUE_WORD: Text := [116, 114, 117, 101]
  const FALSE_WORD: Text := [102, 97, 108, 115, 101]

  // ---------- printing ----------

  /** Prints a value without whitespace, members in the order given, whatever JSON cannot say as null. */
  function Print(v: Value): Text
    decreases v, 1
  {
    match v
    case Null => NULL_WORD
    case Bool(b) => if b then TRUE_WORD else FALSE_WORD
    case Num(t) => t
    case Str(t) => Quote(t)
    case Arr(items) => [OPEN_BRACKET] + PrintItems(items) + [CLOSE_BRACKET]
    case Obj(ms) => [OPEN_BRACE] + PrintMembers(ms) + [CLOSE_BRACE]
    case NonFinite => NULL_WORD
    case Dropped => NULL_WORD
  }

  function PrintItems(items: seq<Value>): Text
    decreases items, 0
  {
    if items == [] then []
    else if |items| == 1 then Print(items[0])
    else Print(items[0]) + [COMMA] + PrintItems(items[1..])
  }

  function PrintMembers(ms: seq<Member>): Text
    decreases ms, 0
  {
    if ms == [] then []
    else if |ms| == 1 then PrintMember(ms[0])
    else PrintMember(ms[0]) + [COMMA] + PrintMembers(ms[1..])
  }

  function PrintMember(m: Member): Text
    decreases m, 2
  {
    Quote(m.key) + [COLON] + Print(m.value)
  }

  // ---------- parsing ----------

  predicate IsSpace(u: CodeUnit) {
    u == 32 || u == 9 || u == 10 || u == 13
  }

  function SkipSpace(s: Text): (r: Text)
    ensures |r| <= |s|
    ensures r != [] ==> !IsSpace(r[0])
  {
    if s != [] && IsSpace(s[0]) then SkipSpace(s[1..]) else s
  }

  /** Skips spaces and one given unit. */
  function Expect(u: CodeUnit, s: Text): (p: Parsed<()>)
    ensures p.Done? ==> |p.rest| < |s|
  {
    var t := SkipSpace(s);
    if t != [] && t[0] == u then Done((), t[1..]) else Fail
  }

  /** Sets a key; a key already present keeps its place and takes the new value. */
  function Put(ms: seq<Member>, key: Text, value: Value): (r: seq<Member>) {
    if ms == [] then [Member(key, value)]
    else if ms[0].key == key then [Member(key, value)] + ms[1..]
    else [ms[0]] + Put(ms[1..], key, value)
  }

  function ReadValue(s: Text): (p: Parsed<Value>)
    ensures p.Done? ==> |p.rest| < |s|
    decreases |s|, 0
  {
    var t := SkipSpace(s);
    if t == [] then Fail
    else if t[0] == QUOTE then
      match ReadString(t)
      case Fail => Fail
      case Done(x, rest) => Done(Str(x), rest)
    else if t[0] == OPEN_BRACKET then
      if Expect(CLOSE_BRACKET, t[1..]).Done? then Done(Arr([]), Expect(CLOSE_BRACKET, t[1..]).rest)
      else
        match ReadItems(t[1..])
        case Fail => Fail
        case Done(items, rest) => Done(Arr(items), rest)
    else if t[0] == OPEN_BRACE then
      if Expect(CLOSE_BRACE, t[1..]).Done? then Done(Obj([]), Expect(CLOSE_BRACE, t[1..]).rest)
      else
        match ReadMembers(t[1..], [])
        case Fail => Fail
        case Done(ms, rest) => Done(Obj(ms), rest)
    else ReadScalar(t)
  }

  function ReadScalar(t: Text): (p: Parsed<Value>)
    ensures p.Done? ==> |p.rest| < |t|
  {
    if NULL_WORD <= t then Done(Null, t[4..])
    else if TRUE_WORD <= t then Done(Bool(true), t[4..])
    else if FALSE_WORD <= t then Done(Bool(false), t[5..])
    else
      match ReadNumber(t)
      case Fail => Fail
      case Done(x, rest) => Done(Num(x), rest)
  }

  /** At least one item, up to and including the closing bracket. */
  function ReadItems(s: Text): (p: Parsed<seq<Value>>)
    ensures p.Done? ==> |p.rest| < |s|
    decreases |s|, 1
  {
    match ReadValue(s)
    case Fail => Fail
    case Done(v, rest) =>
      match Expect(CLOSE_BRACKET, rest)
      case Done(_, after) => Done([v], after)
      case Fail =>
        match Expect(COMMA, rest)
        case Fail => Fail
        case Done(_, after) =>
          match ReadItems(after)
          case Fail => Fail
          case Done(vs, last) => Done([v] + vs, last)
  }

  /** At least one member, up to and including the closing brace, added to `before`. */
  function ReadMembers(s: Text, before: seq<Member>): (p: Parsed<seq<Member>>)
    ensures p.Done? ==> |p.rest| < |s|
    decreases |s|, 1
  {
    match ReadMember(s)
    case Fail => Fail
    case Done(m, rest) =>
      var ms := Put(before, m.key, m.value);
      match Expect(CLOSE_BRACE, rest)
      case Done(_, after) => Done(ms, after)
      case Fail =>
        match Expect(COMMA, rest)
        case Fail => Fail
        case Done(_, after) => ReadMembers(after, ms)
  }

  function ReadMember(s: Text): (p: Parsed<Member>)
    ensures p.Done? ==> |p.rest| < |s|
    decreases |s|, 0
  {
    match ReadString(SkipSpace(s))
    case Fail => Fail
    case Done(key, rest) =>
      match Expect(COLON, rest)
      case Fail => Fail
      case Done(_, after) =>
        match ReadValue(after)
        case Fail => Fail
        case Done(v, last) => Done(Member(key, v), last)
  }

  /** `JSON.parse`: one value, surrounded by nothing but spaces. */
  function Parse(s: Text): Option<Value> {
    match ReadValue(s)
    case Fail => None
    case Done(v, rest) => if SkipSpace(rest) == [] then Some(v) else None
  }

  // ---------- parsing undoes printing ----------

  /** The first unit of a printed value is never a space, a comma or a closing bracket. */
  lemma {:induction false} PrintStart(v: Value)
    requires Plain(v)
    ensures Print(v) != []
    ensures !IsSpace(Print(v)[0])
    ensures Print(v)[0] != CLOSE_BRACKET && Print(v)[0] != CLOSE_BRACE
  {
    if v.Num? {
      NumberStart(v.token);
    }
  }

  lemma {:induction false} PrintMembersStart(ms: seq<Member>)
    requires ms != []
    ensures PrintMembers(ms) != [] && PrintMembers(ms)[0] == QUOTE
  {
    assert PrintMember(ms[0])[0] == QUOTE;
  }

  lemma {:induction false} ExpectHere(u: CodeUnit, rest: Text)
    requires !IsSpace(u)
    ensures Expect(u, [u] + rest) == Done((), rest)
  {
    assert ([u] + rest)[1..] == rest;
  }

  lemma {:induction false} ExpectOther(u: CodeUnit, s: Text)
    requires s != [] && s[0] != u && !IsSpace(s[0])
    ensures Expect(u, s) == Fail
  {
  }

  /** Any other first unit selects the words and numbers. */
  lemma {:induction false} ReadScalarBranch(s: Text)
    requires s != [] && !IsSpace(s[0])
    requires s[0] != QUOTE && s[0] != OPEN_BRACKET && s[0] != OPEN_BRACE
    ensures ReadValue(s) == ReadScalar(s)
  {
  }

  lemma {:induction false} ReadWord(v: Value, rest: Text)
    requires v.Null? || v.Bool?
    ensures ReadValue(Print(v) + rest) == Done(v, rest)
  {
    var s := Print(v) + rest;
    assert s[|Print(v)|..] == rest;
    assert s[0] == Print(v)[0];
    ReadScalarBranch(s);
  }

  lemma {:induction false} ReadNumberScalar(s: Text)
    requires s != [] && (IsDigit(s[0]) || s[0] == MINUS)
    requires ReadNumber(s).Done?
    ensures ReadScalar(s) == Done(Num(ReadNumber(s).value), ReadNumber(s).rest)
  {
  }

  lemma {:induction false} ReadPrintedNumber(t: Text, rest: Text)
    requires ValidNumber(t) && EndsNumber(rest)
    ensures ReadValue(t + rest) == Done(Num(t), rest)
  {
    NumberStart(t);
    assert (t + rest)[0] == t[0];
    ReadScalarBranch(t + rest);
    ReadNumberExtend(t, rest);
    ReadNumberScalar(t + rest);
  }

  lemma {:induction false} ReadPrintedString(t: Text, rest: Text)
    ensures ReadValue(Quote(t) + rest) == Done(Str(t), rest)
  {
    ReadQuote(t, rest);
    assert (Quote(t) + rest)[0] == QUOTE;
  }

  lemma {:induction false} ReadArrayBranch(inner: Text)
    ensures Expect(CLOSE_BRACKET, inner).Fail? && ReadItems(inner).Done? ==>
              ReadValue([OPEN_BRACKET] + inner) == Done(Arr(ReadItems(inner).value), ReadItems(inner).rest)
    ensures Expect(CLOSE_BRACKET, inner).Done? ==>
              ReadValue([OPEN_BRACKET] + inner) == Done(Arr([]), Expect(CLOSE_BRACKET, inner).rest)
  {
    assert ([OPEN_BRACKET] + inner)[1..] == inner;
  }

  lemma {:induction false} ReadObjectBranch(inner: Text)
    ensures Expect(CLOSE_BRACE, inner).Fail? && ReadMembers(inner, []).Done? ==>
              ReadValue([OPEN_BRACE] + inner) == Done(Obj(ReadMembers(inner, []).value), ReadMembers(inner, []).rest)
    ensures Expect(CLOSE_BRACE, inner).Done? ==>
              ReadValue([OPEN_BRACE] + inner) == Done(Obj([]), Expect(CLOSE_BRACE, inner).rest)
  {
    assert ([OPEN_BRACE] + inner)[1..] == inner;
  }

  lemma {:induction false} ReadPrinted(v: Value, rest: Text)
    requires Plain(v) && EndsNumber(rest)
    ensures ReadValue(Print(v) + rest) == Done(v, rest)
    decreases v, 1
  {
    match v
    case Null => ReadWord(v, rest);
    case Bool(_) => ReadWord(v, rest);
    case Num(t) => ReadPrintedNumber(t, rest);
    case Str(t) => ReadPrintedString(t, rest);
    case Arr(items) => ReadPrintedArray(items, rest);
    case Obj(ms) => ReadPrintedObject(ms, rest);
  }

  lemma {:induction false} ReadPrintedArray(items: seq<Value>, rest: Text)
    requires PlainItems(items)
    ensures ReadValue([OPEN_BRACKET] + PrintItems(items) + [CLOSE_BRACKET] + rest) == Done(Arr(items), rest)
    decreases items, 1
  {
    var inner := PrintItems(items) + ([CLOSE_BRACKET] + rest);
    assert [OPEN_BRACKET] + PrintItems(items) + [CLOSE_BRACKET] + rest == [OPEN_BRACKET] + inner;
    ReadArrayBranch(inner);
    if items == [] {
      assert inner == [CLOSE_BRACKET] + rest;
      ExpectHere(CLOSE_BRACKET, rest);
    } else {
      PrintStart(items[0]);
      assert inner[0] == Print(items[0])[0];
      ExpectOther(CLOSE_BRACKET, inner);
      ReadPrintedItems(items, rest);
    }
  }

  lemma {:induction false} ReadPrintedObject(ms: seq<Member>, rest: Text)
    requires DistinctKeys(ms) && PlainMembers(ms)
    ensures ReadValue([OPEN_BRACE] + PrintMembers(ms) + [CLOSE_BRACE] + rest) == Done(Obj(ms), rest)
    decreases ms, 1
  {
    var inner := PrintMembers(ms) + ([CLOSE_BRACE] + rest);
    assert [OPEN_BRACE] + PrintMembers(ms) + [CLOSE_BRACE] + rest == [OPEN_BRACE] + inner;
    ReadObjectBranch(inner);
    if ms == [] {
      assert inner == [CLOSE_BRACE] + rest;
      ExpectHere(CLOSE_BRACE, rest);
    } else {
      PrintMembersStart(ms);
      assert inner[0] == PrintMembers(ms)[0];
      ExpectOther(CLOSE_BRACE, inner);
      assert [] + ms == ms;
      ReadPrintedMembers(ms, [], rest);
    }
  }

  lemma {:induction false} ReadLastItem(s: Text, v: Value, rest: Text)
    requires ReadValue(s) == Done(v, [CLOSE_BRACKET] + rest)
    ensures ReadItems(s) == Done([v], rest)
  {
    ExpectHere(CLOSE_BRACKET, rest);
  }

  lemma {:induction false} ReadNextItem(s: Text, v: Value, tail: Text, items: seq<Value>, rest: Text)
    requires ReadValue(s) == Done(v, [COMMA] + tail) && ReadItems(tail) == Done(items, rest)
    ensures ReadItems(s) == Done([v] + items, rest)
  {
    ExpectOther(CLOSE_BRACKET, [COMMA] + tail);
    ExpectHere(COMMA, tail);
  }

  lemma {:induction false} Regroup(a: Text, u: CodeUnit, b: Text, c: Text)
    ensures (a + [u] + b) + c == a + ([u] + (b + c))
  {
  }

  lemma {:induction false} ReadPrintedItems(items: seq<Value>, rest: Text)
    requires items != []
    requires PlainItems(items)
    ensures ReadItems(PrintItems(items) + ([CLOSE_BRACKET] + rest)) == Done(items, rest)
    decreases items, 0
  {
    var s := PrintItems(items) + ([CLOSE_BRACKET] + rest);
    if |items| == 1 {
      ReadPrinted(items[0], [CLOSE_BRACKET] + rest);
      ReadLastItem(s, items[0], rest);
      assert items == [items[0]];
    } else {
      var tail := PrintItems(items[1..]) + ([CLOSE_BRACKET] + rest);
      Regroup(Print(items[0]), COMMA, PrintItems(items[1..]), [CLOSE_BRACKET] + rest);
      ReadPrintedItems(items[1..], rest);
      ReadPrinted(items[0], [COMMA] + tail);
      ReadNextItem(s, items[0], tail, items[1..], rest);
      assert [items[0]] + items[1..] == items;
    }
  }

  predicate FreshKey(ms: seq<Member>, key: Text) {
    forall i :: 0 <= i < |ms| ==> ms[i].key != key
  }

  lemma {:induction false} PutFresh(ms: seq<Member>, key: Text, value: Value)
    requires FreshKey(ms, key)
    ensures Put(ms, key, value) == ms + [Member(key, value)]
  {
    if ms != [] {
      PutFresh(ms[1..], key, value);
      assert ms == [ms[0]] + ms[1..];
    }
  }

  lemma {:induction false} ReadPrintedMember(m: Member, rest: Text)
    requires Plain(m.value) && EndsNumber(rest)
    ensures ReadMember(PrintMember(m) + rest) == Done(m, rest)
    decreases m, 2
  {
    var s := PrintMember(m) + rest;
    var tail := Print(m.value) + rest;
    assert s == Quote(m.key) + ([COLON] + tail);
    assert s[0] == QUOTE;
    assert SkipSpace(s) == s;
    ReadQuote(m.key, [COLON] + tail);
    ExpectHere(COLON, tail);
    ReadPrinted(m.value, rest);
  }

  lemma {:induction false} ReadLastMember(s: Text, before: seq<Member>, m: Member, rest: Text)
    requires ReadMember(s) == Done(m, [CLOSE_BRACE] + rest) && FreshKey(before, m.key)
    ensures ReadMembers(s, before) == Done(before + [m], rest)
  {
    PutFresh(before, m.key, m.value);
    ExpectHere(CLOSE_BRACE, rest);
  }

  lemma {:induction false} ReadNextMember(s: Text, before: seq<Member>, m: Member, tail: Text)
    requires ReadMember(s) == Done(m, [COMMA] + tail) && FreshKey(before, m.key)
    ensures ReadMembers(s, before) == ReadMembers(tail, before + [m])
  {
    PutFresh(before, m.key, m.value);
    ExpectOther(CLOSE_BRACE, [COMMA] + tail);
    ExpectHere(COMMA, tail);
  }

  lemma {:induction false} DistinctSplit(before: seq<Member>, ms: seq<Member>)
    requires ms != [] && DistinctKeys(before + ms)
    ensures FreshKey(before, ms[0].key)
    ensures before + ms == (before + [ms[0]]) + ms[1..]
  {
    var all := before + ms;
    assert all[|before|] == ms[0];
    assert forall i :: 0 <= i < |before| ==> before[i] == all[i];
  }

  lemma {:induction false} ReadPrintedMembers(ms: seq<Member>, before: seq<Member>, rest: Text)
    requires ms != [] && DistinctKeys(before + ms)
    requires PlainMembers(ms)
    ensures ReadMembers(PrintMembers(ms) + ([CLOSE_BRACE] + rest), before) == Done(before + ms, rest)
    decreases ms, 0
  {
    var m := ms[0];
    var first := PrintMember(m);
    var s := PrintMembers(ms) + ([CLOSE_BRACE] + rest);
    DistinctSplit(before, ms);
    if |ms| == 1 {
      assert s == first + ([CLOSE_BRACE] + rest);
      ReadPrintedMember(m, [CLOSE_BRACE] + rest);
      ReadLastMember(s, before, m, rest);
      assert ms == [m];
    } else {
      var tail := PrintMembers(ms[1..]) + ([CLOSE_BRACE] + rest);
      Regroup(first, COMMA, PrintMembers(ms[1..]), [CLOSE_BRACE] + rest);
      ReadPrintedMember(m, [COMMA] + tail);
      ReadNextMember(s, before, m, tail);
      ReadPrintedMembers(ms[1..], before + [m], rest);
    }
  }

  /** Parsing a printed value gives back exactly that value. */
  lemma {:induction false} ParsePrint(v: Value)
    requires Plain(v)
    ensures Parse(Print(v)) == Some(v)
  {
    ReadPrinted(v, []);
    assert Print(v) + [] == Print(v);
  }

  // ---------- everything parsed is plain ----------

  lemma {:induction false} PutKeys(ms: seq<Member>, key: Text, value: Value, other: Text)
    requires FreshKey(ms, other) && key != other
    ensures FreshKey(Put(ms, key, value), other)
  {
    if ms != [] && ms[0].key != key {
      PutKeys(ms[1..], key, value, other);
    }
  }

  lemma {:induction false} PutPlain(ms: seq<Member>, key: Text, value: Value)
    requires DistinctKeys(ms) && PlainMembers(ms) && Plain(value)
    ensures DistinctKeys(Put(ms, key, value)) && PlainMembers(Put(ms, key, value))
  {
    if ms != [] && ms[0].key != key {
      PutPlain(ms[1..], key, value);
      assert FreshKey(ms[1..], ms[0].key);
      PutKeys(ms[1..], key, value, ms[0].key);
    }
  }

  /** Of two values under one key the later counts, and no other member changes. */
  lemma {:induction false} LaterValueCounts(ms: seq<Member>, key: Text, value: Value, m: Member)
    requires DistinctKeys(ms)
    ensures m in Put(ms, key, value) <==> m == Member(key, value) || (m in ms && m.key != key)
  {
    if ms != [] {
      assert ms == [ms[0]] + ms[1..];
      assert FreshKey(ms[1..], ms[0].key);
      if ms[0].key != key {
        LaterValueCounts(ms[1..], key, value, m);
      } else {
        assert m in ms[1..] ==> m.key != key;
      }
    }
  }

  lemma {:induction false} ReadPlain(s: Text)
    ensures ReadValue(s).Done? ==> Plain(ReadValue(s).value)
    decreases |s|, 0
  {
    var t := SkipSpace(s);
    if t != [] {
      if t[0] == OPEN_BRACKET {
        ReadPlainItems(t[1..]);
      } else if t[0] == OPEN_BRACE {
        ReadPlainMembers(t[1..], []);
      } else if t[0] != QUOTE {
        ReadPlainScalar(t);
      }
    }
  }

  lemma {:induction false} ReadPlainScalar(t: Text)
    ensures ReadScalar(t).Done? ==> Plain(ReadScalar(t).value)
  {
    if NumberLength(t) > 0 {
      ReadNumberValid(t);
    }
  }

  lemma {:induction false} ReadPlainItems(s: Text)
    ensures ReadItems(s).Done? ==> PlainItems(ReadItems(s).value)
    decreases |s|, 1
  {
    ReadPlain(s);
    if ReadValue(s).Done? {
      var rest := ReadValue(s).rest;
      if Expect(CLOSE_BRACKET, rest).Fail? && Expect(COMMA, rest).Done? {
        ReadPlainItems(Expect(COMMA, rest).rest);
      }
    }
  }

  lemma {:induction false} ReadPlainMembers(s: Text, before: seq<Member>)
    requires DistinctKeys(before) && PlainMembers(before)
    ensures ReadMembers(s, before).Done? ==>
              DistinctKeys(ReadMembers(s, before).value) && PlainMembers(ReadMembers(s, before).value)
    decreases |s|, 1
  {
    var p := ReadMember(s);
    if p.Done? {
      ReadPlain(Expect(COLON, ReadString(SkipSpace(s)).rest).rest);
      PutPlain(before, p.value.key, p.value.value);
      var ms := Put(before, p.value.key, p.value.value);
      if Expect(CLOSE_BRACE, p.rest).Fail? && Expect(COMMA, p.rest).Done? {
        ReadPlainMembers(Expect(COMMA, p.rest).rest, ms);
      }
    }
  }

  /** Whatever text is parsed, the result is a plain value: distinct keys, valid tokens, nothing unprintable. */
  lemma {:induction false} ParsePlain(s: Text)
    ensures Parse(s).Some? ==> Plain(Parse(s).value)
  {
    ReadPlain(s);
  }

  lemma {:induction false} PlainWellFormed(v: Value)
    requires Plain(v)
    ensures WellFormed(v)
  {
    match v
    case Arr(items) =>
      forall i | 0 <= i < |items| ensures WellFormed(items[i]) { PlainWellFormed(items[i]); }
    case Obj(ms) =>
      forall i | 0 <= i < |ms| ensures WellFormed(ms[i].value) { PlainWellFormed(ms[i].value); }
    case _ =>
  }
}
