/** A value that may be absent. */
module Options {

  datatype Option<+T> = None | Some(value: T)
}

/** JavaScript strings: sequences of UTF-16 code units. */
module Text {

  type CodeUnit = n: int | 0 <= n < 0x1_0000

  type Text = seq<CodeUnit>

  const DIGIT_ZERO: CodeUnit := 48
  const COMMA: CodeUnit := 44
  const MINUS: CodeUnit := 45
  const PLUS: CodeUnit := 43
  const DOT: CodeUnit := 46
  const COLON: CodeUnit := 58
  const EQUALS: CodeUnit := 61
  const QUOTE: CodeUnit := 34
  const BACKSLASH: CodeUnit := 92
  const OPEN_BRACKET: CodeUnit := 91
  const CLOSE_BRACKET: CodeUnit := 93
  const OPEN_BRACE: CodeUnit := 123
  const CLOSE_BRACE: CodeUnit := 125

  /** Lexicographic order on code units, the order of `Array.prototype.sort` and of `<` on strings. */
  predicate Before(a: Text, b: Text) {
    if b == [] then false
    else if a == [] then true
    else a[0] < b[0] || (a[0] == b[0] && Before(a[1..], b[1..]))
  }

  /** A proper prefix comes first; otherwise the text with the smaller unit where the two first differ. */
  ghost predicate ComesFirst(a: Text, b: Text) {
    || (|a| < |b| && b[..|a|] == a)
    || exists i :: 0 <= i < |a| && i < |b| && a[..i] == b[..i] && a[i] < b[i]
  }

  lemma {:induction false} BeforeExactly(a: Text, b: Text)
    ensures Before(a, b) <==> ComesFirst(a, b)
  {
    if a != [] && b != [] && a[0] == b[0] {
      BeforeExactly(a[1..], b[1..]);
      assert a == [a[0]] + a[1..] && b == [b[0]] + b[1..];
      if ComesFirst(a[1..], b[1..]) {
        FirstExtends(a[0], a[1..], b[1..]);
      }
      if ComesFirst(a, b) {
        FirstShrinks(a, b);
      }
    } else if a != [] && b != [] {
      assert a[..0] == b[..0];
    }
  }

  lemma {:induction false} FirstExtends(u: CodeUnit, a: Text, b: Text)
    requires ComesFirst(a, b)
    ensures ComesFirst([u] + a, [u] + b)
  {
    var x, y := [u] + a, [u] + b;
    if |a| < |b| && b[..|a|] == a {
      assert y[..|x|] == [u] + b[..|a|];
    } else {
      var i :| 0 <= i < |a| && i < |b| && a[..i] == b[..i] && a[i] < b[i];
      assert x[..i + 1] == [u] + a[..i] && y[..i + 1] == [u] + b[..i];
      assert x[i + 1] < y[i + 1];
    }
  }

  lemma {:induction false} FirstShrinks(a: Text, b: Text)
    requires a != [] && b != [] && a[0] == b[0] && ComesFirst(a, b)
    ensures ComesFirst(a[1..], b[1..])
  {
    var x, y := a[1..], b[1..];
    if |a| < |b| && b[..|a|] == a {
      assert y[..|x|] == b[..|a|][1..];
    } else {
      var i :| 0 <= i < |a| && i < |b| && a[..i] == b[..i] && a[i] < b[i];
      assert i > 0;
      assert x[..i - 1] == a[..i][1..] && y[..i - 1] == b[..i][1..];
      assert x[i - 1] < y[i - 1];
    }
  }

  /** The order is total: of two different texts exactly one comes first. */
  lemma {:induction false} BeforeTotal(a: Text, b: Text)
    ensures a != b ==> (Before(a, b) <==> !Before(b, a))
    ensures !Before(a, a)
  {
    if a != [] && b != [] {
      BeforeTotal(a[1..], b[1..]);
      assert a == [a[0]] + a[1..] && b == [b[0]] + b[1..];
    }
    if a != [] {
      BeforeTotal(a[1..], a[1..]);
    }
  }

  lemma {:induction false} BeforeTransitive(a: Text, b: Text, c: Text)
    requires Before(a, b) && Before(b, c)
    ensures Before(a, c)
  {
    if a != [] && a[0] == b[0] == c[0] {
      BeforeTransitive(a[1..], b[1..], c[1..]);
    }
  }

  /** Two parses of one text: equal concatenations whose left parts have one length split equally. */
  lemma {:induction false} SameSplit(a: Text, b: Text, c: Text, d: Text)
    requires a + b == c + d && |a| == |c|
    ensures a == c && b == d
  {
    assert a == (a + b)[..|a|] && c == (c + d)[..|c|];
    assert b == (a + b)[|a|..] && d == (c + d)[|c|..];
  }
}
