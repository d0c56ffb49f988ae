/** Decimal digit strings and the naturals they denote. */
module Decimals {
  import opened Text
  import opened Arith

  predicate IsDigit(u: CodeUnit) {
    48 <= u <= 57
  }

  predicate AllDigits(t: Text) {
    forall i :: 0 <= i < |t| ==> IsDigit(t[i])
  }

  /** How many digits a text starts with. */
  function DigitRun(s: Text): (n: nat)
    ensures n <= |s| && AllDigits(s[..n])
    ensures n < |s| ==> !IsDigit(s[n])
  {
    if s != [] && IsDigit(s[0]) then 1 + DigitRun(s[1..]) else 0
  }

  function Pow10(k: nat): (p: nat)
    ensures p > 0
  {
    if k == 0 then 1 else 10 * Pow10(k - 1)
  }

  /** The number a digit string denotes; the empty string denotes 0. */
  function NumberOf(t: Text): nat
    requires AllDigits(t)
  {
    if t == [] then 0 else 10 * NumberOf(t[..|t| - 1]) + (t[|t| - 1] - 48)
  }

  /** The decimal form without leading zeros (`BigInt.prototype.toString`). */
  function ToDec(n: nat): (t: Text)
    ensures AllDigits(t) && |t| > 0
    ensures n > 0 ==> t[0] != 48
    ensures n == 0 ==> t == [48]
  {
    if n < 10 then [48 + n] else ToDec(n / 10) + [48 + n % 10]
  }

  function Zeros(k: nat): (t: Text)
    ensures |t| == k && AllDigits(t) && forall i :: 0 <= i < k ==> t[i] == 48
  {
    if k == 0 then [] else Zeros(k - 1) + [48]
  }

  /** `padStart(width, '0')`. */
  function PadStart(t: Text, width: nat): (r: Text)
    ensures |r| == if |t| >= width then |t| else width
    ensures AllDigits(t) ==> AllDigits(r)
  {
    if |t| >= width then t else Zeros(width - |t|) + t
  }

  /** Drops leading zeros but always leaves one digit. */
  function StripLeading(t: Text): (r: Text)
    ensures AllDigits(t) ==> AllDigits(r)
    ensures t != [] ==> r != []
  {
    if |t| > 1 && t[0] == 48 then StripLeading(t[1..]) else t
  }

  /** `replace(/0+$/, '')`. */
  function StripTrailing(t: Text): (r: Text)
    ensures r <= t
    ensures r != [] ==> r[|r| - 1] != 48
    ensures AllDigits(t) ==> AllDigits(r)
  {
    if t != [] && t[|t| - 1] == 48 then StripTrailing(t[..|t| - 1]) else t
  }

  lemma {:induction false} TimesTen(x: nat, y: nat)
    ensures (10 * x) * y == 10 * (x * y) == x * (10 * y)
  {
  }

  lemma {:induction false} Pow10Add(a: nat, b: nat)
    ensures Pow10(a + b) == Pow10(a) * Pow10(b)
  {
    if a > 0 {
      Pow10Add(a - 1, b);
      TimesTen(Pow10(a - 1), Pow10(b));
    }
  }

  /** n with k zeros appended: n x 10^k. */
  function Shifted(n: nat, k: nat): nat {
    if k == 0 then n else 10 * Shifted(n, k - 1)
  }

  lemma {:induction false} ShiftedIs(n: nat, k: nat)
    ensures Shifted(n, k) == n * Pow10(k)
  {
    if k > 0 {
      ShiftedIs(n, k - 1);
      TimesTen(n, Pow10(k - 1));
    }
  }

  lemma {:induction false} ShiftedAdds(a: nat, b: nat, k: nat)
    ensures Shifted(a + b, k) == Shifted(a, k) + Shifted(b, k)
  {
    if k > 0 {
      ShiftedAdds(a, b, k - 1);
    }
  }

  lemma {:induction false} ShiftedTwice(n: nat, j: nat, k: nat)
    ensures Shifted(Shifted(n, j), k) == Shifted(n, j + k)
  {
    if k > 0 {
      ShiftedTwice(n, j, k - 1);
    }
  }

  lemma {:induction false} ShiftedOrder(a: nat, b: nat, k: nat)
    ensures Shifted(a, k) <= Shifted(b, k) <==> a <= b
  {
    if k > 0 {
      ShiftedOrder(a, b, k - 1);
    }
  }

  lemma {:induction false} Pow10Monotone(a: nat, b: nat)
    requires a <= b
    ensures Pow10(a) <= Pow10(b)
  {
    if a < b {
      Pow10Monotone(a, b - 1);
    }
  }

  lemma {:induction false} ValueConcat(a: Text, b: Text)
    requires AllDigits(a) && AllDigits(b)
    ensures AllDigits(a + b)
    ensures NumberOf(a + b) == NumberOf(a) * Pow10(|b|) + NumberOf(b)
  {
    if b == [] {
      assert a + b == a;
    } else {
      var c := b[..|b| - 1];
      ValueConcat(a, c);
      assert (a + b)[..|a + b| - 1] == a + c;
      OneMoreDigit(NumberOf(a), Pow10(|c|), NumberOf(c), b[|b| - 1] - 48);
    }
  }

  lemma {:induction false} OneMoreDigit(x: nat, p: nat, y: nat, d: nat)
    ensures 10 * (x * p + y) + d == x * (10 * p) + (10 * y + d)
  {
    TimesTen(x, p);
  }

  lemma {:induction false} ValueBound(t: Text)
    requires AllDigits(t)
    ensures NumberOf(t) < Pow10(|t|)
  {
    if t != [] {
      ValueBound(t[..|t| - 1]);
    }
  }

  lemma {:induction false} DropLastDigit(x: nat, d: nat, p: nat)
    requires d < 10 && p > 0
    ensures Quot(10 * x + d, 10 * p) == Quot(x, p)
  {
    Division(x, p);
    Scaled(x, d, p, Quot(x, p));
    QuotUnique(10 * x + d, 10 * p, Quot(x, p));
  }

  lemma {:induction false} Scaled(x: nat, d: nat, p: nat, q: nat)
    requires d < 10 && q * p <= x < q * p + p
    ensures q * (10 * p) <= 10 * x + d < q * (10 * p) + 10 * p
  {
    TimesTen(q, p);
  }

  /** Decimal notation: the digit at each place is the number's digit there, and no place is left out. */
  lemma {:induction false} DigitAtPlace(t: Text, i: nat)
    requires AllDigits(t) && i < |t|
    ensures t[i] - 48 == Quot(NumberOf(t), Pow10(|t| - 1 - i)) % 10
    ensures NumberOf(t) < Pow10(|t|)
  {
    ValueBound(t);
    var s, d := t[..|t| - 1], t[|t| - 1] - 48;
    if i < |s| {
      DigitAtPlace(s, i);
      DropLastDigit(NumberOf(s), d, Pow10(|s| - 1 - i));
    } else {
      QuotUnique(NumberOf(t), 1, NumberOf(t));
      LastDigit(NumberOf(s), d);
    }
  }

  lemma {:induction false} LastDigit(x: nat, d: nat)
    requires d < 10
    ensures (10 * x + d) % 10 == d
  {
  }

  lemma {:induction false} ValueToDec(n: nat)
    ensures NumberOf(ToDec(n)) == n
  {
    if n >= 10 {
      ValueToDec(n / 10);
      assert ToDec(n)[..|ToDec(n)| - 1] == ToDec(n / 10);
    } else {
      assert ToDec(n)[..0] == [];
    }
  }

  /** Digit strings of one length are told apart by their values. */
  lemma {:induction false} ValueInjective(a: Text, b: Text)
    requires AllDigits(a) && AllDigits(b) && |a| == |b|
    requires NumberOf(a) == NumberOf(b)
    ensures a == b
  {
    if a != [] {
      var n := |a| - 1;
      ValueInjective(a[..n], b[..n]);
      assert a == a[..n] + [a[n]] && b == b[..n] + [b[n]];
    }
  }

  lemma {:induction false} ValueZeros(k: nat)
    ensures NumberOf(Zeros(k)) == 0
  {
    if k > 0 {
      ValueZeros(k - 1);
      assert Zeros(k)[..k - 1] == Zeros(k - 1);
    }
  }

  lemma {:induction false} ValueAfterZeros(k: nat, t: Text)
    requires AllDigits(t)
    ensures NumberOf(Zeros(k) + t) == NumberOf(t)
  {
    if t == [] {
      ValueZeros(k);
      assert Zeros(k) + t == Zeros(k);
    } else {
      var c := t[..|t| - 1];
      ValueAfterZeros(k, c);
      assert (Zeros(k) + t)[..k + |c|] == Zeros(k) + c;
    }
  }

  lemma {:induction false} ValuePadStart(t: Text, width: nat)
    requires AllDigits(t)
    ensures NumberOf(PadStart(t, width)) == NumberOf(t)
  {
    if |t| < width {
      ValueAfterZeros(width - |t|, t);
      assert PadStart(t, width) == Zeros(width - |t|) + t;
    } else {
      assert PadStart(t, width) == t;
    }
  }

  lemma {:induction false} ValueStripLeading(t: Text)
    requires AllDigits(t)
    ensures NumberOf(StripLeading(t)) == NumberOf(t)
  {
    if |t| > 1 && t[0] == 48 {
      ValueStripLeading(t[1..]);
      assert Zeros(1) == [48];
      assert t == Zeros(1) + t[1..];
      ValueAfterZeros(1, t[1..]);
    }
  }

  /** Appending zeros scales by a power of ten. */
  lemma {:induction false} ValueAppendZeros(t: Text, k: nat)
    requires AllDigits(t)
    ensures NumberOf(t + Zeros(k)) == NumberOf(t) * Pow10(k)
  {
    ValueZeros(k);
    ValueConcat(t, Zeros(k));
  }

  /** A decimal form is no longer than any digit string of the same value. */
  lemma {:induction false} ToDecLength(n: nat, k: nat)
    requires k > 0 && n < Pow10(k)
    ensures |ToDec(n)| <= k
  {
    if n >= 10 {
      assert k > 1;
      ToDecLength(n / 10, k - 1);
    }
  }

  /** Without leading zeros the value determines the text. */
  lemma {:induction false} CanonicalUnique(a: Text, b: Text)
    requires AllDigits(a) && AllDigits(b) && a != [] && b != []
    requires a[0] == 48 ==> |a| == 1
    requires b[0] == 48 ==> |b| == 1
    requires NumberOf(a) == NumberOf(b)
    ensures a == b
  {
    if |a| == |b| {
      ValueInjective(a, b);
    } else if |a| < |b| {
      CanonicalShorter(a, b);
    } else {
      CanonicalShorter(b, a);
    }
  }

  lemma {:induction false} LeadingDigitBound(t: Text)
    requires AllDigits(t) && t != [] && t[0] != 48
    ensures NumberOf(t) >= Pow10(|t| - 1)
  {
    if |t| > 1 {
      LeadingDigitBound(t[..|t| - 1]);
    }
  }

  lemma {:induction false} CanonicalShorter(a: Text, b: Text)
    requires AllDigits(a) && AllDigits(b) && a != []
    requires |a| < |b| && b[0] != 48
    ensures NumberOf(a) < NumberOf(b)
  {
    ValueBound(a);
    LeadingDigitBound(b);
    Pow10Monotone(|a|, |b| - 1);
  }

  lemma {:induction false} StripLeadingShape(t: Text)
    requires t != []
    ensures StripLeading(t)[0] == 48 ==> |StripLeading(t)| == 1
  {
    if |t| > 1 && t[0] == 48 {
      StripLeadingShape(t[1..]);
    }
  }

  /** Printing the value of a digit string strips its leading zeros and changes nothing else. */
  lemma {:induction false} ToDecValue(t: Text)
    requires AllDigits(t) && t != []
    ensures ToDec(NumberOf(t)) == StripLeading(t)
  {
    ValueToDec(NumberOf(t));
    ValueStripLeading(t);
    StripLeadingShape(t);
    CanonicalUnique(ToDec(NumberOf(t)), StripLeading(t));
  }

  /** A fixed-width field survives printing and padding. */
  lemma {:induction false} PadStartToDec(t: Text)
    requires AllDigits(t) && t != []
    ensures PadStart(ToDec(NumberOf(t)), |t|) == t
  {
    ValueBound(t);
    ToDecLength(NumberOf(t), |t|);
    ValuePadStart(ToDec(NumberOf(t)), |t|);
    ValueToDec(NumberOf(t));
    ValueInjective(PadStart(ToDec(NumberOf(t)), |t|), t);
  }

  lemma {:induction false} DigitRunAll(t: Text, rest: Text)
    requires AllDigits(t) && (rest == [] || !IsDigit(rest[0]))
    ensures DigitRun(t + rest) == |t|
  {
    if t == [] {
      assert t + rest == rest;
    } else {
      assert (t + rest)[1..] == t[1..] + rest;
      DigitRunAll(t[1..], rest);
    }
  }

  lemma {:induction false} StripTrailingZeros(t: Text, k: nat)
    ensures StripTrailing(t + Zeros(k)) == StripTrailing(t)
  {
    if k == 0 {
      assert t + Zeros(k) == t;
    } else {
      var s := t + Zeros(k);
      assert s[..|s| - 1] == t + Zeros(k - 1);
      StripTrailingZeros(t, k - 1);
    }
  }

  /** Stripped trailing zeros can be put back. */
  lemma {:induction false} StripTrailingRestore(t: Text)
    ensures |StripTrailing(t)| <= |t|
    ensures t == StripTrailing(t) + Zeros(|t| - |StripTrailing(t)|)
  {
    if t != [] && t[|t| - 1] == 48 {
      var s := t[..|t| - 1];
      StripTrailingRestore(s);
      assert t == s + [48];
    }
  }
}
