/** Decimal amount strings, the pattern `^\d+(\.\d+)?$` shared by every amount in the system. */
module AmountStrings {
  import opened Options
  import opened Text
  import opened Decimals

  /** `s.split('.')` of an amount; `frac` is empty when there is no point. */
  datatype Parts = Parts(whole: Text, frac: Text)

  predicate ValidParts(p: Parts) {
    p.whole != [] && AllDigits(p.whole) && AllDigits(p.frac)
  }

  function Join(p: Parts): Text {
    if p.frac == [] then p.whole else p.whole + [DOT] + p.frac
  }

  /** The two parts of a text that matches the pattern. */
  function Split(s: Text): (r: Option<Parts>)
    ensures r.Some? ==> ValidParts(r.value)
  {
    var k := DigitRun(s);
    if k == 0 then None
    else if k == |s| then Some(Parts(s, []))
    else if s[k] == DOT && k + 1 < |s| && AllDigits(s[k + 1..]) then Some(Parts(s[..k], s[k + 1..]))
    else None
  }

  lemma {:induction false} JoinSplits(p: Parts)
    requires ValidParts(p)
    ensures Split(Join(p)) == Some(p)
  {
    var s := Join(p);
    if p.frac == [] {
      DigitRunAll(p.whole, []);
      assert p.whole + [] == s;
    } else {
      DigitRunAll(p.whole, [DOT] + p.frac);
      assert s == p.whole + ([DOT] + p.frac);
      assert s[|p.whole| + 1..] == p.frac;
    }
  }

  lemma {:induction false} SplitJoins(s: Text)
    requires Split(s).Some?
    ensures s == Join(Split(s).value)
  {
    var k := DigitRun(s);
    if k == |s| {
      assert s[..k] == s;
    } else {
      assert s == s[..k] + [DOT] + s[k + 1..];
    }
  }

  /** A text matches exactly when it is digits, or digits, a point and digits; and then these are its parts. */
  lemma {:induction false} SplitJoin(s: Text, p: Parts)
    ensures Split(s) == Some(p) <==> ValidParts(p) && s == Join(p)
    ensures Split(s) == Some(p) <==>
            && p.whole != [] && (forall i :: 0 <= i < |p.whole| ==> 48 <= p.whole[i] <= 57)
            && (forall i :: 0 <= i < |p.frac| ==> 48 <= p.frac[i] <= 57)
            && s == if p.frac == [] then p.whole else p.whole + [46] + p.frac
  {
    if Split(s) == Some(p) {
      SplitJoins(s);
    }
    if ValidParts(p) {
      JoinSplits(p);
    }
  }
}
