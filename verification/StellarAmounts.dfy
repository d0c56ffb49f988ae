/** Conversion between decimal amounts and integer stroop strings. */
module StellarAmounts {
  import opened Options
  import opened Text
  import opened Arith
  import opened Decimals
  import opened AmountStrings

  /** `10 ** decimals` is an exact double up to this exponent. */
  const MAX_EXACT_DECIMALS := 22

  /** `(frac + '0'.repeat(decimals)).slice(0, decimals)`. */
  function Padded(frac: Text, decimals: nat): (r: Text)
    ensures |r| == decimals
    ensures AllDigits(frac) ==> AllDigits(r)
  {
    (frac + Zeros(decimals))[..decimals]
  }

  /** `BigInt(whole) * 10n ** decimals + BigInt(fraction)`. */
  function StroopsOf(p: Parts, decimals: nat): nat
    requires ValidParts(p)
  {
    Shifted(NumberOf(p.whole), decimals) + NumberOf(Padded(p.frac, decimals))
  }

  /** `toStellarAmount`; None is the TypeError. */
  function ToStellar(amount: Text, decimals: nat): Option<Text>
    requires decimals <= MAX_EXACT_DECIMALS
  {
    match Split(amount)
    case None => None
    case Some(p) => Some(ToDec(StroopsOf(p, decimals)))
  }

  /** `r.toString().padStart(decimals, '0').replace(/0+$/, '')`. */
  function FractionOf(r: nat, decimals: nat): (f: Text)
    ensures AllDigits(f)
  {
    StripTrailing(PadStart(ToDec(r), decimals))
  }

  /** The whole units and the fraction of n stroops. */
  function PartsOf(n: nat, decimals: nat): Parts {
    Parts(ToDec(Quot(n, Pow10(decimals))), FractionOf(Rem(n, Pow10(decimals)), decimals))
  }

  /** `fromStellarAmount`; None is the TypeError. */
  function FromStellar(stroops: Text, decimals: nat): Option<Text>
    requires decimals <= MAX_EXACT_DECIMALS
  {
    if stroops == [] || !AllDigits(stroops) then None
    else Some(Join(PartsOf(NumberOf(stroops), decimals)))
  }

  function Truncated(frac: Text, decimals: nat): (r: Text)
    ensures r <= frac
  {
    if |frac| <= decimals then frac else frac[..decimals]
  }

  /** The parts of an amount truncated to some decimals, without redundant zeros. */
  function NormalParts(p: Parts, decimals: nat): Parts {
    Parts(StripLeading(p.whole), StripTrailing(Truncated(p.frac, decimals)))
  }

  /** The padded fraction of a stroop count is exactly `decimals` digits, except that no decimals leave a zero. */
  lemma {:induction false} FractionDigits(r: nat, decimals: nat)
    requires r < Pow10(decimals)
    ensures NumberOf(PadStart(ToDec(r), decimals)) == r
    ensures |PadStart(ToDec(r), decimals)| == if decimals == 0 then 1 else decimals
    ensures decimals == 0 ==> PadStart(ToDec(r), decimals) == [48]
  {
    ValuePadStart(ToDec(r), decimals);
    ValueToDec(r);
    if decimals > 0 {
      ToDecLength(r, decimals);
    }
  }

  lemma {:induction false} PaddedFill(frac: Text, digits: Text)
    requires |frac| <= |digits| && digits == frac + Zeros(|digits| - |frac|)
    ensures Padded(frac, |digits|) == digits
  {
    PaddedShape(frac, |digits|);
  }

  /** Padding puts back the zeros that stripping removed. */
  lemma {:induction false} PaddedStrip(digits: Text)
    ensures Padded(StripTrailing(digits), |digits|) == digits
  {
    StripTrailingRestore(digits);
    PaddedFill(StripTrailing(digits), digits);
  }

  lemma {:induction false} PaddedShape(frac: Text, decimals: nat)
    ensures Padded(frac, decimals) ==
            if |frac| <= decimals then frac + Zeros(decimals - |frac|) else frac[..decimals]
  {
  }

  /** Stripping removes the zeros that padding added. */
  lemma {:induction false} StripPadded(frac: Text, decimals: nat)
    ensures StripTrailing(Padded(frac, decimals)) == StripTrailing(Truncated(frac, decimals))
  {
    PaddedShape(frac, decimals);
    if |frac| <= decimals {
      StripTrailingZeros(frac, decimals - |frac|);
    }
  }

  /** The fraction printed for r stroops is read back as r stroops. */
  lemma {:induction false} FractionReadsBack(r: nat, decimals: nat)
    requires r < Pow10(decimals)
    ensures NumberOf(Padded(FractionOf(r, decimals), decimals)) == r
  {
    FractionDigits(r, decimals);
    if decimals > 0 {
      PaddedStrip(PadStart(ToDec(r), decimals));
    }
  }

  /** The fraction printed for the value of d digits is those digits, trailing zeros stripped. */
  lemma {:induction false} FractionOfDigits(digits: Text)
    requires AllDigits(digits)
    ensures FractionOf(NumberOf(digits), |digits|) == StripTrailing(digits)
  {
    if digits == [] {
      assert [48][..0] == [];
      assert StripTrailing([48]) == StripTrailing([]);
    } else {
      PadStartToDec(digits);
    }
  }

  lemma {:induction false} ToStellarJoin(p: Parts, decimals: nat)
    requires decimals <= MAX_EXACT_DECIMALS && ValidParts(p)
    ensures ToStellar(Join(p), decimals) == Some(ToDec(StroopsOf(p, decimals)))
  {
    SplitJoin(Join(p), p);
  }

  lemma {:induction false} FromStellarOf(n: nat, decimals: nat)
    requires decimals <= MAX_EXACT_DECIMALS
    ensures FromStellar(ToDec(n), decimals) == Some(Join(PartsOf(n, decimals)))
  {
    ValueToDec(n);
  }

  lemma {:induction false} PartsOfSum(n: nat, q: nat, r: nat, decimals: nat)
    requires r < Pow10(decimals) && n == Shifted(q, decimals) + r
    ensures PartsOf(n, decimals) == Parts(ToDec(q), FractionOf(r, decimals))
  {
    ShiftedIs(q, decimals);
    QuotRem(q, r, Pow10(decimals));
  }

  /** The parts printed for n stroops are read back as n stroops. */
  lemma {:induction false} StroopsOfParts(n: nat, decimals: nat, p: Parts)
    requires decimals <= MAX_EXACT_DECIMALS && p == PartsOf(n, decimals)
    ensures ValidParts(p) && StroopsOf(p, decimals) == n
  {
    var q, r := Quot(n, Pow10(decimals)), Rem(n, Pow10(decimals));
    Division(n, Pow10(decimals));
    ShiftedIs(q, decimals);
    ValueToDec(q);
    FractionReadsBack(r, decimals);
  }

  lemma {:induction false} ReadsBack(n: nat, decimals: nat, p: Parts)
    requires decimals <= MAX_EXACT_DECIMALS && p == PartsOf(n, decimals)
    ensures ToStellar(Join(p), decimals) == Some(ToDec(n))
  {
    StroopsOfParts(n, decimals, p);
    ToStellarJoin(p, decimals);
  }

  /** Stroops to decimal and back: every digit string returns, without its leading zeros. */
  lemma {:induction false} StroopsRoundTrip(stroops: Text, decimals: nat)
    requires decimals <= MAX_EXACT_DECIMALS
    requires stroops != [] && AllDigits(stroops)
    ensures FromStellar(stroops, decimals).Some?
    ensures ToStellar(FromStellar(stroops, decimals).value, decimals) == Some(StripLeading(stroops))
  {
    ReadsBack(NumberOf(stroops), decimals, PartsOf(NumberOf(stroops), decimals));
    ToDecValue(stroops);
  }

  /** The stroops of some parts are printed as the normal form of those parts. */
  lemma {:induction false} PartsOfStroops(p: Parts, n: nat, decimals: nat)
    requires ValidParts(p) && n == StroopsOf(p, decimals)
    ensures PartsOf(n, decimals) == NormalParts(p, decimals)
  {
    ValueBound(Padded(p.frac, decimals));
    PartsOfSum(n, NumberOf(p.whole), NumberOf(Padded(p.frac, decimals)), decimals);
    NormalPartsOf(p, decimals);
  }

  /** Decimal to stroops and back: the amount returns truncated, never rounded, and without redundant zeros. */
  lemma {:induction false} AmountRoundTrip(amount: Text, decimals: nat)
    requires decimals <= MAX_EXACT_DECIMALS
    requires Split(amount).Some?
    ensures ToStellar(amount, decimals).Some?
    ensures FromStellar(ToStellar(amount, decimals).value, decimals) ==
            Some(Join(NormalParts(Split(amount).value, decimals)))
  {
    var p := Split(amount).value;
    PartsOfStroops(p, StroopsOf(p, decimals), decimals);
    FromStellarOf(StroopsOf(p, decimals), decimals);
  }

  lemma {:induction false} NormalPartsOf(p: Parts, decimals: nat)
    requires ValidParts(p)
    ensures Parts(ToDec(NumberOf(p.whole)), FractionOf(NumberOf(Padded(p.frac, decimals)), decimals)) == NormalParts(p, decimals)
  {
    ToDecValue(p.whole);
    FractionOfDigits(Padded(p.frac, decimals));
    StripPadded(p.frac, decimals);
  }

  /** How many stroops an amount is, in units of its own last decimal: times ten for each decimal it lacks, or cut off. */
  lemma {:induction false} StroopsValue(amount: Text, decimals: nat)
    requires decimals <= MAX_EXACT_DECIMALS && Split(amount).Some?
    ensures ToStellar(amount, decimals).Some? && AllDigits(ToStellar(amount, decimals).value)
    ensures var p, n := Split(amount).value, NumberOf(ToStellar(amount, decimals).value);
            && (|p.frac| <= decimals ==> n == NumberOf(p.whole + p.frac) * Pow10(decimals - |p.frac|))
            && (|p.frac| > decimals ==> n == Quot(NumberOf(p.whole + p.frac), Pow10(|p.frac| - decimals)))
  {
    var p := Split(amount).value;
    ValueToDec(StroopsOf(p, decimals));
    PaddedShape(p.frac, decimals);
    if |p.frac| <= decimals {
      StroopsFilled(p, decimals - |p.frac|);
    } else {
      StroopsCut(p, decimals);
    }
  }

  lemma {:induction false} StroopsFilled(p: Parts, k: nat)
    requires ValidParts(p)
    ensures AllDigits(p.frac + Zeros(k))
    ensures Shifted(NumberOf(p.whole), |p.frac| + k) + NumberOf(p.frac + Zeros(k)) == NumberOf(p.whole + p.frac) * Pow10(k)
  {
    ShiftedIs(NumberOf(p.whole), |p.frac| + k);
    ValueAppendZeros(p.whole + p.frac, k);
    assert p.whole + p.frac + Zeros(k) == p.whole + (p.frac + Zeros(k));
    ValueConcat(p.whole, p.frac + Zeros(k));
  }

  lemma {:induction false} StroopsCut(p: Parts, decimals: nat)
    requires ValidParts(p) && |p.frac| > decimals
    ensures Shifted(NumberOf(p.whole), decimals) + NumberOf(p.frac[..decimals])
         == Quot(NumberOf(p.whole + p.frac), Pow10(|p.frac| - decimals))
  {
    var kept, rest := p.frac[..decimals], p.frac[decimals..];
    assert p.whole + p.frac == (p.whole + kept) + rest;
    ShiftedIs(NumberOf(p.whole), decimals);
    ValueConcat(p.whole, kept);
    ValueConcat(p.whole + kept, rest);
    ValueBound(rest);
    QuotRem(NumberOf(p.whole + kept), NumberOf(rest), Pow10(|rest|));
  }

  /** Both directions reject exactly the texts outside their patterns. */
  lemma {:induction false} Rejections(s: Text, decimals: nat)
    requires decimals <= MAX_EXACT_DECIMALS
    ensures ToStellar(s, decimals).None? <==> !exists p: Parts :: ValidParts(p) && s == Join(p)
    ensures FromStellar(s, decimals).None? <==> s == [] || !AllDigits(s)
  {
    forall p: Parts ensures Split(s) == Some(p) <==> ValidParts(p) && s == Join(p) {
      SplitJoin(s, p);
    }
    if Split(s).Some? {
      assert ValidParts(Split(s).value) && s == Join(Split(s).value);
    }
  }
}
