/**
 What the money code means as numbers: amounts are rationals, the comparisons
 on digits are comparisons of those, and every limit and check is stated on them.
 */
module AmountValues {
  import opened Options
  import opened Text
  import opened Arith
  import opened Decimals
  import opened AmountStrings
  import opened FeeTiers
  import opened SettlementAmounts
  import opened Reconciliation

  /** A tenth, taken k times. */
  function Tenths(x: real, k: nat): real {
    if k == 0 then x else Tenths(x, k - 1) / 10.0
  }

  /** The number a decimal denotes: units / 10^scale. */
  function Value(d: Dec): real {
    Tenths(d.units as real, d.scale)
  }

  /** The number an amount text denotes: the digits before the point, and a tenth of those after it for each of them. */
  function TextValue(p: Parts): real
    requires ValidParts(p)
  {
    NumberOf(p.whole) as real + Tenths(NumberOf(p.frac) as real, |p.frac|)
  }

  // ---------- order and sum ----------

  lemma {:induction false} TenthsAdd(x: real, y: real, k: nat)
    ensures Tenths(x + y, k) == Tenths(x, k) + Tenths(y, k)
  {
    if k > 0 {
      TenthsAdd(x, y, k - 1);
    }
  }

  lemma {:induction false} TenthsOrder(x: real, y: real, k: nat)
    ensures Tenths(x, k) <= Tenths(y, k) <==> x <= y
  {
    if k > 0 {
      TenthsOrder(x, y, k - 1);
    }
  }

  lemma {:induction false} TenthsTwice(x: real, j: nat, k: nat)
    ensures Tenths(x, j + k) == Tenths(Tenths(x, j), k)
  {
    if k > 0 {
      TenthsTwice(x, j, k - 1);
    }
  }

  /** Zeros appended and as many places more are the same number. */
  lemma {:induction false} TenthsShifted(n: nat, j: nat)
    ensures Tenths(Shifted(n, j) as real, j) == n as real
  {
    if j > 0 {
      TenthsShifted(n, j - 1);
      TenthsTimesTen(Shifted(n, j - 1) as real, j);
    }
  }

  lemma {:induction false} TenthsTimesTen(x: real, j: nat)
    requires j > 0
    ensures Tenths(10.0 * x, j) == Tenths(x, j - 1)
  {
    if j > 1 {
      TenthsTimesTen(x, j - 1);
    }
  }

  lemma {:induction false} AtScale(d: Dec, more: nat)
    ensures Value(Dec(Shifted(d.units, more), d.scale + more)) == Value(d)
  {
    TenthsTwice(Shifted(d.units, more) as real, more, d.scale);
    TenthsShifted(d.units, more);
  }

  /** Comparing digits is comparing numbers. */
  lemma {:induction false} OrderIsNumeric(a: Dec, b: Dec)
    ensures AtMost(a, b) <==> Value(a) <= Value(b)
    ensures SameNumber(a, b) <==> Value(a) == Value(b)
  {
    AtScale(a, b.scale);
    AtScale(b, a.scale);
    TenthsOrder(Shifted(a.units, b.scale) as real, Shifted(b.units, a.scale) as real, a.scale + b.scale);
    TenthsOrder(Shifted(b.units, a.scale) as real, Shifted(a.units, b.scale) as real, a.scale + b.scale);
  }

  lemma {:induction false} PlusIsSum(a: Dec, b: Dec)
    ensures Value(Plus(a, b)) == Value(a) + Value(b)
  {
    AtScale(a, b.scale);
    AtScale(b, a.scale);
    TenthsAdd(Shifted(a.units, b.scale) as real, Shifted(b.units, a.scale) as real, a.scale + b.scale);
  }

  lemma {:induction false} ValueNotNegative(d: Dec)
    ensures Value(d) >= 0.0
  {
    TenthsOrder(0.0, d.units as real, d.scale);
    TenthsOfZero(d.scale);
  }

  lemma {:induction false} TenthsOfZero(k: nat)
    ensures Tenths(0.0, k) == 0.0
  {
    if k > 0 {
      TenthsOfZero(k - 1);
    }
  }

  /** A text is an amount exactly when it is digits, or digits, a point and digits; and this is what it denotes. */
  lemma {:induction false} TextDenotes(s: Text)
    ensures ReadAmount(s).Some? <==> exists p: Parts :: ValidParts(p) && s == Join(p)
    ensures forall p: Parts :: ValidParts(p) && s == Join(p) ==> Value(ReadAmount(s).value) == TextValue(p)
  {
    if ReadAmount(s).Some? {
      SplitJoin(s, Split(s).value);
    }
    forall p: Parts | ValidParts(p) && s == Join(p)
      ensures ReadAmount(s).Some? && Value(ReadAmount(s).value) == TextValue(p)
    {
      JoinReads(p);
      AmountValue(p);
    }
  }

  lemma {:induction false} AmountValue(p: Parts)
    requires ValidParts(p)
    ensures Value(AmountOf(p)) == TextValue(p)
  {
    var k := |p.frac|;
    ValueConcat(p.whole, p.frac);
    ShiftedIs(NumberOf(p.whole), k);
    TenthsAdd(Shifted(NumberOf(p.whole), k) as real, NumberOf(p.frac) as real, k);
    TenthsShifted(NumberOf(p.whole), k);
  }

  // ---------- limits ----------

  lemma {:induction false} PowersOfTen()
    ensures Pow10(8) == 100_000_000 && Pow10(15) == 1_000_000_000_000_000
  {
    assert Pow10(4) == 10_000;
    assert Pow10(7) == 10_000_000;
    Pow10Add(4, 4);
    Pow10Add(8, 7);
  }

  /** The caps: 10^8 x 10^decimals for a known asset, 10^15 otherwise. */
  lemma {:induction false} CapExactly(g: Dec, decimals: Option<nat>)
    ensures AtMost(g, MaxAmount(decimals)) <==>
            Value(g) <= match decimals
                        case None => 1_000_000_000_000_000.0
                        case Some(d) => (100_000_000 * Pow10(d)) as real
  {
    PowersOfTen();
    OrderIsNumeric(g, MaxAmount(decimals));
  }

  /** The request schema: at most 16 digits before the point and a value of at most 10^15. */
  lemma {:induction false} AcceptsByValue(s: Text)
    ensures AcceptsAmount(s) <==>
            exists p: Parts :: ValidParts(p) && s == Join(p) && |p.whole| <= 16 && TextValue(p) <= 1_000_000_000_000_000.0
  {
    AcceptsAmountExactly(s);
    TextDenotes(s);
    if Split(s).Some? {
      var p := Split(s).value;
      SplitJoin(s, p);
      CapExactly(ReadAmount(s).value, None);
      assert ValidParts(p) && s == Join(p);
      forall q: Parts | ValidParts(q) && s == Join(q) ensures q == p {
        SplitJoin(s, q);
      }
    }
  }

  /** The invariant check passes exactly for a rate in range and three amounts of which fee and net make up the gross. */
  lemma {:induction false} InvariantsExactly(gross: Text, fee: Text, net: Text, feeBps: int)
    ensures InvariantsHold(gross, fee, net, feeBps) <==>
            && 0 <= feeBps <= 10_000
            && ReadAmount(gross).Some? && ReadAmount(fee).Some? && ReadAmount(net).Some?
            && Value(ReadAmount(fee).value) + Value(ReadAmount(net).value) == Value(ReadAmount(gross).value)
            && Value(ReadAmount(net).value) <= Value(ReadAmount(gross).value)
  {
    if ReadAmount(gross).Some? && ReadAmount(fee).Some? && ReadAmount(net).Some? {
      var g, f, n := ReadAmount(gross).value, ReadAmount(fee).value, ReadAmount(net).value;
      PlusIsSum(f, n);
      OrderIsNumeric(Plus(f, n), g);
      OrderIsNumeric(n, g);
    }
  }

  // ---------- the rate applied ----------

  /** The whole basis points left of a base rate after a discount: none when the discount is larger. */
  function Left(feeBps: int, discount: real): real {
    if discount > feeBps as real then 0.0 else feeBps as real - discount
  }

  /**
   With tier i winning, the rate applied is the base rate less that tier's
   discount, and 0 when the discount is larger; with no tier reached, or no
   volume, it is the base rate. The record states rate, base rate, discount and
   volume.
   */
  lemma {:induction false} RateApplied(amount: Text, feeBps: int, volume: real, tiers: seq<Tier>, decimals: Option<nat>)
    requires ReadAmount(amount).Some? && Compute(amount, feeBps, volume, tiers, decimals).Ok?
    ensures 0 <= feeBps <= 10_000 && volume >= 0.0
    ensures var s := Compute(amount, feeBps, volume, tiers, decimals).amounts.snapshot;
            && s.maxFeeBpsApplied == feeBps && s.monthlyVolume == volume
            && s.feeBpsApplied == AppliedBps(feeBps, volume, tiers)
            && s.feeBpsApplied + s.discountApplied == feeBps
            && (forall i :: 0 <= i < |tiers| && volume > 0.0 && Wins(volume, tiers, i) ==>
                  s.feeBpsApplied as real == Left(feeBps, tiers[i].discountBps))
            && (volume <= 0.0 || (forall i :: 0 <= i < |tiers| ==> volume < tiers[i].volumeUsd) ==> s.feeBpsApplied == feeBps)
  {
    StoredAmounts(amount, feeBps, volume, tiers, decimals);
    forall i | 0 <= i < |tiers| && volume > 0.0 && Wins(volume, tiers, i)
      ensures ResolveVolumeDiscount(volume, tiers) == tiers[i].discountBps
    {
      DiscountOfWinner(volume, tiers, i);
    }
    if volume <= 0.0 || forall i :: 0 <= i < |tiers| ==> volume < tiers[i].volumeUsd {
      NoDiscount(volume, tiers);
    }
  }

  // ---------- the fee ----------

  lemma {:induction false} TenthOfProduct(y: real, b: real)
    ensures (y * b) / 10.0 == (y / 10.0) * b
  {
  }

  lemma {:induction false} TenthsTimes(x: real, b: real, k: nat)
    ensures Tenths(x * b, k) == Tenths(x, k) * b
  {
    if k > 0 {
      TenthsTimes(x, b, k - 1);
      TenthOfProduct(Tenths(x, k - 1), b);
    }
  }

  lemma {:induction false} RealProduct(a: nat, b: nat)
    ensures (a * b) as real == a as real * b as real
  {
  }

  lemma {:induction false} ProductValue(units: nat, scale: nat, bps: nat)
    ensures Value(Dec(units * bps, scale)) == Value(Dec(units, scale)) * bps as real
  {
    RealProduct(units, bps);
    TenthsTimes(units as real, bps as real, scale);
  }

  /** How many decimals of the exact fee are kept: the amount's own, at most 20. */
  function KeptDecimals(scale: nat): nat {
    if scale > 20 then 20 else scale
  }

  lemma {:induction false} GrainValue(scale: nat)
    ensures Value(Dec(Grain(scale), scale)) == Tenths(1.0, KeptDecimals(scale))
  {
    var dropped := scale - KeptDecimals(scale);
    ShiftedIs(1, dropped);
    TenthsTwice(Grain(scale) as real, dropped, KeptDecimals(scale));
    TenthsShifted(1, dropped);
  }

  /** gross x rate / 10000 rounded down to some number of places. */
  predicate RoundedDown(fee: real, gross: real, bps: nat, places: nat) {
    fee <= gross * bps as real / 10_000.0 < fee + Tenths(1.0, places)
  }

  lemma {:induction false} Between(a: nat, low: nat, high: nat, k: nat)
    requires low <= a < high
    ensures Tenths(low as real, k) <= Tenths(a as real, k) < Tenths(high as real, k)
  {
    TenthsOrder(low as real, a as real, k);
    TenthsOrder(high as real, a as real, k);
  }

  lemma {:induction false} TenThousandTenths(x: real, k: nat)
    ensures Tenths(10_000.0 * x, k) == 10_000.0 * Tenths(x, k)
  {
    if k > 0 {
      TenThousandTenths(x, k - 1);
    }
  }

  lemma {:induction false} TenThousandTimes(n: nat, k: nat)
    ensures Tenths((n * 10_000) as real, k) == 10_000.0 * Tenths(n as real, k)
  {
    assert (n * 10_000) as real == 10_000.0 * n as real;
    TenThousandTenths(n as real, k);
  }

  lemma {:induction false} Hundredths(f: real, step: real, v: real)
    requires f * 10_000.0 <= v < (f + step) * 10_000.0
    ensures f <= v / 10_000.0 < f + step
  {
  }

  lemma {:induction false} FeeBracket(exact: nat, fee: nat, scale: nat)
    requires fee * 10_000 <= exact < (fee + Grain(scale)) * 10_000
    ensures var f := Tenths(fee as real, scale);
            f <= Tenths(exact as real, scale) / 10_000.0 < f + Tenths(1.0, KeptDecimals(scale))
  {
    var grain := Grain(scale);
    Between(exact, fee * 10_000, (fee + grain) * 10_000, scale);
    TenThousandTimes(fee, scale);
    TenThousandTimes(fee + grain, scale);
    TenthsAdd(fee as real, grain as real, scale);
    GrainValue(scale);
    Hundredths(Tenths(fee as real, scale), Tenths(1.0, KeptDecimals(scale)), Tenths(exact as real, scale));
  }

  lemma {:induction false} FeeByValue(g: Dec, fee: nat, bps: nat)
    requires FeeIsFloor(g, fee, bps)
    ensures RoundedDown(Value(Dec(fee, g.scale)), Value(g), bps, KeptDecimals(g.scale))
  {
    FeeBracket(g.units * bps, fee, g.scale);
    ProductValue(g.units, g.scale, bps);
  }

  /** Fee and net, printed with the input's decimals, make up the gross; the fee is rounded down at its last decimal, or the 20th. */
  predicate SplitsGross(r: Amounts, g: Dec, bps: nat) {
    && ReadAmount(r.fee).Some? && ReadAmount(r.net).Some?
    && var f, n := ReadAmount(r.fee).value, ReadAmount(r.net).value;
       && f.scale == n.scale == g.scale
       && Value(f) + Value(n) == Value(g)
       && RoundedDown(Value(f), Value(g), bps, KeptDecimals(g.scale))
  }

  lemma {:induction false} StoredSplits(r: Amounts, g: Dec, fee: nat, bps: nat)
    requires StoredAs(r, g, fee) && FeeIsFloor(g, fee, bps)
    ensures SplitsGross(r, g, bps)
  {
    TenthsAdd(fee as real, (g.units - fee) as real, g.scale);
    FeeByValue(g, fee, bps);
  }

  /** The stored amounts as numbers, for every amount, rate, volume and tier list that computes. */
  lemma {:induction false} StoredByValue(amount: Text, feeBps: int, volume: real, tiers: seq<Tier>, decimals: Option<nat>)
    requires ReadAmount(amount).Some? && Compute(amount, feeBps, volume, tiers, decimals).Ok?
    ensures var r := Compute(amount, feeBps, volume, tiers, decimals).amounts;
            r.gross == amount && r.snapshot.feeBpsApplied >= 0 &&
            SplitsGross(r, ReadAmount(amount).value, r.snapshot.feeBpsApplied)
  {
    var g, bps := ReadAmount(amount).value, AppliedBps(feeBps, volume, tiers);
    StoredAmounts(amount, feeBps, volume, tiers, decimals);
    StoredSplits(Compute(amount, feeBps, volume, tiers, decimals).amounts, g, FeeUnits(g.units, g.scale, bps), bps);
  }

  // ---------- the reconcile checks ----------

  lemma {:induction false} FloorOf(e: int, x: real)
    requires e as real <= x < e as real + 1.0
    ensures x.Floor == e
  {
  }

  lemma {:induction false} BpsOfUnit(e: nat, k: nat)
    ensures Shifted(10_000 * e, k) == e * (Pow10(k) * BPS)
    ensures Shifted(10_000 * (e + 1), k) == e * (Pow10(k) * BPS) + Pow10(k) * BPS
  {
    ShiftedIs(10_000 * e, k);
    ShiftedIs(10_000 * (e + 1), k);
    Rebracketed(e, Pow10(k));
  }

  lemma {:induction false} Rebracketed(e: nat, p: nat)
    ensures (10_000 * e) * p == e * (p * BPS)
    ensures (10_000 * (e + 1)) * p == e * (p * BPS) + p * BPS
  {
    assert (10_000 * (e + 1)) * p == (10_000 * e) * p + 10_000 * p;
  }

  /** A number of units bracketed at a scale is bracketed as a value. */
  lemma {:induction false} Bracketed(a: nat, k: nat, low: nat, high: nat)
    ensures Shifted(low, k) <= a <==> low as real <= Tenths(a as real, k)
    ensures a < Shifted(high, k) <==> Tenths(a as real, k) < high as real
  {
    TenthsShifted(low, k);
    TenthsShifted(high, k);
    TenthsOrder(Shifted(low, k) as real, a as real, k);
    TenthsOrder(Shifted(high, k) as real, a as real, k);
  }

  /** The expected fee is gross x rate / 10000, floored to whole units. */
  lemma {:induction false} ExpectedFeeIs(g: Dec, bps: nat)
    ensures ExpectedFee(g, bps) == (Value(g) * bps as real / 10_000.0).Floor
  {
    var e, a := ExpectedFee(g, bps), g.units * bps;
    ExpectedFeeFloor(g, bps);
    BpsOfUnit(e, g.scale);
    Bracketed(a, g.scale, 10_000 * e, 10_000 * (e + 1));
    ProductValue(g.units, g.scale, bps);
    FloorOf(e, Value(Dec(a, g.scale)) / 10_000.0);
  }

  lemma {:induction false} FeeAgreesExactly(g: Dec, f: Dec, bps: nat)
    ensures FeeAgrees(g, f, bps) <==> -1.0 <= Value(f) - ExpectedFee(g, bps) as real <= 1.0
  {
    var e, k := ExpectedFee(g, bps), f.scale;
    ShiftedIs(e, k);
    ShiftedIs(1, k);
    TenthsShifted(e, k);
    TenthsShifted(1, k);
    WithinOne(Shifted(e, k), f.units, Shifted(1, k), k);
  }

  lemma {:induction false} WithinOne(expected: nat, fee: nat, one: nat, k: nat)
    ensures expected - fee <= one <==> Tenths(expected as real, k) - Tenths(fee as real, k) <= Tenths(one as real, k)
    ensures fee - expected <= one <==> Tenths(fee as real, k) - Tenths(expected as real, k) <= Tenths(one as real, k)
  {
    TenthsAdd(fee as real, one as real, k);
    TenthsAdd(expected as real, one as real, k);
    TenthsOrder(expected as real, fee as real + one as real, k);
    TenthsOrder(fee as real, expected as real + one as real, k);
  }

  lemma {:induction false} NetAgreesExactly(g: Dec, f: Dec, n: Dec)
    ensures NetAgrees(g, f, n) <==> Value(f) + Value(n) == Value(g)
  {
    PlusIsSum(f, n);
    OrderIsNumeric(Plus(f, n), g);
  }

  /** A fee within one unit of gross x rate / 10000 floored to whole units. */
  predicate NearFloor(fee: real, gross: real, bps: nat) {
    var expected := (gross * bps as real / 10_000.0).Floor as real;
    expected - 1.0 <= fee <= expected + 1.0
  }

  lemma {:induction false} FeeNearFloor(g: Dec, f: Dec, bps: nat)
    ensures FeeAgrees(g, f, bps) <==> NearFloor(Value(f), Value(g), bps)
  {
    ExpectedFeeIs(g, bps);
    FeeAgreesExactly(g, f, bps);
  }

  /** The number in a stored text, 0 when it is not one. */
  function Stored(t: Text): real {
    Value(ReadOrZero(t))
  }

  /**
   Exactly what the two amount checks report: a mismatch when fee and net do
   not make up the gross; otherwise a wrong fee when it is more than one unit
   from the expected fee.
   */
  lemma {:induction false} CheckExactly(gross: Text, fee: Text, net: Text, bps: nat)
    ensures Check(gross, fee, net, bps) == AmountMismatch <==> Stored(fee) + Stored(net) != Stored(gross)
    ensures Check(gross, fee, net, bps) == FeeCalculation <==>
            Stored(fee) + Stored(net) == Stored(gross) && !NearFloor(Stored(fee), Stored(gross), bps)
  {
    NetAgreesExactly(ReadOrZero(gross), ReadOrZero(fee), ReadOrZero(net));
    FeeNearFloor(ReadOrZero(gross), ReadOrZero(fee), bps);
  }

  /** What a stored text counts for: the number it denotes, or 0 for anything that is not an amount. */
  lemma {:induction false} StoredExactlyDenotes(t: Text)
    ensures (forall p: Parts :: ValidParts(p) && t == Join(p) ==> Stored(t) == TextValue(p))
    ensures (forall p: Parts :: ValidParts(p) ==> t != Join(p)) ==> Stored(t) == 0.0
  {
    TextDenotes(t);
  }
}
