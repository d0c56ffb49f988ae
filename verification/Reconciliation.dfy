/**
 The consistency checks of the reconcile route, and why they accept what the
 bulk path stores.
 */
module Reconciliation {
  import opened Options
  import opened Text
  import opened Arith
  import opened Decimals
  import opened AmountStrings
  import opened FeeTiers
  import opened SettlementAmounts

  datatype Verdict = Consistent | AmountMismatch | FeeCalculation

  /** `parseBN`: what is not a number counts as 0. */
  function ReadOrZero(t: Text): Dec {
    match ReadAmount(t)
    case None => Dec(0, 0)
    case Some(d) => d
  }

  /** Check 1: gross minus fee equals net. */
  predicate NetAgrees(gross: Dec, fee: Dec, net: Dec) {
    SameNumber(Plus(fee, net), gross)
  }

  /** gross x feeBps / 10000, floored to whole units. */
  function ExpectedFee(gross: Dec, feeBps: nat): nat {
    Quot(DivideByBps(Dec(gross.units * feeBps, gross.scale)).units, Pow10(DIVISION_PLACES))
  }

  /** Check 2: the stored fee is within one unit of the expected fee. */
  predicate FeeAgrees(gross: Dec, fee: Dec, feeBps: nat) {
    var one, expected := Pow10(fee.scale), ExpectedFee(gross, feeBps) * Pow10(fee.scale);
    expected - fee.units <= one && fee.units - expected <= one
  }

  /** The two amount checks on one stored settlement. */
  function Check(gross: Text, fee: Text, net: Text, feeBps: nat): Verdict {
    CheckAmounts(ReadOrZero(gross), ReadOrZero(fee), ReadOrZero(net), feeBps)
  }

  function CheckAmounts(g: Dec, f: Dec, n: Dec, feeBps: nat): Verdict {
    if !NetAgrees(g, f, n) then AmountMismatch
    else if !FeeAgrees(g, f, feeBps) then FeeCalculation
    else Consistent
  }

  lemma {:induction false} FloorAbove(q: nat, x: nat, p: nat, e: nat)
    requires p > 0 && e * p <= q
    ensures e * x <= Quot(q * x, p)
  {
    MulMono(e * p, q, x);
    assert (e * p) * x == (e * x) * p;
    QuotBound(q * x, p, e * x);
  }

  lemma {:induction false} FloorBelow(q: nat, x: nat, p: nat, e: nat)
    requires x > 0 && p > 0 && q < e * p
    ensures Quot(q * x, p) < e * x
  {
    MulMono(q + 1, e * p, x);
    assert (q + 1) * x == q * x + x && (e * p) * x == (e * x) * p;
    QuotBound(q * x, p, e * x);
  }

  /** Flooring to whole units and flooring to d places differ by less than one unit, whatever d is. */
  lemma {:induction false} FloorsWithinOne(q: nat, x: nat, p: nat)
    requires x > 0 && p > 0
    ensures Quot(q, p) * x <= Quot(q * x, p) < Quot(q, p) * x + x
  {
    var e := Quot(q, p);
    Division(q, p);
    assert (e + 1) * p == e * p + p && (e + 1) * x == e * x + x;
    FloorAbove(q, x, p, e);
    FloorBelow(q, x, p, e + 1);
  }

  lemma {:induction false} ExpectedFeeClose(g: Dec, bps: nat)
    ensures ExpectedFee(g, bps) * Pow10(g.scale) <= FeeUnits(g.units, g.scale, bps)
    ensures FeeUnits(g.units, g.scale, bps) < ExpectedFee(g, bps) * Pow10(g.scale) + Pow10(g.scale)
  {
    var q := DivideByBps(Dec(g.units * bps, g.scale)).units;
    ShiftedIs(q, g.scale);
    FloorsWithinOne(q, Pow10(g.scale), Pow10(DIVISION_PLACES));
  }

  lemma {:induction false} SplitIsConsistent(g: Dec, bps: nat)
    requires FeeUnits(g.units, g.scale, bps) <= g.units
    ensures var fee := FeeUnits(g.units, g.scale, bps);
            CheckAmounts(g, Dec(fee, g.scale), Dec(g.units - fee, g.scale), bps) == Consistent
  {
    var fee := FeeUnits(g.units, g.scale, bps);
    SumAtSameScale(fee, g.units - fee, g.scale);
    ExpectedFeeClose(g, bps);
  }

  /** Whatever the fee code computed passes both checks under the rate it applied, at any number of decimals. */
  lemma {:induction false} ComputedAmountsReconcile(amount: Text, feeBps: int, volume: real, tiers: seq<Tier>, decimals: Option<nat>)
    requires ReadAmount(amount).Some?
    requires Compute(amount, feeBps, volume, tiers, decimals).Ok?
    ensures var r := Compute(amount, feeBps, volume, tiers, decimals).amounts;
            r.snapshot.feeBpsApplied >= 0 && Check(r.gross, r.fee, r.net, r.snapshot.feeBpsApplied) == Consistent
  {
    StoredAmounts(amount, feeBps, volume, tiers, decimals);
    SplitIsConsistent(ReadAmount(amount).value, AppliedBps(feeBps, volume, tiers));
  }

  // ---------- the single path ----------

  lemma {:induction false} OneUnitApart(e: nat, a: nat, fee: nat, x: nat)
    requires x > 0 && a * x <= fee < a * x + x && a <= e
    ensures e * x - fee <= x <==> e <= a + 1
    ensures fee - e * x <= x
  {
    MulMono(a, e, x);
    if e <= a + 1 {
      MulMono(e, a + 1, x);
    } else {
      MulMono(a + 2, e, x);
    }
    assert (a + 1) * x == a * x + x && (a + 2) * x == a * x + 2 * x;
  }

  lemma {:induction false} ExpectedFeeMonotone(g: Dec, low: nat, high: nat)
    requires low <= high
    ensures ExpectedFee(g, low) <= ExpectedFee(g, high)
  {
    ExpectedFeeFloor(g, low);
    MulMono(low, high, g.units);
    FloorIsLargest(g.units * high, Pow10(g.scale) * BPS, Pow10(DIVISION_PLACES), ExpectedFee(g, low));
    ShiftedIs(g.units * high, DIVISION_PLACES);
  }

  /** The single path's record checked at the undiscounted rate: reported exactly when the whole-unit fees at the two rates differ by two or more. */
  lemma {:induction false} CheckedAtBaseRate(g: Dec, base: nat, applied: nat)
    requires applied <= base <= BPS
    ensures FeeUnits(g.units, g.scale, applied) <= g.units
    ensures var fee := FeeUnits(g.units, g.scale, applied);
            CheckAmounts(g, Dec(fee, g.scale), Dec(g.units - fee, g.scale), base) ==
            if ExpectedFee(g, base) >= ExpectedFee(g, applied) + 2 then FeeCalculation else Consistent
  {
    var fee := FeeUnits(g.units, g.scale, applied);
    FeeBounds(g.units, g.scale, applied);
    SumAtSameScale(fee, g.units - fee, g.scale);
    ExpectedFeeClose(g, applied);
    ExpectedFeeMonotone(g, applied, base);
    OneUnitApart(ExpectedFee(g, base), ExpectedFee(g, applied), fee, Pow10(g.scale));
  }

  /**
   The single-settlement path stores the base rate beside a fee computed at the
   discounted one. Reconcile reports the stored record exactly when the
   whole-unit fees at the two rates differ by two or more, and finds it
   consistent otherwise.
   */
  lemma {:induction false} DiscountedSingleIsReported(amount: Text, feeBps: int, volume: real, tiers: seq<Tier>, decimals: Option<nat>)
    requires ReadAmount(amount).Some? && InBps(feeBps) && ValidTiers(tiers)
    requires Compute(amount, feeBps, volume, tiers, decimals).Ok?
    ensures 0 <= AppliedBps(feeBps, volume, tiers) <= feeBps
    ensures var g := ReadAmount(amount).value;
            var r := Compute(amount, feeBps, volume, tiers, decimals).amounts;
            Check(r.gross, r.fee, r.net, feeBps) ==
            if ExpectedFee(g, feeBps) >= ExpectedFee(g, AppliedBps(feeBps, volume, tiers)) + 2 then FeeCalculation else Consistent
  {
    AppliedInRange(feeBps, volume, tiers);
    StoredAmounts(amount, feeBps, volume, tiers, decimals);
    CheckedAtBaseRate(ReadAmount(amount).value, feeBps, AppliedBps(feeBps, volume, tiers));
  }

  /** It happens: 400 at 100 bps with a 50 bps discount pays 2 where 4 is expected. */
  lemma {:induction false} ReportedExample(volume: real)
    requires volume >= 1000.0
    ensures var amount, tiers := ToDec(400), [Tier(1000.0, 50.0)];
            && ReadAmount(amount) == Some(Dec(400, 0)) && ValidTiers(tiers)
            && Compute(amount, 100, volume, tiers, None).Ok?
            && var r := Compute(amount, 100, volume, tiers, None).amounts;
               Check(r.gross, r.fee, r.net, 100) == FeeCalculation
  {
    var amount, tiers := ToDec(400), [Tier(1000.0, 50.0)];
    WholeAmountReads(400);
    DiscountOfOneTier(volume, tiers[0]);
    Pow10Monotone(3, 15);
    SameScaleOrder(400, Pow10(15), 0);
    ThrowsExactly(amount, 100, volume, tiers, None);
    assert AppliedBps(100, volume, tiers) == 50;
    WholeFee(400, 100, 4);
    WholeFee(400, 50, 2);
    DiscountedSingleIsReported(amount, 100, volume, tiers, None);
  }

  lemma {:induction false} WholeAmountReads(n: nat)
    ensures ReadAmount(ToDec(n)) == Some(Dec(n, 0))
  {
    ValueToDec(n);
    JoinReads(Parts(ToDec(n), []));
    assert ToDec(n) + [] == ToDec(n);
  }

  lemma {:induction false} DiscountOfOneTier(volume: real, t: Tier)
    requires volume >= t.volumeUsd > 0.0
    ensures ResolveVolumeDiscount(volume, [t]) == t.discountBps
  {
    DiscountOfWinner(volume, [t], 0);
  }

  lemma {:induction false} WholeFee(units: nat, bps: nat, fee: nat)
    requires fee * BPS <= units * bps < fee * BPS + BPS
    ensures ExpectedFee(Dec(units, 0), bps) == fee
  {
    ExpectedFeeFloor(Dec(units, 0), bps);
    BracketUnique(units * bps, BPS, ExpectedFee(Dec(units, 0), bps), fee);
  }

  /** The expected fee is the exact product floored to whole units: the 20-place division loses nothing. */
  lemma {:induction false} ExpectedFeeFloor(g: Dec, bps: nat)
    ensures Pow10(g.scale) * BPS > 0
    ensures ExpectedFee(g, bps) * (Pow10(g.scale) * BPS) <= g.units * bps
    ensures g.units * bps < ExpectedFee(g, bps) * (Pow10(g.scale) * BPS) + Pow10(g.scale) * BPS
  {
    ShiftedIs(g.units * bps, DIVISION_PLACES);
    FloorThenFloor(g.units * bps, Pow10(g.scale) * BPS, Pow10(DIVISION_PLACES));
  }

  lemma {:induction false} FloorThenFloor(a: nat, m: nat, p: nat)
    requires m > 0 && p > 0
    ensures var e := Quot(Quot(a * p, m), p); e == Quot(a, m) && e * m <= a < e * m + m
  {
    QuotQuot(a * p, m, p);
    QuotCancel(a, m, p);
    Division(a, m);
  }

  lemma {:induction false} FloorIsLargest(a: nat, m: nat, p: nat, k: nat)
    requires m > 0 && p > 0 && k * m <= a
    ensures k <= Quot(Quot(a * p, m), p)
  {
    FloorThenFloor(a, m, p);
    QuotBound(a, m, k);
  }

  /** Without a discount the two rates are one and the single path reconciles too. */
  lemma {:induction false} UndiscountedSingleReconciles(amount: Text, feeBps: int, volume: real, tiers: seq<Tier>, decimals: Option<nat>)
    requires ReadAmount(amount).Some? && InBps(feeBps)
    requires Compute(amount, feeBps, volume, tiers, decimals).Ok?
    requires ResolveVolumeDiscount(volume, tiers) == 0.0
    ensures var r := Compute(amount, feeBps, volume, tiers, decimals).amounts;
            Check(r.gross, r.fee, r.net, feeBps) == Consistent
  {
    ComputedAmountsReconcile(amount, feeBps, volume, tiers, decimals);
    StoredAmounts(amount, feeBps, volume, tiers, decimals);
  }
}
