/** Fee arithmetic of the settlement engine on exact decimals. */
module SettlementAmounts {
  import opened Options
  import opened Text
  import opened Arith
  import opened Decimals
  import opened AmountStrings
  import opened FeeTiers

  // ---------- decimals ----------

  /** A non-negative decimal: units / 10^scale. */
  datatype Dec = Dec(units: nat, scale: nat)

  /** Numeric order, whatever the scales. */
  predicate AtMost(a: Dec, b: Dec) {
    Shifted(a.units, b.scale) <= Shifted(b.units, a.scale)
  }

  predicate SameNumber(a: Dec, b: Dec) {
    AtMost(a, b) && AtMost(b, a)
  }

  function Plus(a: Dec, b: Dec): Dec {
    Dec(Shifted(a.units, b.scale) + Shifted(b.units, a.scale), a.scale + b.scale)
  }

  /** `new BigNumber(s)` for an amount string. */
  function AmountOf(p: Parts): Dec
    requires ValidParts(p)
  {
    Dec(NumberOf(p.whole + p.frac), |p.frac|)
  }

  function ReadAmount(s: Text): Option<Dec> {
    match Split(s)
    case None => None
    case Some(p) => SplitJoin(s, p); Some(AmountOf(p))
  }

  const DIVISION_PLACES := 20
  const BPS := 10_000

  /** `dividedBy(10000)`: BigNumber keeps 20 places, rounding down. */
  function DivideByBps(a: Dec): Dec {
    Dec(Quot(Shifted(a.units, DIVISION_PLACES), Pow10(a.scale) * BPS), DIVISION_PLACES)
  }

  /** The digits of `toFixed(places, ROUND_DOWN)` read as one number. */
  function FixedUnits(a: Dec, places: nat): nat {
    Quot(Shifted(a.units, places), Pow10(a.scale))
  }

  /** The text of `toFixed(places)` for a number of `units` at that many places. */
  function FixedText(units: nat, places: nat): Text {
    Join(Pointed(FixedDigits(units, places), places))
  }

  /** At least one digit before the point, and `places` after it. */
  function FixedDigits(units: nat, places: nat): (digits: Text)
    ensures AllDigits(digits) && |digits| > places && NumberOf(digits) == units
  {
    ValueToDec(units);
    ValuePadStart(ToDec(units), places + 1);
    PadStart(ToDec(units), places + 1)
  }

  function Pointed(digits: Text, places: nat): Parts
    requires places < |digits|
  {
    Parts(digits[..|digits| - places], digits[|digits| - places..])
  }

  // ---------- limits ----------

  const MAX_DIGITS := 16

  /** "1000000000000000", the legacy cap 10^15. */
  const MAX_TEXT: Text := [49] + Zeros(15)

  predicate AllZeros(t: Text) {
    forall i :: 0 <= i < |t| ==> t[i] == 48
  }

  /** The refinement of `SettlementAmountString`, a comparison of digit strings. */
  predicate AcceptsAmount(s: Text) {
    match Split(s)
    case None => false
    case Some(p) =>
      if |p.whole| > MAX_DIGITS then false
      else if |p.whole| < MAX_DIGITS then true
      else if Before(MAX_TEXT, p.whole) then false
      else if Before(p.whole, MAX_TEXT) then true
      else AllZeros(p.frac)
  }

  /** `getMaxSettlementAmountForAsset`: 10^8 x 10^decimals, or 10^15 when the asset has no known precision. */
  function MaxAmount(decimals: Option<nat>): Dec {
    match decimals
    case None => Dec(Pow10(15), 0)
    case Some(d) => Dec(Pow10(8) * Pow10(d), 0)
  }

  // ---------- the computation ----------

  datatype Snapshot = Snapshot(feeBpsApplied: int, maxFeeBpsApplied: int, discountApplied: int, monthlyVolume: real)

  datatype Amounts = Amounts(gross: Text, fee: Text, net: Text, snapshot: Snapshot)

  datatype Outcome =
    | Ok(amounts: Amounts)
    | TooLarge
    | InvalidSnapshot
    | InvariantViolated

  function Max(a: int, b: int): int {
    if a >= b then a else b
  }

  predicate InBps(x: int) {
    0 <= x <= BPS
  }

  /** `feeSnapshotSchema`. */
  predicate ValidSnapshot(s: Snapshot) {
    InBps(s.feeBpsApplied) && InBps(s.maxFeeBpsApplied) && InBps(s.discountApplied) && s.monthlyVolume >= 0.0
  }

  /** `assertSettlementInvariants`, on the texts about to be stored. */
  predicate InvariantsHold(gross: Text, fee: Text, net: Text, feeBps: int) {
    InBps(feeBps) && AddsUp(ReadAmount(gross), ReadAmount(fee), ReadAmount(net))
  }

  predicate AddsUp(g: Option<Dec>, f: Option<Dec>, n: Option<Dec>) {
    && g.Some? && f.Some? && n.Some?
    && SameNumber(Plus(f.value, n.value), g.value)
    && AtMost(n.value, g.value)
  }

  /** The fee in units of the last place of a gross amount of N units at d places. */
  function FeeUnits(units: nat, scale: nat, bps: nat): nat {
    FixedUnits(DivideByBps(Dec(units * bps, scale)), scale)
  }

  /** The discount, clamped to the base rate. */
  function AppliedDiscount(feeBps: int, volume: real, tiers: seq<Tier>): real {
    var discount := ResolveVolumeDiscount(volume, tiers);
    if discount <= feeBps as real then discount else feeBps as real
  }

  /** The snapshot schema admits whole numbers of basis points only. */
  predicate IsWhole(bps: real) {
    bps == bps.Floor as real
  }

  /** The rate applied: the base rate less a discount clamped to it. */
  function AppliedBps(feeBps: int, volume: real, tiers: seq<Tier>): int {
    Max(0, feeBps - AppliedDiscount(feeBps, volume, tiers).Floor)
  }

  /** `computeSettlementAmounts` for a validated amount string. */
  function Compute(amount: Text, feeBps: int, volume: real, tiers: seq<Tier>, decimals: Option<nat>): Outcome
    requires ReadAmount(amount).Some?
  {
    var gross := ReadAmount(amount).value;
    if !AtMost(gross, MaxAmount(decimals)) then TooLarge
    else if !IsWhole(AppliedDiscount(feeBps, volume, tiers)) then InvalidSnapshot
    else ComputeAt(amount, gross, SnapshotFor(feeBps, volume, tiers))
  }

  function SnapshotFor(feeBps: int, volume: real, tiers: seq<Tier>): Snapshot {
    Snapshot(AppliedBps(feeBps, volume, tiers), feeBps, AppliedDiscount(feeBps, volume, tiers).Floor, volume)
  }

  /** Fee and net of a gross amount within the cap, under the rate of a snapshot. */
  function ComputeAt(amount: Text, gross: Dec, snapshot: Snapshot): Outcome {
    if !ValidSnapshot(snapshot) then InvalidSnapshot
    else
      var fee := FeeUnits(gross.units, gross.scale, snapshot.feeBpsApplied);
      FeeBounds(gross.units, gross.scale, snapshot.feeBpsApplied);
      Finish(amount, FixedText(fee, gross.scale), FixedText(gross.units - fee, gross.scale), snapshot)
  }

  /** The last check before the amounts are returned. */
  function Finish(gross: Text, fee: Text, net: Text, snapshot: Snapshot): Outcome {
    if InvariantsHold(gross, fee, net, snapshot.maxFeeBpsApplied)
    then Ok(Amounts(gross, fee, net, snapshot))
    else InvariantViolated
  }

  // ---------- both round-downs ----------

  /** How many places of the exact fee survive both round-downs. */
  function KeptPlaces(scale: nat): nat {
    if scale <= DIVISION_PLACES then scale else DIVISION_PLACES
  }

  /** One unit of the last kept place, in units of the amount's own last place. */
  function Grain(scale: nat): (g: nat)
    ensures g > 0
  {
    Pow10(scale - KeptPlaces(scale))
  }

  /** The two nested round-downs are one: the fee is the exact product floored to the kept places. */
  lemma {:induction false} FeeUnitsFloor(units: nat, scale: nat, bps: nat)
    ensures BPS * Grain(scale) > 0
    ensures FeeUnits(units, scale, bps) == Quot(units * bps, BPS * Grain(scale)) * Grain(scale)
  {
    var a, d := units * bps, scale;
    if d <= DIVISION_PLACES {
      FeeUnitsShort(a, d);
    } else {
      FeeUnitsLong(a, d);
    }
  }

  /** Both floors when the scale 10^d = x is a factor of the division's 10^20 = x * y. */
  lemma {:induction false} FloorsShort(a: nat, x: nat, y: nat)
    requires x > 0 && y > 0
    ensures x * BPS > 0 && x * y > 0
    ensures Quot(Quot(a * (x * y), x * BPS) * x, x * y) == Quot(a, BPS)
  {
    assert a * (x * y) == (a * y) * x && x * BPS == BPS * x && x * y == y * x;
    QuotCancel(a * y, BPS, x);
    var q := Quot(a * y, BPS);
    QuotCancel(q, y, x);
    QuotQuot(a * y, BPS, y);
    QuotCancel(a, BPS, y);
  }

  /** Both floors when the scale 10^d = x * y is a multiple of the division's 10^20 = x. */
  lemma {:induction false} FloorsLong(a: nat, x: nat, y: nat)
    requires x > 0 && y > 0
    ensures x * y * BPS > 0 && BPS * y > 0
    ensures Quot(Quot(a * x, x * y * BPS) * (x * y), x) == Quot(a, BPS * y) * y
  {
    assert x * y * BPS == (BPS * y) * x;
    QuotCancel(a, BPS * y, x);
    var q := Quot(a, BPS * y);
    assert q * (x * y) == (q * y) * x;
    QuotUnique(q * (x * y), x, q * y);
  }

  lemma {:induction false} TwoFloors(a: nat, d: nat)
    ensures FixedUnits(DivideByBps(Dec(a, d)), d)
         == Quot(Quot(a * Pow10(DIVISION_PLACES), Pow10(d) * BPS) * Pow10(d), Pow10(DIVISION_PLACES))
  {
    ShiftedIs(a, DIVISION_PLACES);
    ShiftedIs(DivideByBps(Dec(a, d)).units, d);
  }

  lemma {:induction false} FeeUnitsShort(a: nat, d: nat)
    requires d <= DIVISION_PLACES
    ensures FixedUnits(DivideByBps(Dec(a, d)), d) == Quot(a, BPS)
  {
    Pow10Add(d, DIVISION_PLACES - d);
    TwoFloors(a, d);
    FloorsShort(a, Pow10(d), Pow10(DIVISION_PLACES - d));
  }

  lemma {:induction false} FeeUnitsLong(a: nat, d: nat)
    requires d > DIVISION_PLACES
    ensures BPS * Pow10(d - DIVISION_PLACES) > 0
    ensures FixedUnits(DivideByBps(Dec(a, d)), d) ==
            Quot(a, BPS * Pow10(d - DIVISION_PLACES)) * Pow10(d - DIVISION_PLACES)
  {
    Pow10Add(DIVISION_PLACES, d - DIVISION_PLACES);
    TwoFloors(a, d);
    FloorsLong(a, Pow10(DIVISION_PLACES), Pow10(d - DIVISION_PLACES));
  }

  /** The fee never exceeds the exact product and falls short of it by less than one unit of the last kept place. */
  lemma {:induction false} FeeBounds(units: nat, scale: nat, bps: nat)
    requires bps <= BPS
    ensures FeeUnits(units, scale, bps) * BPS <= units * bps
    ensures units * bps < (FeeUnits(units, scale, bps) + Grain(scale)) * BPS
    ensures FeeUnits(units, scale, bps) <= units
  {
    FeeUnitsFloor(units, scale, bps);
    Division(units * bps, BPS * Grain(scale));
    FloorBounds(units, bps, Grain(scale), Quot(units * bps, BPS * Grain(scale)));
  }

  lemma {:induction false} FloorBounds(units: nat, bps: nat, g: nat, q: nat)
    requires bps <= BPS && q * (BPS * g) <= units * bps < q * (BPS * g) + BPS * g
    ensures (q * g) * BPS <= units * bps < (q * g + g) * BPS
    ensures q * g <= units
  {
    assert q * (BPS * g) == (q * g) * BPS;
    MulMono(bps, BPS, units);
    assert (q * g) * BPS <= units * BPS;
  }

  // ---------- the amount pattern ----------

  lemma {:induction false} LeadingPartDecides(x: nat, f: nat, y: nat, g: nat, p: nat)
    requires f < p && g < p
    ensures x * p + f < y * p + g <==> x < y || (x == y && f < g)
  {
    MulMono(x + 1, y, p);
    MulMono(y + 1, x, p);
    assert (x + 1) * p == x * p + p && (y + 1) * p == y * p + p;
  }

  /** On digit strings of one length the order of JavaScript strings is the numeric order. */
  lemma {:induction false} BeforeNumeric(a: Text, b: Text)
    requires AllDigits(a) && AllDigits(b) && |a| == |b|
    ensures Before(a, b) <==> NumberOf(a) < NumberOf(b)
  {
    if a != [] {
      var x, y := a[1..], b[1..];
      BeforeNumeric(x, y);
      FrontDigit(a);
      FrontDigit(b);
      ValueBound(x);
      ValueBound(y);
      LeadingPartDecides(a[0] - 48, NumberOf(x), b[0] - 48, NumberOf(y), Pow10(|x|));
    }
  }

  lemma {:induction false} FrontDigit(t: Text)
    requires AllDigits(t) && t != []
    ensures NumberOf(t) == (t[0] - 48) * Pow10(|t| - 1) + NumberOf(t[1..])
  {
    if |t| > 1 {
      var c := t[..|t| - 1];
      FrontDigit(c);
      assert t[1..][..|t| - 2] == c[1..];
      TimesTen(t[0] - 48, Pow10(|t| - 2));
    } else {
      assert t[..0] == [];
    }
  }

  lemma {:induction false} ZeroDigits(t: Text)
    requires AllDigits(t)
    ensures AllZeros(t) <==> NumberOf(t) == 0
  {
    if t != [] {
      ZeroDigits(t[..|t| - 1]);
      assert AllZeros(t) <==> AllZeros(t[..|t| - 1]) && t[|t| - 1] == 48;
    }
  }

  lemma {:induction false} MaxTextValue()
    ensures AllDigits(MAX_TEXT) && |MAX_TEXT| == MAX_DIGITS && NumberOf(MAX_TEXT) == Pow10(15)
  {
    ValueAppendZeros([49], 15);
    assert [49][..0] == [];
  }

  /** The digit-string refinement accepts exactly the amounts of at most 16 integer digits and value at most 10^15. */
  lemma {:induction false} AcceptsAmountExactly(s: Text)
    ensures AcceptsAmount(s) <==>
            Split(s).Some? && |Split(s).value.whole| <= MAX_DIGITS && AtMost(ReadAmount(s).value, MaxAmount(None))
  {
    if Split(s).Some? {
      SplitJoin(s, Split(s).value);
      AcceptsPartsExactly(Split(s).value);
    }
  }

  predicate AcceptsParts(p: Parts) {
    |p.whole| < MAX_DIGITS ||
    (|p.whole| == MAX_DIGITS && !Before(MAX_TEXT, p.whole) && (Before(p.whole, MAX_TEXT) || AllZeros(p.frac)))
  }

  lemma {:induction false} AtMostMax(p: Parts)
    requires ValidParts(p)
    ensures AtMost(AmountOf(p), MaxAmount(None)) <==>
            NumberOf(p.whole) < Pow10(15) || (NumberOf(p.whole) == Pow10(15) && NumberOf(p.frac) == 0)
  {
    ValueConcat(p.whole, p.frac);
    ValueBound(p.frac);
    ShiftedIs(Pow10(15), |p.frac|);
    LeadingPartDecides(Pow10(15), 0, NumberOf(p.whole), NumberOf(p.frac), Pow10(|p.frac|));
  }

  lemma {:induction false} AcceptsPartsExactly(p: Parts)
    requires ValidParts(p)
    ensures AcceptsParts(p) <==> |p.whole| <= MAX_DIGITS && AtMost(AmountOf(p), MaxAmount(None))
  {
    AtMostMax(p);
    ZeroDigits(p.frac);
    if |p.whole| == MAX_DIGITS {
      MaxTextValue();
      BeforeNumeric(MAX_TEXT, p.whole);
      BeforeNumeric(p.whole, MAX_TEXT);
    } else if |p.whole| < MAX_DIGITS {
      ValueBound(p.whole);
      Pow10Monotone(|p.whole|, 15);
    }
  }

  /** The refinement counts leading zeros as digits: it refuses this text although its value is 1. */
  lemma {:induction false} LeadingZerosRefused()
    ensures ReadAmount(Zeros(16) + [49]) == Some(Dec(1, 0))
    ensures !AcceptsAmount(Zeros(16) + [49])
  {
    var t := Zeros(16) + [49];
    SplitJoin(t, Parts(t, []));
    ValueZeros(16);
    assert t + [] == t && t[..16] == Zeros(16);
  }

  // ---------- printed amounts read back ----------

  lemma {:induction false} JoinReads(p: Parts)
    requires ValidParts(p)
    ensures ReadAmount(Join(p)) == Some(AmountOf(p))
  {
    SplitJoin(Join(p), p);
  }

  lemma {:induction false} PointedAmount(digits: Text, places: nat)
    requires AllDigits(digits) && places < |digits|
    ensures ValidParts(Pointed(digits, places)) && AmountOf(Pointed(digits, places)) == Dec(NumberOf(digits), places)
  {
    assert digits[..|digits| - places] + digits[|digits| - places..] == digits;
  }

  /** A printed amount reads back as itself, with all its places. */
  lemma {:induction false} FixedTextReads(text: Text, units: nat, places: nat)
    requires text == FixedText(units, places)
    ensures ReadAmount(text) == Some(Dec(units, places))
  {
    PointedAmount(FixedDigits(units, places), places);
    JoinReads(Pointed(FixedDigits(units, places), places));
  }

  /** No zero is printed in front that need not be: either one digit stands before the point, or the first is not 0. */
  lemma {:induction false} FixedTextShape(units: nat, places: nat)
    ensures Split(FixedText(units, places)).Some?
    ensures var p := Split(FixedText(units, places)).value; |p.frac| == places && (|p.whole| == 1 || p.whole[0] != 48)
  {
    var p := Pointed(FixedDigits(units, places), places);
    PointedAmount(FixedDigits(units, places), places);
    SplitJoin(FixedText(units, places), p);
  }

  lemma {:induction false} SameScaleOrder(a: nat, b: nat, d: nat)
    ensures AtMost(Dec(a, d), Dec(b, d)) <==> a <= b
  {
    ShiftedOrder(a, b, d);
  }

  lemma {:induction false} SumAtSameScale(a: nat, b: nat, d: nat)
    ensures SameNumber(Plus(Dec(a, d), Dec(b, d)), Dec(a + b, d))
  {
    ShiftedAdds(a, b, d);
    ShiftedTwice(a + b, d, d);
  }

  lemma {:induction false} SplitAddsUp(g: Dec, fee: nat)
    requires fee <= g.units
    ensures AddsUp(Some(g), Some(Dec(fee, g.scale)), Some(Dec(g.units - fee, g.scale)))
  {
    SumAtSameScale(fee, g.units - fee, g.scale);
    SameScaleOrder(g.units - fee, g.units, g.scale);
  }

  lemma {:induction false} FinishReads(gross: Text, f: Text, n: Text, g: Dec, fee: nat, snapshot: Snapshot)
    requires ReadAmount(gross) == Some(g) && fee <= g.units && InBps(snapshot.maxFeeBpsApplied)
    requires ReadAmount(f) == Some(Dec(fee, g.scale)) && ReadAmount(n) == Some(Dec(g.units - fee, g.scale))
    ensures Finish(gross, f, n, snapshot) == Ok(Amounts(gross, f, n, snapshot))
  {
    SplitAddsUp(g, fee);
  }

  /** The check before storing passes for every split of a gross amount into fee and net. */
  lemma {:induction false} FinishAccepts(gross: Text, g: Dec, fee: nat, snapshot: Snapshot, f: Text, n: Text)
    requires ReadAmount(gross) == Some(g) && fee <= g.units && InBps(snapshot.maxFeeBpsApplied)
    requires f == FixedText(fee, g.scale) && n == FixedText(g.units - fee, g.scale)
    ensures Finish(gross, f, n, snapshot) == Ok(Amounts(gross, f, n, snapshot))
    ensures ReadAmount(f) == Some(Dec(fee, g.scale)) && ReadAmount(n) == Some(Dec(g.units - fee, g.scale))
  {
    FixedTextReads(f, fee, g.scale);
    FixedTextReads(n, g.units - fee, g.scale);
    FinishReads(gross, f, n, g, fee, snapshot);
  }

  // ---------- main results ----------

  /** The rate applied never exceeds the base rate and never becomes negative; it and the discount add up to the base rate. */
  lemma {:induction false} AppliedInRange(feeBps: int, volume: real, tiers: seq<Tier>)
    requires InBps(feeBps) && ValidTiers(tiers)
    ensures 0.0 <= AppliedDiscount(feeBps, volume, tiers) <= feeBps as real
    ensures 0 <= AppliedBps(feeBps, volume, tiers) <= feeBps
    ensures AppliedBps(feeBps, volume, tiers) + AppliedDiscount(feeBps, volume, tiers).Floor == feeBps
  {
    SortTiersValid(tiers);
    FirstReachedValid(volume, SortTiers(tiers));
  }

  lemma {:induction false} ComputeAtStores(amount: Text, g: Dec, s: Snapshot)
    requires ReadAmount(amount) == Some(g) && ValidSnapshot(s)
    ensures ComputeAt(amount, g, s).Ok?
    ensures var r := ComputeAt(amount, g, s).amounts;
            r.gross == amount && r.snapshot == s && StoredExactly(r, g, s.feeBpsApplied)
  {
    FeeBounds(g.units, g.scale, s.feeBpsApplied);
    var fee := FeeUnits(g.units, g.scale, s.feeBpsApplied);
    FinishAccepts(amount, g, fee, s, FixedText(fee, g.scale), FixedText(g.units - fee, g.scale));
  }

  /**
   The computation throws exactly for amounts above the cap and for a
   fractional discount: no other rate, volume or tier list makes it fail, and
   the invariant check on the printed texts never rejects what it computed.
   */
  lemma {:induction false} ThrowsExactly(amount: Text, feeBps: int, volume: real, tiers: seq<Tier>, decimals: Option<nat>)
    requires ReadAmount(amount).Some?
    requires InBps(feeBps) && volume >= 0.0 && ValidTiers(tiers)
    ensures Compute(amount, feeBps, volume, tiers, decimals).Ok? <==>
            AtMost(ReadAmount(amount).value, MaxAmount(decimals)) && IsWhole(AppliedDiscount(feeBps, volume, tiers))
    ensures Compute(amount, feeBps, volume, tiers, decimals).TooLarge? <==>
            !AtMost(ReadAmount(amount).value, MaxAmount(decimals))
    ensures !Compute(amount, feeBps, volume, tiers, decimals).InvariantViolated?
  {
    AppliedInRange(feeBps, volume, tiers);
    ComputeAtStores(amount, ReadAmount(amount).value, SnapshotFor(feeBps, volume, tiers));
  }

  predicate WholeTiers(tiers: seq<Tier>) {
    forall i :: 0 <= i < |tiers| ==> IsWhole(tiers[i].discountBps)
  }

  lemma {:induction false} WholeDiscount(volume: real, tiers: seq<Tier>)
    requires WholeTiers(tiers)
    ensures IsWhole(ResolveVolumeDiscount(volume, tiers))
  {
    if tiers != [] && volume > 0.0 {
      if k :| 0 <= k < |tiers| && volume >= tiers[k].volumeUsd {
        var w := WinnerExists(volume, tiers, k);
        DiscountOfWinner(volume, tiers, w);
      } else {
        NoDiscount(volume, tiers);
      }
    }
  }

  /**
   The call without an asset, on an amount the request schema accepted, throws
   exactly when the discount applied is fractional; never with whole tiers.
   */
  lemma {:induction false} NeverThrows(amount: Text, feeBps: int, volume: real, tiers: seq<Tier>)
    requires AcceptsAmount(amount)
    requires InBps(feeBps) && volume >= 0.0 && ValidTiers(tiers)
    ensures ReadAmount(amount).Some?
    ensures Compute(amount, feeBps, volume, tiers, None).Ok? <==> IsWhole(AppliedDiscount(feeBps, volume, tiers))
    ensures WholeTiers(tiers) ==> Compute(amount, feeBps, volume, tiers, None).Ok?
  {
    AcceptsAmountExactly(amount);
    ThrowsExactly(amount, feeBps, volume, tiers, None);
    if WholeTiers(tiers) {
      WholeDiscount(volume, tiers);
    }
  }

  /**
   What is stored: the gross text itself, and a fee and a net text with exactly
   the input's decimals that add up to the gross; the fee is never more than
   gross x rate / 10000 and less than one unit of the last kept place (the
   input's own, or the 20th) below it.
   */
  lemma {:induction false} StoredAmounts(amount: Text, feeBps: int, volume: real, tiers: seq<Tier>, decimals: Option<nat>)
    requires ReadAmount(amount).Some?
    requires Compute(amount, feeBps, volume, tiers, decimals).Ok?
    ensures var r := Compute(amount, feeBps, volume, tiers, decimals).amounts;
            && r.gross == amount && r.snapshot == SnapshotFor(feeBps, volume, tiers)
            && StoredExactly(r, ReadAmount(amount).value, AppliedBps(feeBps, volume, tiers))
  {
    ComputeAtStores(amount, ReadAmount(amount).value, SnapshotFor(feeBps, volume, tiers));
  }

  /** The record holds the rate applied and the exact split of g by the fee at that rate. */
  predicate StoredExactly(r: Amounts, g: Dec, bps: int) {
    && r.snapshot.feeBpsApplied == bps && InBps(bps)
    && StoredAs(r, g, FeeUnits(g.units, g.scale, bps))
    && FeeIsFloor(g, FeeUnits(g.units, g.scale, bps), bps)
  }

  /** The stored fee and net texts read back at the gross amount's scale and add up to it exactly. */
  predicate StoredAs(r: Amounts, g: Dec, fee: nat) {
    fee <= g.units &&
    ReadAmount(r.fee) == Some(Dec(fee, g.scale)) && ReadAmount(r.net) == Some(Dec(g.units - fee, g.scale))
  }

  /** gross x rate / 10000 less the fee is at least 0 and less than one unit of the last kept place. */
  predicate FeeIsFloor(g: Dec, fee: nat, bps: nat) {
    fee * BPS <= g.units * bps < (fee + Grain(g.scale)) * BPS
  }

  /** At one scale a larger gross amount or a higher rate never lowers the fee. */
  lemma {:induction false} FeeMonotone(a: nat, b: nat, scale: nat, low: nat, high: nat)
    requires a <= b && low <= high
    ensures FeeUnits(a, scale, low) <= FeeUnits(b, scale, high)
  {
    var g := Grain(scale);
    FeeUnitsFloor(a, scale, low);
    FeeUnitsFloor(b, scale, high);
    MulMono(a, b, low);
    MulMono(low, high, b);
    QuotMono(a * low, b * high, BPS * g);
    MulMono(Quot(a * low, BPS * g), Quot(b * high, BPS * g), g);
  }

  /** Splitting a gross amount at one scale and rate never raises the total fee. */
  lemma {:induction false} SplittingNeverCostsMore(a: nat, b: nat, scale: nat, bps: nat)
    ensures FeeUnits(a, scale, bps) + FeeUnits(b, scale, bps) <= FeeUnits(a + b, scale, bps)
  {
    FeeUnitsFloor(a, scale, bps);
    FeeUnitsFloor(b, scale, bps);
    FeeUnitsFloor(a + b, scale, bps);
    assert (a + b) * bps == a * bps + b * bps;
    FloorsOfParts(a * bps, b * bps, BPS * Grain(scale), Grain(scale));
  }

  lemma {:induction false} FloorsOfParts(x: nat, y: nat, m: nat, g: nat)
    requires m > 0
    ensures Quot(x, m) * g + Quot(y, m) * g <= Quot(x + y, m) * g
  {
    var p, q, s := Quot(x, m), Quot(y, m), Quot(x + y, m);
    QuotSuperadditive(x, y, m);
    MulMono(p + q, s, g);
    assert (p + q) * g == p * g + q * g;
  }

  // ---------- monotone across scales ----------

  /** Whatever two amounts are written with sa and sb decimals, the smaller never pays more. */
  ghost predicate MonotoneAt(sa: nat, sb: nat, bps: nat) {
    forall a: nat, b: nat :: AtMost(Dec(a, sa), Dec(b, sb)) ==> NoLess(a, sa, b, sb, bps)
  }

  predicate NoLess(a: nat, sa: nat, b: nat, sb: nat, bps: nat) {
    AtMost(Dec(FeeUnits(a, sa, bps), sa), Dec(FeeUnits(b, sb, bps), sb))
  }

  /** A fee on a coarser grid is one on a finer grid, so flooring to the finer one cannot fall below it. */
  lemma {:induction false} CoarserFloor(a: nat, b: nat, bps: nat, x: nat, y: nat, ga: nat, gb: nat, t: nat, qa: nat)
    requires x > 0 && a * y <= b * x && ga * y == t * gb * x
    requires qa * (BPS * ga) <= a * bps
    ensures (qa * t) * (BPS * gb) <= b * bps
  {
    assert ((qa * t) * (BPS * gb)) * x <= b * bps * x by {
      MulMono(qa * (BPS * ga), a * bps, y);
      MulMono(a * y, b * x, bps);
      Rearranged(a, b, bps, x, y, ga, gb, t, qa);
    }
    Cancelled((qa * t) * (BPS * gb), b * bps, x);
  }

  lemma {:induction false} Rearranged(a: nat, b: nat, bps: nat, x: nat, y: nat, ga: nat, gb: nat, t: nat, qa: nat)
    requires ga * y == t * gb * x
    ensures qa * (BPS * ga) * y == ((qa * t) * (BPS * gb)) * x
    ensures a * bps * y == a * y * bps && b * x * bps == b * bps * x
  {
    assert qa * (BPS * ga) * y == qa * BPS * (ga * y);
    assert qa * BPS * (t * gb * x) == ((qa * t) * (BPS * gb)) * x;
  }

  lemma {:induction false} Cancelled(m: nat, n: nat, x: nat)
    requires x > 0 && m * x <= n * x
    ensures m <= n
  {
    MulMono(n + 1, m, x);
    assert (n + 1) * x == n * x + x;
  }

  /** Fees compared as whole numbers: at the sum of both scales. */
  lemma {:induction false} NoLessIs(a: nat, sa: nat, b: nat, sb: nat, bps: nat)
    ensures NoLess(a, sa, b, sb, bps) <==> FeeUnits(a, sa, bps) * Pow10(sb) <= FeeUnits(b, sb, bps) * Pow10(sa)
    ensures AtMost(Dec(a, sa), Dec(b, sb)) <==> a * Pow10(sb) <= b * Pow10(sa)
  {
    ShiftedIs(FeeUnits(a, sa, bps), sb);
    ShiftedIs(FeeUnits(b, sb, bps), sa);
    ShiftedIs(a, sb);
    ShiftedIs(b, sa);
  }

  lemma {:induction false} Grids(sa: nat, sb: nat)
    requires KeptPlaces(sa) <= KeptPlaces(sb)
    ensures Grain(sa) * Pow10(sb) == Pow10(KeptPlaces(sb) - KeptPlaces(sa)) * Grain(sb) * Pow10(sa)
  {
    var t, ga, gb := KeptPlaces(sb) - KeptPlaces(sa), sa - KeptPlaces(sa), sb - KeptPlaces(sb);
    Pow10Add(ga, sb);
    Pow10Add(t, gb);
    Pow10Add(t + gb, sa);
  }

  lemma {:induction false} FloorScaled(f: nat, fb: nat, qa: nat, qb: nat, x: nat, y: nat, ga: nat, gb: nat, t: nat)
    requires f == qa * ga && fb == qb * gb && ga * y == t * gb * x && qa * t <= qb
    ensures f * y <= fb * x
  {
    assert f * y == qa * (ga * y);
    assert qa * (t * gb * x) == (qa * t) * (gb * x);
    MulMono(qa * t, qb, gb * x);
    assert qb * (gb * x) == fb * x;
  }

  /** With at least as many kept places on the larger amount the fee never falls, at any rate and beyond 20 decimals too. */
  lemma {:induction false} FeeMonotoneAcrossScales(a: nat, sa: nat, b: nat, sb: nat, bps: nat)
    requires KeptPlaces(sa) <= KeptPlaces(sb) && AtMost(Dec(a, sa), Dec(b, sb))
    ensures NoLess(a, sa, b, sb, bps)
  {
    var ga, gb, t := Grain(sa), Grain(sb), Pow10(KeptPlaces(sb) - KeptPlaces(sa));
    FeeUnitsFloor(a, sa, bps);
    FeeUnitsFloor(b, sb, bps);
    var qa, qb := Quot(a * bps, BPS * ga), Quot(b * bps, BPS * gb);
    NoLessIs(a, sa, b, sb, bps);
    Grids(sa, sb);
    Division(a * bps, BPS * ga);
    CoarserFloor(a, b, bps, Pow10(sa), Pow10(sb), ga, gb, t, qa);
    QuotBound(b * bps, BPS * gb, qa * t);
    FloorScaled(FeeUnits(a, sa, bps), FeeUnits(b, sb, bps), qa, qb, Pow10(sa), Pow10(sb), ga, gb, t);
  }

  lemma {:induction false} FreeFee(a: nat, sa: nat)
    ensures FeeUnits(a, sa, 0) == 0
  {
    FeeBounds(a, sa, 0);
  }

  lemma {:induction false} FullFee(b: nat, sb: nat)
    requires sb <= DIVISION_PLACES
    ensures FeeUnits(b, sb, BPS) == b
  {
    FeeUnitsShort(b * BPS, sb);
    QuotUnique(b * BPS, BPS, b);
  }

  lemma {:induction false} FeeAtMost(a: nat, sa: nat, b: nat, sb: nat, fee: nat)
    requires AtMost(Dec(a, sa), Dec(b, sb)) && fee <= a
    ensures AtMost(Dec(fee, sa), Dec(b, sb))
  {
    ShiftedOrder(fee, a, sb);
  }

  /** At a rate of nothing, or of everything where no place is dropped, the fee of the larger amount is nothing or the amount itself. */
  lemma {:induction false} FlatRates(a: nat, sa: nat, b: nat, sb: nat, bps: nat)
    requires (bps == 0 || bps == BPS) && sb <= DIVISION_PLACES && AtMost(Dec(a, sa), Dec(b, sb))
    ensures NoLess(a, sa, b, sb, bps)
  {
    if bps == 0 {
      FreeFee(a, sa);
      FreeFee(b, sb);
      ShiftedIs(0, sa);
      ShiftedIs(0, sb);
    } else {
      FeeBounds(a, sa, bps);
      FullFee(b, sb);
      FeeAtMost(a, sa, b, sb, FeeUnits(a, sa, bps));
    }
  }

  /** An amount whose exact fee in its own last place leaves a remainder of a tenth or more. */
  function Witness(bps: nat): nat
    requires bps > 0
  {
    if bps >= 1000 then 1 else Quot(1000 + bps - 1, bps)
  }

  lemma {:induction false} WitnessRemainder(bps: nat)
    requires 0 < bps < BPS
    ensures 1000 <= Witness(bps) * bps < BPS
  {
    if bps < 1000 {
      Division(1000 + bps - 1, bps);
    }
  }

  /** Ten times finer, a floor gains at least one when the remainder is a tenth or more. */
  lemma {:induction false} FinerFloorGains(n: nat, d: nat)
    requires 1000 <= n < BPS && d >= 10
    ensures Quot(n * d, BPS) >= 1 && Quot(n, BPS) == 0
  {
    MulMono(10, d, n);
    assert n * 10 <= n * d;
    QuotBound(n * d, BPS, 1);
    QuotUnique(n, BPS, 0);
  }

  lemma {:induction false} TenOrMore(k: nat)
    requires k > 0
    ensures Pow10(k) >= 10
  {
  }

  lemma {:induction false} TimesGrain(n: nat, bps: nat, d: nat, g: nat)
    ensures n * (d * g) * bps == (n * bps * d) * g
  {
  }

  /** The finer fee of a value whose coarser fee is nothing. */
  lemma {:induction false} FinerFee(sa: nat, sb: nat, bps: nat, n: nat, a: nat)
    requires KeptPlaces(sb) < KeptPlaces(sa) && 1000 <= n * bps < BPS && a == n * Pow10(sa - sb)
    ensures FeeUnits(n, sb, bps) == 0 && FeeUnits(a, sa, bps) > 0
  {
    var d, g := Pow10(KeptPlaces(sa) - sb), Grain(sa);
    TenOrMore(KeptPlaces(sa) - sb);
    FinerFloorGains(n * bps, d);
    FeeUnitsShort(n * bps, sb);
    Pow10Add(KeptPlaces(sa) - sb, sa - KeptPlaces(sa));
    TimesGrain(n, bps, d, g);
    FeeUnitsFloor(a, sa, bps);
    QuotCancel(n * bps * d, BPS, g);
    ProductPositive(Quot(n * bps * d, BPS), g);
  }

  lemma {:induction false} SameValue(n: nat, sa: nat, sb: nat)
    requires sb <= sa
    ensures AtMost(Dec(n * Pow10(sa - sb), sa), Dec(n, sb)) && AtMost(Dec(n, sb), Dec(n * Pow10(sa - sb), sa))
  {
    ShiftedIs(n, sa - sb);
    ShiftedTwice(n, sa - sb, sb);
  }

  lemma {:induction false} NothingIsLess(a: nat, sa: nat, b: nat, sb: nat, bps: nat)
    requires FeeUnits(a, sa, bps) > 0 && FeeUnits(b, sb, bps) == 0
    ensures !NoLess(a, sa, b, sb, bps)
  {
    NoLessIs(a, sa, b, sb, bps);
    ProductPositive(FeeUnits(a, sa, bps), Pow10(sb));
  }

  /** With fewer kept places on the larger amount it can fall, at every other rate: the same value pays strictly less there. */
  lemma {:induction false} FeeFallsWithFewerPlaces(sa: nat, sb: nat, bps: nat)
    requires KeptPlaces(sb) < KeptPlaces(sa) && 0 < bps < BPS
    ensures var n := Witness(bps);
            && AtMost(Dec(n * Pow10(sa - sb), sa), Dec(n, sb)) && AtMost(Dec(n, sb), Dec(n * Pow10(sa - sb), sa))
            && FeeUnits(n, sb, bps) == 0 && FeeUnits(n * Pow10(sa - sb), sa, bps) > 0
            && !NoLess(n * Pow10(sa - sb), sa, n, sb, bps)
  {
    var n := Witness(bps);
    var a := n * Pow10(sa - sb);
    WitnessRemainder(bps);
    FinerFee(sa, sb, bps, n, a);
    SameValue(n, sa, sb);
    NothingIsLess(a, sa, n, sb, bps);
  }

  lemma {:induction false} MonotoneByPlaces(sa: nat, sb: nat, bps: nat)
    requires KeptPlaces(sa) <= KeptPlaces(sb)
    ensures MonotoneAt(sa, sb, bps)
  {
    forall a: nat, b: nat | AtMost(Dec(a, sa), Dec(b, sb))
      ensures NoLess(a, sa, b, sb, bps)
    {
      FeeMonotoneAcrossScales(a, sa, b, sb, bps);
    }
  }

  lemma {:induction false} MonotoneByRate(sa: nat, sb: nat, bps: nat)
    requires (bps == 0 || bps == BPS) && sb <= DIVISION_PLACES
    ensures MonotoneAt(sa, sb, bps)
  {
    forall a: nat, b: nat | AtMost(Dec(a, sa), Dec(b, sb))
      ensures NoLess(a, sa, b, sb, bps)
    {
      FlatRates(a, sa, b, sb, bps);
    }
  }

  lemma {:induction false} NotMonotone(sa: nat, sb: nat, bps: nat, a: nat, b: nat)
    requires AtMost(Dec(a, sa), Dec(b, sb)) && !NoLess(a, sa, b, sb, bps)
    ensures !MonotoneAt(sa, sb, bps)
  {
  }

  /**
   Across scales the fee is monotone exactly when the rate is nothing or
   everything, or the larger amount keeps at least as many places.
   */
  lemma {:induction false} FeeMonotoneExactly(sa: nat, sb: nat, bps: nat)
    requires bps <= BPS
    ensures MonotoneAt(sa, sb, bps) <==> bps == 0 || bps == BPS || KeptPlaces(sa) <= KeptPlaces(sb)
  {
    if KeptPlaces(sa) <= KeptPlaces(sb) {
      MonotoneByPlaces(sa, sb, bps);
    } else if bps == 0 || bps == BPS {
      MonotoneByRate(sa, sb, bps);
    } else {
      FeeFallsWithFewerPlaces(sa, sb, bps);
      NotMonotone(sa, sb, bps, Witness(bps) * Pow10(sa - sb), Witness(bps));
    }
  }
}
