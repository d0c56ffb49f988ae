/**
 The bulk route's acceptance loop: each item is checked against the merchant's
 limits and the running total, and its amounts are computed or its rejection
 is recorded. Amounts are compared as exact reals.
 */
module BulkAcceptance {
  import opened Options
  import opened Text
  import opened Decimals
  import opened AmountStrings
  import opened FeeTiers
  import opened SettlementAmounts
  import opened AmountValues
  import Reconciliation

  /** The merchant's limits; a limit that is absent, or not a number, limits nothing. */
  datatype Limits = Limits(min: Option<real>, max: Option<real>, daily: Option<real>)

  datatype Terms = Terms(feeBps: int, monthlyVolume: real, tiers: seq<Tier>, limits: Limits, currentDailyTotal: real)

  datatype Reason = NotPositive | BelowMinimum | AboveMaximum | DailyLimitExceeded | AmountRefused

  datatype Valid = Valid(index: nat, amounts: Amounts)

  datatype Error = Error(index: nat, reason: Reason)

  datatype Ledger = Ledger(valid: seq<Valid>, errors: seq<Error>, batchTotal: real)

  predicate AreAmounts(items: seq<Text>) {
    forall i :: 0 <= i < |items| ==> ReadAmount(items[i]).Some?
  }

  function Worth(amount: Text): (w: real)
    requires ReadAmount(amount).Some?
    ensures w >= 0.0
  {
    ValueNotNegative(ReadAmount(amount).value);
    Value(ReadAmount(amount).value)
  }

  function AmountsOf(amount: Text, t: Terms): Outcome
    requires ReadAmount(amount).Some?
  {
    Compute(amount, t.feeBps, t.monthlyVolume, t.tiers, None)
  }

  /** Why an item is turned away when `total` has been accepted before it, if it is. */
  function Refusal(amount: Text, t: Terms, total: real): Option<Reason>
    requires ReadAmount(amount).Some?
  {
    var w := Worth(amount);
    if w <= 0.0 then Some(NotPositive)
    else if t.limits.min.Some? && w < t.limits.min.value then Some(BelowMinimum)
    else if t.limits.max.Some? && w > t.limits.max.value then Some(AboveMaximum)
    else if t.limits.daily.Some? && t.currentDailyTotal + total + w > t.limits.daily.value then Some(DailyLimitExceeded)
    else if !AmountsOf(amount, t).Ok? then Some(AmountRefused)
    else None
  }

  function TurnAway(l: Ledger, index: nat, reason: Reason): Ledger {
    l.(errors := l.errors + [Error(index, reason)])
  }

  function Take(l: Ledger, index: nat, amounts: Amounts, worth: real): Ledger {
    l.(valid := l.valid + [Valid(index, amounts)], batchTotal := l.batchTotal + worth)
  }

  /** One pass of the loop. */
  function Handled(before: Ledger, index: nat, amount: Text, t: Terms): Ledger
    requires ReadAmount(amount).Some?
  {
    match Refusal(amount, t, before.batchTotal)
    case Some(reason) => TurnAway(before, index, reason)
    case None => Take(before, index, AmountsOf(amount, t).amounts, Worth(amount))
  }

  /** The ledger once the items so far have been handled. */
  function Accepted(items: seq<Text>, t: Terms): Ledger
    requires AreAmounts(items)
  {
    if items == [] then Ledger([], [], 0.0)
    else Handled(Accepted(items[..|items| - 1], t), |items| - 1, items[|items| - 1], t)
  }

  // ---------- what the loop guarantees ----------

  predicate IsValid(l: Ledger, i: nat) {
    exists k :: 0 <= k < |l.valid| && l.valid[k].index == i
  }

  predicate IsError(l: Ledger, i: nat) {
    exists k :: 0 <= k < |l.errors| && l.errors[k].index == i
  }

  predicate InOrder(l: Ledger, n: nat) {
    && (forall j, k :: 0 <= j < k < |l.valid| ==> l.valid[j].index < l.valid[k].index)
    && (forall j, k :: 0 <= j < k < |l.errors| ==> l.errors[j].index < l.errors[k].index)
    && (forall k :: 0 <= k < |l.valid| ==> l.valid[k].index < n)
    && (forall k :: 0 <= k < |l.errors| ==> l.errors[k].index < n)
    && |l.valid| + |l.errors| == n
    && (forall i :: 0 <= i < n ==> !(IsValid(l, i) && IsError(l, i)))
  }

  lemma {:induction false} TakeInOrder(l: Ledger, n: nat, amounts: Amounts, worth: real)
    requires InOrder(l, n)
    ensures InOrder(Take(l, n, amounts, worth), n + 1)
  {
    var m := Take(l, n, amounts, worth);
    forall i | 0 <= i < n + 1
      ensures !(IsValid(m, i) && IsError(m, i))
    {
      if IsValid(m, i) {
        var k :| 0 <= k < |m.valid| && m.valid[k].index == i;
        assert k < |l.valid| ==> l.valid[k].index == i;
        assert k < |l.valid| ==> IsValid(l, i);
      }
    }
  }

  lemma {:induction false} TurnAwayInOrder(l: Ledger, n: nat, reason: Reason)
    requires InOrder(l, n)
    ensures InOrder(TurnAway(l, n, reason), n + 1)
  {
    var m := TurnAway(l, n, reason);
    forall i | 0 <= i < n + 1
      ensures !(IsValid(m, i) && IsError(m, i))
    {
      if IsError(m, i) {
        var k :| 0 <= k < |m.errors| && m.errors[k].index == i;
        assert k < |l.errors| ==> l.errors[k].index == i;
        assert k < |l.errors| ==> IsError(l, i);
      }
    }
  }

  lemma {:induction false} HandledInOrder(before: Ledger, n: nat, amount: Text, t: Terms)
    requires ReadAmount(amount).Some? && InOrder(before, n)
    ensures InOrder(Handled(before, n, amount, t), n + 1)
  {
    match Refusal(amount, t, before.batchTotal)
    case Some(reason) => TurnAwayInOrder(before, n, reason);
    case None => TakeInOrder(before, n, AmountsOf(amount, t).amounts, Worth(amount));
  }

  /** Every item is either accepted or rejected, never both, and both lists keep the order of the request. */
  lemma {:induction false} EveryItemOnce(items: seq<Text>, t: Terms)
    requires AreAmounts(items)
    ensures InOrder(Accepted(items, t), |items|)
  {
    if items != [] {
      var n := |items| - 1;
      EveryItemOnce(items[..n], t);
      HandledInOrder(Accepted(items[..n], t), n, items[n], t);
    }
  }

  function TotalWorth(items: seq<Text>, valid: seq<Valid>): real
    requires AreAmounts(items) && forall k :: 0 <= k < |valid| ==> valid[k].index < |items|
  {
    if valid == [] then 0.0
    else TotalWorth(items, valid[..|valid| - 1]) + Worth(items[valid[|valid| - 1].index])
  }

  /** The amount records carry the computation's own result for their item, and respect the merchant's bounds. */
  predicate Sound(items: seq<Text>, t: Terms, v: Valid)
    requires AreAmounts(items)
  {
    && v.index < |items|
    && AmountsOf(items[v.index], t) == Ok(v.amounts)
    && Worth(items[v.index]) > 0.0
    && (t.limits.min.Some? ==> Worth(items[v.index]) >= t.limits.min.value)
    && (t.limits.max.Some? ==> Worth(items[v.index]) <= t.limits.max.value)
  }

  predicate AllSound(items: seq<Text>, t: Terms, valid: seq<Valid>)
    requires AreAmounts(items)
  {
    forall k :: 0 <= k < |valid| ==> Sound(items, t, valid[k])
  }

  lemma {:induction false} TotalOfPrefix(items: seq<Text>, n: nat, valid: seq<Valid>)
    requires AreAmounts(items) && n <= |items| && forall k :: 0 <= k < |valid| ==> valid[k].index < n
    ensures TotalWorth(items[..n], valid) == TotalWorth(items, valid)
  {
    if valid != [] {
      TotalOfPrefix(items, n, valid[..|valid| - 1]);
    }
  }

  /** What the ledger says of the items so far: sound records, and a total that is the sum over them. */
  predicate Faithful(items: seq<Text>, t: Terms, l: Ledger)
    requires AreAmounts(items)
  {
    AllSound(items, t, l.valid) && l.batchTotal == TotalWorth(items, l.valid)
  }

  lemma {:induction false} FaithfulLater(items: seq<Text>, n: nat, t: Terms, l: Ledger)
    requires AreAmounts(items) && n <= |items| && Faithful(items[..n], t, l)
    ensures Faithful(items, t, l)
  {
    assert forall k :: 0 <= k < |l.valid| ==> Sound(items[..n], t, l.valid[k]);
    TotalOfPrefix(items, n, l.valid);
  }

  lemma {:induction false} SoundIfTaken(items: seq<Text>, n: nat, t: Terms, total: real)
    requires AreAmounts(items) && n < |items| && Refusal(items[n], t, total).None?
    ensures Sound(items, t, Valid(n, AmountsOf(items[n], t).amounts))
  {
  }

  lemma {:induction false} TotalWithOneMore(items: seq<Text>, valid: seq<Valid>, v: Valid)
    requires AreAmounts(items) && v.index < |items| && forall k :: 0 <= k < |valid| ==> valid[k].index < |items|
    ensures TotalWorth(items, valid + [v]) == TotalWorth(items, valid) + Worth(items[v.index])
  {
    assert (valid + [v])[..|valid|] == valid;
  }

  lemma {:induction false} SoundWithOneMore(items: seq<Text>, t: Terms, valid: seq<Valid>, v: Valid)
    requires AreAmounts(items) && AllSound(items, t, valid) && Sound(items, t, v)
    ensures AllSound(items, t, valid + [v])
  {
    forall k | 0 <= k < |valid + [v]|
      ensures Sound(items, t, (valid + [v])[k])
    {
      assert k < |valid| ==> (valid + [v])[k] == valid[k];
    }
  }

  lemma {:induction false} IndicesInRange(items: seq<Text>, t: Terms, valid: seq<Valid>)
    requires AreAmounts(items) && AllSound(items, t, valid)
    ensures forall k :: 0 <= k < |valid| ==> valid[k].index < |items|
  {
    forall k | 0 <= k < |valid|
      ensures valid[k].index < |items|
    {
      assert Sound(items, t, valid[k]);
    }
  }

  lemma {:induction false} TakeFaithful(items: seq<Text>, n: nat, t: Terms, l: Ledger, amounts: Amounts)
    requires AreAmounts(items) && n < |items| && Faithful(items, t, l) && Sound(items, t, Valid(n, amounts))
    ensures Faithful(items, t, Take(l, n, amounts, Worth(items[n])))
  {
    IndicesInRange(items, t, l.valid);
    SoundWithOneMore(items, t, l.valid, Valid(n, amounts));
    TotalWithOneMore(items, l.valid, Valid(n, amounts));
  }

  lemma {:induction false} HandledFaithful(items: seq<Text>, n: nat, t: Terms, l: Ledger)
    requires AreAmounts(items) && n < |items| && Faithful(items, t, l)
    ensures Faithful(items, t, Handled(l, n, items[n], t))
  {
    if Refusal(items[n], t, l.batchTotal).None? {
      SoundIfTaken(items, n, t, l.batchTotal);
      TakeFaithful(items, n, t, l, AmountsOf(items[n], t).amounts);
    }
  }

  /** Each accepted item meets the limits and is recorded with exactly its own amounts; the total is the sum over them. */
  lemma {:induction false} AcceptedAreSound(items: seq<Text>, t: Terms)
    requires AreAmounts(items)
    ensures Faithful(items, t, Accepted(items, t))
  {
    if items != [] {
      var n := |items| - 1;
      AcceptedAreSound(items[..n], t);
      FaithfulLater(items, n, t, Accepted(items[..n], t));
      HandledFaithful(items, n, t, Accepted(items[..n], t));
    }
  }

  /** A batch never takes the merchant over the daily limit. */
  lemma {:induction false} WithinDailyLimit(items: seq<Text>, t: Terms)
    requires AreAmounts(items) && t.limits.daily.Some?
    ensures var l := Accepted(items, t);
            l.valid != [] ==> t.currentDailyTotal + l.batchTotal <= t.limits.daily.value
  {
    if items != [] {
      WithinDailyLimit(items[..|items| - 1], t);
    }
  }

  // ---------- the decision on each item ----------

  /** The value of item i. */
  function ItemValue(items: seq<Text>, i: nat): real
    requires AreAmounts(items) && i < |items|
  {
    Value(ReadAmount(items[i]).value)
  }

  /** The sum of the values of the items before i that a ledger accepts. */
  function TotalBefore(items: seq<Text>, l: Ledger, i: nat): real
    requires AreAmounts(items) && i <= |items|
  {
    if i == 0 then 0.0 else TotalBefore(items, l, i - 1) + if IsValid(l, i - 1) then ItemValue(items, i - 1) else 0.0
  }

  predicate InsideLimits(w: real, before: real, t: Terms) {
    && w > 0.0
    && (t.limits.min.Some? ==> t.limits.min.value <= w)
    && (t.limits.max.Some? ==> w <= t.limits.max.value)
    && (t.limits.daily.Some? ==> t.currentDailyTotal + before + w <= t.limits.daily.value)
  }

  /** When each reason is given: the first of the checks, in this order, that fails. */
  predicate Fails(reason: Reason, w: real, before: real, t: Terms, computes: bool) {
    match reason
    case NotPositive => w <= 0.0
    case BelowMinimum => w > 0.0 && t.limits.min.Some? && w < t.limits.min.value
    case AboveMaximum =>
      w > 0.0 && (t.limits.min.None? || t.limits.min.value <= w) && t.limits.max.Some? && t.limits.max.value < w
    case DailyLimitExceeded =>
      && w > 0.0 && (t.limits.min.None? || t.limits.min.value <= w) && (t.limits.max.None? || w <= t.limits.max.value)
      && t.limits.daily.Some? && t.limits.daily.value < t.currentDailyTotal + before + w
    case AmountRefused => InsideLimits(w, before, t) && !computes
  }

  predicate AcceptsAt(l: Ledger, i: nat, amounts: Amounts) {
    exists k :: 0 <= k < |l.valid| && l.valid[k] == Valid(i, amounts)
  }

  predicate RefusesAt(l: Ledger, i: nat, reason: Reason) {
    exists k :: 0 <= k < |l.errors| && l.errors[k] == Error(i, reason)
  }

  lemma {:induction false} LedgerGrows(items: seq<Text>, t: Terms, i: nat)
    requires AreAmounts(items) && i <= |items|
    ensures Accepted(items[..i], t).valid <= Accepted(items, t).valid
    ensures Accepted(items[..i], t).errors <= Accepted(items, t).errors
  {
    if i < |items| {
      LedgerGrows(items[..|items| - 1], t, i);
      assert items[..|items| - 1][..i] == items[..i];
    } else {
      assert items[..i] == items;
    }
  }

  /** What the loop does with item i. */
  lemma {:induction false} HandledAt(items: seq<Text>, t: Terms, i: nat)
    requires AreAmounts(items) && i < |items|
    ensures Accepted(items[..i + 1], t) == Handled(Accepted(items[..i], t), i, items[i], t)
  {
    assert items[..i + 1][..i] == items[..i];
  }

  lemma {:induction false} StaysValid(l: Ledger, n: nat, i: nat, amounts: Amounts, before: seq<Valid>)
    requires InOrder(l, n) && i < n && before + [Valid(i, amounts)] <= l.valid
    ensures AcceptsAt(l, i, amounts) && IsValid(l, i) && !IsError(l, i)
  {
    assert l.valid[|before|] == Valid(i, amounts);
  }

  lemma {:induction false} StaysError(l: Ledger, n: nat, i: nat, reason: Reason, before: seq<Error>)
    requires InOrder(l, n) && i < n && before + [Error(i, reason)] <= l.errors
    ensures RefusesAt(l, i, reason) && IsError(l, i) && !IsValid(l, i)
  {
    assert l.errors[|before|] == Error(i, reason);
  }

  /** The loop's answer for item i stays in the ledger, and is the only one. */
  lemma {:induction false} DecidedOnce(items: seq<Text>, t: Terms, i: nat, refusal: Option<Reason>)
    requires AreAmounts(items) && i < |items| && refusal == Refusal(items[i], t, Accepted(items[..i], t).batchTotal)
    ensures var l := Accepted(items, t);
            match refusal
            case None => AcceptsAt(l, i, AmountsOf(items[i], t).amounts) && IsValid(l, i) && !IsError(l, i)
            case Some(reason) => RefusesAt(l, i, reason) && IsError(l, i) && !IsValid(l, i)
  {
    var before, l := Accepted(items[..i], t), Accepted(items, t);
    HandledAt(items, t, i);
    LedgerGrows(items, t, i + 1);
    EveryItemOnce(items, t);
    if refusal.None? {
      StaysValid(l, |items|, i, AmountsOf(items[i], t).amounts, before.valid);
    } else {
      StaysError(l, |items|, i, refusal.value, before.errors);
    }
  }

  lemma {:induction false} TotalAfter(items: seq<Text>, t: Terms, i: nat, refusal: Option<Reason>)
    requires AreAmounts(items) && i < |items| && refusal == Refusal(items[i], t, Accepted(items[..i], t).batchTotal)
    ensures Accepted(items[..i + 1], t).batchTotal ==
            Accepted(items[..i], t).batchTotal + if refusal.None? then ItemValue(items, i) else 0.0
  {
    HandledAt(items, t, i);
  }

  lemma {:induction false} TotalStep(items: seq<Text>, t: Terms, i: nat, l: Ledger)
    requires AreAmounts(items) && i < |items| && l == Accepted(items, t)
    ensures Accepted(items[..i + 1], t).batchTotal ==
            Accepted(items[..i], t).batchTotal + if IsValid(l, i) then ItemValue(items, i) else 0.0
  {
    var refusal := Refusal(items[i], t, Accepted(items[..i], t).batchTotal);
    DecidedOnce(items, t, i, refusal);
    TotalAfter(items, t, i, refusal);
  }

  /** The running total is the sum of what was accepted so far. */
  lemma {:induction false} RunningTotal(items: seq<Text>, t: Terms, i: nat)
    requires AreAmounts(items) && i <= |items|
    ensures Accepted(items[..i], t).batchTotal == TotalBefore(items, Accepted(items, t), i)
  {
    if i == 0 {
      assert items[..0] == [];
    } else {
      RunningTotal(items, t, i - 1);
      TotalStep(items, t, i - 1, Accepted(items, t));
    }
  }

  lemma {:induction false} RefusalExactly(amount: Text, t: Terms, before: real)
    requires ReadAmount(amount).Some?
    ensures var w, computes := Value(ReadAmount(amount).value), Compute(amount, t.feeBps, t.monthlyVolume, t.tiers, None).Ok?;
            && (Refusal(amount, t, before).None? <==> InsideLimits(w, before, t) && computes)
            && forall r :: Refusal(amount, t, before) == Some(r) <==> Fails(r, w, before, t, computes)
  {
  }

  /**
   In every request item i is accepted exactly when its value is positive,
   within the merchant's bounds, within the daily limit on top of what was
   accepted before it, and its amounts compute; and then it carries those.
   */
  lemma {:induction false} AcceptedExactly(items: seq<Text>, t: Terms, i: nat, amounts: Amounts)
    requires AreAmounts(items) && i < |items|
    ensures AcceptsAt(Accepted(items, t), i, amounts) <==>
            && InsideLimits(ItemValue(items, i), TotalBefore(items, Accepted(items, t), i), t)
            && Compute(items[i], t.feeBps, t.monthlyVolume, t.tiers, None) == Ok(amounts)
  {
    var l := Accepted(items, t);
    RunningTotal(items, t, i);
    DecidedOnce(items, t, i, Refusal(items[i], t, TotalBefore(items, l, i)));
    RefusalExactly(items[i], t, TotalBefore(items, l, i));
    EveryItemOnce(items, t);
    if k :| 0 <= k < |l.valid| && l.valid[k] == Valid(i, amounts) {
      assert IsValid(l, i);
      SameIndexSameItem(l, |items|, i, k, amounts, AmountsOf(items[i], t).amounts);
    }
  }

  lemma {:induction false} SameIndexSameItem(l: Ledger, n: nat, i: nat, k: nat, a: Amounts, b: Amounts)
    requires InOrder(l, n) && k < |l.valid| && l.valid[k] == Valid(i, a)
    ensures AcceptsAt(l, i, b) ==> a == b
  {
    if j :| 0 <= j < |l.valid| && l.valid[j] == Valid(i, b) {
      assert j == k;
    }
  }

  /** And it is refused for a reason exactly when that is the first check it fails. */
  lemma {:induction false} RefusedExactly(items: seq<Text>, t: Terms, i: nat, reason: Reason)
    requires AreAmounts(items) && i < |items|
    ensures RefusesAt(Accepted(items, t), i, reason) <==>
            Fails(reason, ItemValue(items, i), TotalBefore(items, Accepted(items, t), i), t,
                  Compute(items[i], t.feeBps, t.monthlyVolume, t.tiers, None).Ok?)
  {
    var l := Accepted(items, t);
    RunningTotal(items, t, i);
    DecidedOnce(items, t, i, Refusal(items[i], t, TotalBefore(items, l, i)));
    RefusalExactly(items[i], t, TotalBefore(items, l, i));
    EveryItemOnce(items, t);
    if k :| 0 <= k < |l.errors| && l.errors[k] == Error(i, reason) {
      assert IsError(l, i);
      SameIndexSameReason(l, |items|, i, k, reason);
    }
  }

  lemma {:induction false} SameIndexSameReason(l: Ledger, n: nat, i: nat, k: nat, a: Reason)
    requires InOrder(l, n) && k < |l.errors| && l.errors[k] == Error(i, a)
    ensures forall b :: RefusesAt(l, i, b) ==> a == b
  {
    forall b | RefusesAt(l, i, b) ensures a == b {
      var j :| 0 <= j < |l.errors| && l.errors[j] == Error(i, b);
      assert j == k;
    }
  }

  /**
   Amounts the request schema accepted are refused by the merchant's limits
   alone, except that a fractional discount makes the computation refuse every
   amount that passes them.
   */
  lemma {:induction false} OnlyLimitsRefuse(amount: Text, t: Terms, total: real)
    requires AcceptsAmount(amount) && InBps(t.feeBps) && t.monthlyVolume >= 0.0 && ValidTiers(t.tiers)
    ensures ReadAmount(amount).Some?
    ensures Refusal(amount, t, total) == Some(AmountRefused) ==> !IsWhole(AppliedDiscount(t.feeBps, t.monthlyVolume, t.tiers))
    ensures !IsWhole(AppliedDiscount(t.feeBps, t.monthlyVolume, t.tiers)) ==> Refusal(amount, t, total).Some?
    ensures WholeTiers(t.tiers) ==> Refusal(amount, t, total) != Some(AmountRefused)
  {
    NeverThrows(amount, t.feeBps, t.monthlyVolume, t.tiers);
  }

  /** What the bulk path stores passes both amount checks of the reconcile route, at the rate stored beside it. */
  lemma {:induction false} EveryAcceptedItemReconciles(items: seq<Text>, t: Terms, k: nat)
    requires AreAmounts(items) && k < |Accepted(items, t).valid|
    ensures var a := Accepted(items, t).valid[k].amounts;
            a.snapshot.feeBpsApplied >= 0 &&
            Reconciliation.Check(a.gross, a.fee, a.net, a.snapshot.feeBpsApplied) == Reconciliation.Consistent
  {
    AcceptedAreSound(items, t);
    var v := Accepted(items, t).valid[k];
    assert Sound(items, t, v);
    Reconciliation.ComputedAmountsReconcile(items[v.index], t.feeBps, t.monthlyVolume, t.tiers, None);
  }

  // ---------- the loop ----------

  /** The loop, rejecting with `continue` and adding to the running total. */
  method AcceptItems(items: seq<Text>, t: Terms) returns (validItems: seq<Valid>, errors: seq<Error>, runningBatchTotal: real)
    requires AreAmounts(items)
    ensures Ledger(validItems, errors, runningBatchTotal) == Accepted(items, t)
  {
    validItems, errors, runningBatchTotal := [], [], 0.0;
    for i := 0 to |items|
      invariant Ledger(validItems, errors, runningBatchTotal) == Accepted(items[..i], t)
    {
      assert items[..i + 1][..i] == items[..i];
      var amount := Worth(items[i]);
      if amount <= 0.0 {
        errors := errors + [Error(i, NotPositive)];
        continue;
      }
      if t.limits.min.Some? && amount < t.limits.min.value {
        errors := errors + [Error(i, BelowMinimum)];
        continue;
      }
      if t.limits.max.Some? && amount > t.limits.max.value {
        errors := errors + [Error(i, AboveMaximum)];
        continue;
      }
      if t.limits.daily.Some? && t.currentDailyTotal + runningBatchTotal + amount > t.limits.daily.value {
        errors := errors + [Error(i, DailyLimitExceeded)];
        continue;
      }
      var computed := AmountsOf(items[i], t);
      if !computed.Ok? {
        errors := errors + [Error(i, AmountRefused)];
        continue;
      }
      validItems := validItems + [Valid(i, computed.amounts)];
      runningBatchTotal := runningBatchTotal + amount;
    }
    assert items[..|items|] == items;
  }
}
