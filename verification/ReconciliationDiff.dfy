/** `computeReconciliationDiff`: local records against the gateway's, by id. */
module ReconciliationDiff {
  import opened Options
  import opened Text
  import opened Decimals
  import opened AmountStrings
  import opened SettlementAmounts
  import opened Reconciliation

  /** A record's amount fields as texts, where present. */
  datatype Record = Record(id: string, gross: Option<Text>, total: Option<Text>, fee: Option<Text>, net: Option<Text>)

  datatype Field = GrossAmount | FeeAmount | NetAmount

  /** A record's amounts as a report shows them. */
  datatype Shown = Shown(gross: Option<Text>, fee: Option<Text>, net: Option<Text>)

  datatype Mismatch = Mismatch(id: string, ledger: Shown, expected: Shown, diffs: seq<Field>)

  /** `parseBN`: an absent amount, like one that is not a number, is 0. */
  function AmountIn(t: Option<Text>): Dec {
    if t.None? then Dec(0, 0) else ReadOrZero(t.value)
  }

  /** `grossAmount ?? totalAmount`. */
  function GrossText(r: Record): Option<Text> {
    if r.gross.Some? then r.gross else r.total
  }

  function Show(r: Record): Shown {
    Shown(GrossText(r), r.fee, r.net)
  }

  function GrossOf(r: Record): Dec {
    AmountIn(GrossText(r))
  }

  predicate Agree(a: Record, b: Record) {
    && SameNumber(GrossOf(a), GrossOf(b))
    && SameNumber(AmountIn(a.fee), AmountIn(b.fee))
    && SameNumber(AmountIn(a.net), AmountIn(b.net))
  }

  /** The fields out of three that differ. */
  function Named(gross: bool, fee: bool, net: bool): seq<Field> {
    (if gross then [] else [GrossAmount]) + (if fee then [] else [FeeAmount]) + (if net then [] else [NetAmount])
  }

  function Diffs(a: Record, b: Record): seq<Field> {
    Named(SameNumber(GrossOf(a), GrossOf(b)), SameNumber(AmountIn(a.fee), AmountIn(b.fee)), SameNumber(AmountIn(a.net), AmountIn(b.net)))
  }

  /** The records by id; of two with one id the later counts. */
  function ById(records: seq<Record>): map<string, Record> {
    if records == [] then map[]
    else ById(records[..|records| - 1])[records[|records| - 1].id := records[|records| - 1]]
  }

  // ---------- agreement is an equivalence ----------

  lemma {:induction false} ShiftsCommute(n: nat, j: nat, k: nat)
    ensures Shifted(Shifted(n, j), k) == Shifted(Shifted(n, k), j)
  {
    ShiftedTwice(n, j, k);
    ShiftedTwice(n, k, j);
  }

  lemma {:induction false} SameNumberTransitive(a: Dec, b: Dec, c: Dec)
    requires SameNumber(a, b) && SameNumber(b, c)
    ensures SameNumber(a, c)
  {
    var x, y := Shifted(a.units, c.scale), Shifted(c.units, a.scale);
    ShiftsCommute(a.units, c.scale, b.scale);
    ShiftsCommute(b.units, a.scale, c.scale);
    ShiftsCommute(c.units, a.scale, b.scale);
    assert Shifted(x, b.scale) == Shifted(y, b.scale);
    ShiftedOrder(x, y, b.scale);
    ShiftedOrder(y, x, b.scale);
  }

  /** Agreement compares numbers, not texts: it is an equivalence, whatever the numbers of decimals. */
  lemma {:induction false} AgreeIsEquivalence(a: Record, b: Record, c: Record)
    ensures Agree(a, a)
    ensures Agree(a, b) ==> Agree(b, a)
    ensures Agree(a, b) && Agree(b, c) ==> Agree(a, c)
  {
    if Agree(a, b) && Agree(b, c) {
      SameNumberTransitive(GrossOf(a), GrossOf(b), GrossOf(c));
      SameNumberTransitive(AmountIn(a.fee), AmountIn(b.fee), AmountIn(c.fee));
      SameNumberTransitive(AmountIn(a.net), AmountIn(b.net), AmountIn(c.net));
    }
  }

  lemma {:induction false} DiffsTellAgreement(a: Record, b: Record)
    ensures Diffs(a, b) == [] <==> Agree(a, b)
    ensures Diffs(a, b) == Diffs(b, a)
  {
  }

  // ---------- which texts the comparison cannot tell apart ----------

  const NOTHING := Parts([48], [])

  /** The parts that count: those of an amount, and of a plain zero for an absent or unreadable one. */
  function PartsIn(t: Option<Text>): (p: Parts)
    ensures ValidParts(p)
  {
    if t.Some? && Split(t.value).Some? then Split(t.value).value else NOTHING
  }

  /** An amount without redundant zeros. */
  function NormalText(t: Option<Text>): Parts {
    Parts(StripLeading(PartsIn(t).whole), StripTrailing(PartsIn(t).frac))
  }

  lemma {:induction false} AmountInIs(t: Option<Text>)
    ensures AmountIn(t) == AmountOf(PartsIn(t))
  {
    assert [48][..0] == [] && [48] + [] == [48];
    if t.Some? && Split(t.value).Some? {
      SplitJoin(t.value, Split(t.value).value);
    }
  }

  lemma {:induction false} WholesAgree(a: Text, b: Text)
    requires AllDigits(a) && AllDigits(b) && a != [] && b != []
    ensures NumberOf(a) == NumberOf(b) <==> StripLeading(a) == StripLeading(b)
  {
    ToDecValue(a);
    ToDecValue(b);
    ValueStripLeading(a);
    ValueStripLeading(b);
  }

  lemma {:induction false} ZerosJoin(j: nat, k: nat)
    ensures Zeros(j) + Zeros(k) == Zeros(j + k)
  {
  }

  lemma {:induction false} FractionsAgree(a: Text, b: Text, k: nat)
    requires AllDigits(a) && AllDigits(b) && |a| + k == |b|
    ensures AllDigits(a + Zeros(k))
    ensures NumberOf(a + Zeros(k)) == NumberOf(b) <==> StripTrailing(a) == StripTrailing(b)
  {
    var padded := a + Zeros(k);
    if NumberOf(padded) == NumberOf(b) {
      ValueInjective(padded, b);
    }
    StripTrailingZeros(a, k);
    if StripTrailing(a) == StripTrailing(b) {
      SamePadded(a, b, k);
    }
  }

  lemma {:induction false} SamePadded(a: Text, b: Text, k: nat)
    requires |a| + k == |b| && StripTrailing(a) == StripTrailing(b)
    ensures a + Zeros(k) == b
  {
    var s := StripTrailing(a);
    StripTrailingRestore(a);
    StripTrailingRestore(b);
    ZerosJoin(|a| - |s|, k);
    assert a + Zeros(k) == s + (Zeros(|a| - |s|) + Zeros(k));
  }

  lemma {:induction false} TwoParts(x: nat, f: nat, y: nat, g: nat, p: nat)
    requires f < p && g < p
    ensures x * p + f == y * p + g <==> x == y && f == g
  {
    LeadingPartDecides(x, f, y, g, p);
    LeadingPartDecides(y, g, x, f, p);
  }

  /** Amounts with j and j + k decimals are the same number exactly when k zeros more on the first give the second's digits. */
  lemma {:induction false} SameNumberShifted(u: nat, v: nat, j: nat, k: nat)
    ensures SameNumber(Dec(u, j), Dec(v, j + k)) <==> Shifted(u, k) == v
  {
    ShiftedTwice(u, k, j);
    ShiftedOrder(Shifted(u, k), v, j);
    ShiftedOrder(v, Shifted(u, k), j);
  }

  lemma {:induction false} DigitsOf(whole: Text, frac: Text, k: nat)
    requires AllDigits(whole) && AllDigits(frac)
    ensures AllDigits(frac + Zeros(k))
    ensures Shifted(NumberOf(whole + frac), k) == NumberOf(whole) * Pow10(|frac| + k) + NumberOf(frac + Zeros(k))
  {
    ShiftedIs(NumberOf(whole + frac), k);
    ValueAppendZeros(whole + frac, k);
    assert whole + frac + Zeros(k) == whole + (frac + Zeros(k));
    ValueConcat(whole, frac + Zeros(k));
  }

  lemma {:induction false} PartsAgree(p: Parts, q: Parts, k: nat)
    requires ValidParts(p) && ValidParts(q) && |p.frac| + k == |q.frac|
    ensures SameNumber(AmountOf(p), AmountOf(q)) <==>
            StripLeading(p.whole) == StripLeading(q.whole) && StripTrailing(p.frac) == StripTrailing(q.frac)
  {
    SameNumberShifted(NumberOf(p.whole + p.frac), NumberOf(q.whole + q.frac), |p.frac|, k);
    DigitsOf(p.whole, p.frac, k);
    ValueConcat(q.whole, q.frac);
    ValueBound(p.frac + Zeros(k));
    ValueBound(q.frac);
    TwoParts(NumberOf(p.whole), NumberOf(p.frac + Zeros(k)), NumberOf(q.whole), NumberOf(q.frac), Pow10(|q.frac|));
    WholesAgree(p.whole, q.whole);
    FractionsAgree(p.frac, q.frac, k);
  }

  /**
   Exactly which amount texts the comparison cannot tell apart: those equal up
   to leading zeros and trailing decimal zeros, an absent text and one that is
   not an amount both counting as 0.
   */
  lemma {:induction false} IndistinguishableExactly(a: Option<Text>, b: Option<Text>)
    ensures SameNumber(AmountIn(a), AmountIn(b)) <==> NormalText(a) == NormalText(b)
  {
    var p, q := PartsIn(a), PartsIn(b);
    AmountInIs(a);
    AmountInIs(b);
    if |p.frac| <= |q.frac| {
      PartsAgree(p, q, |q.frac| - |p.frac|);
    } else {
      PartsAgree(q, p, |p.frac| - |q.frac|);
    }
  }

  /** The two records' gross texts, the total standing in where there is no gross, are one amount. */
  predicate SameGross(a: Record, b: Record) {
    match (a.gross, b.gross)
    case (Some(x), Some(y)) => NormalText(Some(x)) == NormalText(Some(y))
    case (Some(x), None) => NormalText(Some(x)) == NormalText(b.total)
    case (None, Some(y)) => NormalText(a.total) == NormalText(Some(y))
    case (None, None) => NormalText(a.total) == NormalText(b.total)
  }

  /** So the records agree exactly when their gross (or else total), fee and net do, up to redundant zeros. */
  lemma {:induction false} AgreeExactly(a: Record, b: Record)
    ensures Agree(a, b) <==>
            && SameGross(a, b)
            && NormalText(a.fee) == NormalText(b.fee)
            && NormalText(a.net) == NormalText(b.net)
  {
    GrossExactly(a, b);
    IndistinguishableExactly(a.fee, b.fee);
    IndistinguishableExactly(a.net, b.net);
  }

  /** Gross, fee, net: the order in which a report names fields. */
  function Rank(f: Field): nat {
    match f
    case GrossAmount => 0
    case FeeAmount => 1
    case NetAmount => 2
  }

  lemma {:induction false} NamedExactly(gross: bool, fee: bool, net: bool)
    ensures var d := Named(gross, fee, net);
            && (GrossAmount in d <==> !gross) && (FeeAmount in d <==> !fee) && (NetAmount in d <==> !net)
            && forall i, j :: 0 <= i < j < |d| ==> Rank(d[i]) < Rank(d[j])
  {
  }

  lemma {:induction false} GrossExactly(a: Record, b: Record)
    ensures SameNumber(GrossOf(a), GrossOf(b)) <==> SameGross(a, b)
  {
    IndistinguishableExactly(GrossText(a), GrossText(b));
  }

  /** A report names exactly the fields that differ, once each and in that order. */
  lemma {:induction false} DiffsExactly(a: Record, b: Record)
    ensures GrossAmount in Diffs(a, b) <==> !SameGross(a, b)
    ensures FeeAmount in Diffs(a, b) <==> NormalText(a.fee) != NormalText(b.fee)
    ensures NetAmount in Diffs(a, b) <==> NormalText(a.net) != NormalText(b.net)
    ensures forall i, j :: 0 <= i < j < |Diffs(a, b)| ==> Rank(Diffs(a, b)[i]) < Rank(Diffs(a, b)[j])
  {
    NamedExactly(SameNumber(GrossOf(a), GrossOf(b)), SameNumber(AmountIn(a.fee), AmountIn(b.fee)), SameNumber(AmountIn(a.net), AmountIn(b.net)));
    GrossExactly(a, b);
    IndistinguishableExactly(a.fee, b.fee);
    IndistinguishableExactly(a.net, b.net);
  }

  /** Record i is the last with its id. */
  predicate IsLast(records: seq<Record>, i: nat) {
    i < |records| && forall j :: i < j < |records| ==> records[j].id != records[i].id
  }

  /** Of several records with one id the last is compared. */
  lemma {:induction false} LastRecordCounts(records: seq<Record>, i: nat)
    requires IsLast(records, i)
    ensures records[i].id in ById(records) && ById(records)[records[i].id] == records[i]
  {
    var n := |records| - 1;
    if i < n {
      assert records[n].id != records[i].id;
      LastRecordCounts(records[..n], i);
    }
  }

  /** And only ids that occur are. */
  lemma {:induction false} OnlyIdsThatOccur(records: seq<Record>, id: string) returns (i: nat)
    requires id in ById(records)
    ensures IsLast(records, i) && records[i].id == id
  {
    i := |records| - 1;
    if records[i].id != id {
      i := OnlyIdsThatOccur(records[..|records| - 1], id);
    }
  }

  // ---------- the loops ----------

  method IndexById(records: seq<Record>) returns (m: map<string, Record>)
    ensures m == ById(records)
  {
    m := map[];
    for i := 0 to |records|
      invariant m == ById(records[..i])
    {
      assert records[..i + 1][..i] == records[..i];
      m := m[records[i].id := records[i]];
    }
    assert records[..|records|] == records;
  }

  predicate OnBoth(local: map<string, Record>, gateway: map<string, Record>, id: string) {
    id in local && id in gateway
  }

  /** The fields shown are the record's own, the total standing in for an absent gross. */
  predicate ShowsRecord(s: Shown, r: Record) {
    s.fee == r.fee && s.net == r.net && (r.gross.Some? ==> s.gross == r.gross) && (r.gross.None? ==> s.gross == r.total)
  }

  predicate Reported(local: map<string, Record>, gateway: map<string, Record>, m: Mismatch) {
    && OnBoth(local, gateway, m.id) && !Agree(local[m.id], gateway[m.id])
    && ShowsRecord(m.ledger, local[m.id]) && ShowsRecord(m.expected, gateway[m.id])
    && m.diffs == Diffs(local[m.id], gateway[m.id])
    && m.diffs != []
  }

  predicate Mentions(ms: seq<Mismatch>, id: string) {
    exists k :: 0 <= k < |ms| && ms[k].id == id
  }

  predicate Distinct(ms: seq<Mismatch>) {
    forall j, k :: 0 <= j < k < |ms| ==> ms[j].id != ms[k].id
  }

  /** Exactly the ids on both sides among `seen` whose amounts agree are matched, and exactly the others there are reported, once each. */
  ghost predicate Sorts(local: map<string, Record>, gateway: map<string, Record>, seen: set<string>, matched: set<string>, ms: seq<Mismatch>) {
    && (forall id :: id in matched <==> id in seen && OnBoth(local, gateway, id) && Agree(local[id], gateway[id]))
    && (forall id :: id in seen && OnBoth(local, gateway, id) && !Agree(local[id], gateway[id]) ==> Mentions(ms, id))
    && (forall k :: 0 <= k < |ms| ==> ms[k].id in seen && Reported(local, gateway, ms[k]))
    && Distinct(ms)
  }

  lemma {:induction false} MentionsMore(ms: seq<Mismatch>, m: Mismatch, id: string)
    ensures Mentions(ms + [m], id) <==> Mentions(ms, id) || id == m.id
  {
    assert (ms + [m])[|ms|] == m;
    if k :| 0 <= k < |ms| && ms[k].id == id {
      assert (ms + [m])[k] == ms[k];
    }
  }

  /** One id of the local records. */
  method Compare(local: map<string, Record>, gateway: map<string, Record>, id: string, ghost seen: set<string>,
                 matched: set<string>, mismatched: seq<Mismatch>)
    returns (matched': set<string>, mismatched': seq<Mismatch>)
    requires id in local && id !in seen && Sorts(local, gateway, seen, matched, mismatched)
    ensures Sorts(local, gateway, seen + {id}, matched', mismatched')
  {
    matched', mismatched' := matched, mismatched;
    if id in gateway {
      DiffsTellAgreement(local[id], gateway[id]);
      if Agree(local[id], gateway[id]) {
        matched' := matched' + {id};
      } else {
        var row := Mismatch(id, Show(local[id]), Show(gateway[id]), Diffs(local[id], gateway[id]));
        forall x {
          MentionsMore(mismatched, row, x);
        }
        mismatched' := mismatched' + [row];
      }
    }
  }

  /** Every id the two sides share is either matched or reported with its differing fields, exactly as the amounts agree. */
  method ComputeReconciliationDiff(localRecords: seq<Record>, gatewayRecords: seq<Record>)
    returns (matchedIds: set<string>, mismatched: seq<Mismatch>)
    ensures Sorts(ById(localRecords), ById(gatewayRecords), ById(localRecords).Keys, matchedIds, mismatched)
  {
    var localMap := IndexById(localRecords);
    var gatewayMap := IndexById(gatewayRecords);
    matchedIds, mismatched := {}, [];
    var todo := localMap.Keys;
    while todo != {}
      invariant todo <= localMap.Keys
      invariant Sorts(localMap, gatewayMap, localMap.Keys - todo, matchedIds, mismatched)
      decreases todo
    {
      var id :| id in todo;
      matchedIds, mismatched := Compare(localMap, gatewayMap, id, localMap.Keys - todo, matchedIds, mismatched);
      assert localMap.Keys - todo + {id} == localMap.Keys - (todo - {id});
      todo := todo - {id};
    }
    assert localMap.Keys - {} == localMap.Keys;
  }
}
