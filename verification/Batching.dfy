/**
 `runSettlementBatching`: the oldest pending settlements, grouped by asset, and
 each group that is large enough recorded as a batch and set processing.
 Amounts are exact decimals, modelled as reals.
 */
module Batching {
  import opened Lifecycle

  /** Ids in their collation order. */
  type Id = nat

  datatype Row = Row(asset: string, status: Status, initiatedAt: int, gross: real, fee: real, net: real)

  type Rows = map<Id, Row>

  /** A `SettlementBatch` row; `members` are the settlements it was made from, which the table does not keep. */
  datatype Batch = Batch(asset: string, totalCount: nat, totalGross: real, totalFees: real, totalNet: real, members: seq<Id>)

  datatype Config = Config(minCount: int, volumeThreshold: real, maxBatchSize: int)

  // ---------- the page of pending rows ----------

  predicate Distinct(s: seq<Id>) {
    forall i, j :: 0 <= i < j < |s| ==> s[i] != s[j]
  }

  predicate Known(rows: Rows, ids: seq<Id>) {
    forall i :: 0 <= i < |ids| ==> ids[i] in rows
  }

  function PendingIds(rows: Rows): set<Id> {
    set id | id in rows && rows[id].status == Pending
  }

  /** `ORDER BY initiatedAt ASC, id ASC`. */
  predicate Older(rows: Rows, a: Id, b: Id)
    requires a in rows && b in rows
  {
    rows[a].initiatedAt < rows[b].initiatedAt || (rows[a].initiatedAt == rows[b].initiatedAt && a < b)
  }

  /** The oldest pending rows in order: all of them, or `maxBatchSize` when that is positive and there are more. */
  predicate IsOldest(rows: Rows, maxBatchSize: int, page: seq<Id>) {
    && (forall i :: 0 <= i < |page| ==> page[i] in PendingIds(rows))
    && (forall i, j :: 0 <= i < j < |page| ==> Older(rows, page[i], page[j]))
    && (maxBatchSize > 0 ==> |page| <= maxBatchSize)
    && (forall x :: x in PendingIds(rows) && x !in page ==>
          0 < maxBatchSize == |page| && forall i :: 0 <= i < |page| ==> Older(rows, page[i], x))
  }

  lemma {:induction false} OldestIsDistinct(rows: Rows, maxBatchSize: int, page: seq<Id>)
    requires IsOldest(rows, maxBatchSize, page)
    ensures Distinct(page) && Known(rows, page)
  {
    forall i, j | 0 <= i < j < |page|
      ensures page[i] != page[j]
    {
      assert Older(rows, page[i], page[j]);
    }
  }

  /**
   The page spelled out: pending rows by age and then id; everything pending, or
   when a positive `maxBatchSize` is reached, that many and none younger than one left out.
   */
  ghost predicate OldestPending(rows: Rows, maxBatchSize: int, page: seq<Id>) {
    && (forall i :: 0 <= i < |page| ==> page[i] in rows && rows[page[i]].status == Pending)
    && (forall i, j :: 0 <= i < j < |page| ==>
          rows[page[i]].initiatedAt <= rows[page[j]].initiatedAt &&
          (rows[page[i]].initiatedAt == rows[page[j]].initiatedAt ==> page[i] < page[j]))
    && (maxBatchSize <= 0 || |page| <= maxBatchSize)
    && (forall x :: x in rows && rows[x].status == Pending && x !in page ==>
          && maxBatchSize > 0 && |page| == maxBatchSize
          && forall i :: 0 <= i < |page| ==>
               rows[page[i]].initiatedAt <= rows[x].initiatedAt &&
               (rows[page[i]].initiatedAt == rows[x].initiatedAt ==> page[i] < x))
  }

  lemma {:induction false} PageExactly(rows: Rows, maxBatchSize: int, page: seq<Id>)
    ensures IsOldest(rows, maxBatchSize, page) <==> OldestPending(rows, maxBatchSize, page)
  {
    if OldestPending(rows, maxBatchSize, page) {
      forall x, i | x in PendingIds(rows) && x !in page && 0 <= i < |page| ensures Older(rows, page[i], x) {
      }
    }
    if IsOldest(rows, maxBatchSize, page) {
      forall i | 0 <= i < |page| ensures page[i] in rows && rows[page[i]].status == Pending {
        assert page[i] in PendingIds(rows);
      }
      forall i, j | 0 <= i < j < |page|
        ensures rows[page[i]].initiatedAt <= rows[page[j]].initiatedAt
        ensures rows[page[i]].initiatedAt == rows[page[j]].initiatedAt ==> page[i] < page[j]
      {
        assert Older(rows, page[i], page[j]);
      }
      forall x | x in rows && rows[x].status == Pending && x !in page
        ensures maxBatchSize > 0 && |page| == maxBatchSize && forall i :: 0 <= i < |page| ==> Older(rows, page[i], x)
      {
        assert x in PendingIds(rows);
      }
    }
  }

  // ---------- groups and totals ----------

  function Group(rows: Rows, page: seq<Id>, asset: string): (g: seq<Id>)
    requires Known(rows, page)
    ensures Known(rows, g)
  {
    if page == [] then []
    else
      var last := page[|page| - 1];
      Group(rows, page[..|page| - 1], asset) + if rows[last].asset == asset then [last] else []
  }

  /** The assets in order of first appearance. */
  function Assets(rows: Rows, page: seq<Id>): seq<string>
    requires Known(rows, page)
  {
    if page == [] then []
    else
      var last, before := rows[page[|page| - 1]].asset, Assets(rows, page[..|page| - 1]);
      if last in before then before else before + [last]
  }

  function TotalGross(rows: Rows, ids: seq<Id>): real
    requires Known(rows, ids)
  {
    if ids == [] then 0.0 else TotalGross(rows, ids[..|ids| - 1]) + rows[ids[|ids| - 1]].gross
  }

  function TotalFees(rows: Rows, ids: seq<Id>): real
    requires Known(rows, ids)
  {
    if ids == [] then 0.0 else TotalFees(rows, ids[..|ids| - 1]) + rows[ids[|ids| - 1]].fee
  }

  function TotalNet(rows: Rows, ids: seq<Id>): real
    requires Known(rows, ids)
  {
    if ids == [] then 0.0 else TotalNet(rows, ids[..|ids| - 1]) + rows[ids[|ids| - 1]].net
  }

  /** Enough settlements, or enough volume when a threshold is set. */
  predicate Qualifies(rows: Rows, group: seq<Id>, config: Config)
    requires Known(rows, group)
  {
    |group| >= config.minCount || (config.volumeThreshold > 0.0 && TotalGross(rows, group) >= config.volumeThreshold)
  }

  function BatchOf(rows: Rows, asset: string, group: seq<Id>): Batch
    requires Known(rows, group)
  {
    Batch(asset, |group|, TotalGross(rows, group), TotalFees(rows, group), TotalNet(rows, group), group)
  }

  // ---------- one run ----------

  datatype State = State(rows: Rows, batches: seq<Batch>)

  function SetProcessing(rows: Rows, ids: seq<Id>): Rows {
    map id | id in rows :: if id in ids then rows[id].(status := Processing) else rows[id]
  }

  /** Whether a row of the page is moved: its asset's group qualifies. */
  predicate Moves(rows: Rows, page: seq<Id>, config: Config, id: Id)
    requires Known(rows, page)
  {
    id in page && Qualifies(rows, Group(rows, page, rows[id].asset), config)
  }

  /** The state once the groups of `assets` have been handled; `rows` are those the run read. */
  function Handled(s: State, page: seq<Id>, config: Config, assets: seq<string>): State
    requires Known(s.rows, page)
  {
    if assets == [] then s
    else
      var t := Handled(s, page, config, assets[..|assets| - 1]);
      var asset := assets[|assets| - 1];
      var group := Group(s.rows, page, asset);
      if Qualifies(s.rows, group, config)
      then State(SetProcessing(t.rows, group), t.batches + [BatchOf(s.rows, asset, group)]) else t
  }

  function AfterRun(s: State, page: seq<Id>, config: Config): State
    requires Known(s.rows, page)
  {
    Handled(s, page, config, Assets(s.rows, page))
  }

  // ---------- what a run writes ----------

  lemma {:induction false} GroupMembers(rows: Rows, page: seq<Id>, asset: string, id: Id)
    requires Known(rows, page)
    ensures id in Group(rows, page, asset) <==> id in page && rows[id].asset == asset
  {
    if page != [] {
      GroupMembers(rows, page[..|page| - 1], asset, id);
      assert page == page[..|page| - 1] + [page[|page| - 1]];
    }
  }

  lemma {:induction false} GroupDistinct(rows: Rows, page: seq<Id>, asset: string)
    requires Known(rows, page) && Distinct(page)
    ensures Distinct(Group(rows, page, asset))
  {
    if page != [] {
      var n := |page| - 1;
      GroupDistinct(rows, page[..n], asset);
      GroupMembers(rows, page[..n], asset, page[n]);
      assert page[n] !in page[..n];
    }
  }

  predicate DistinctNames(assets: seq<string>) {
    forall i, j :: 0 <= i < j < |assets| ==> assets[i] != assets[j]
  }

  lemma {:induction false} AssetsExact(rows: Rows, page: seq<Id>, asset: string)
    requires Known(rows, page)
    ensures asset in Assets(rows, page) <==> exists i :: 0 <= i < |page| && rows[page[i]].asset == asset
    ensures DistinctNames(Assets(rows, page))
  {
    if page != [] {
      var n := |page| - 1;
      AssetsExact(rows, page[..n], asset);
      AssetsExact(rows, page[..n], rows[page[n]].asset);
      if i :| 0 <= i < n && rows[page[..n][i]].asset == asset {
        assert rows[page[i]].asset == asset;
      }
      if i :| 0 <= i < |page| && rows[page[i]].asset == asset {
        assert i < n ==> rows[page[..n][i]].asset == asset;
      }
    }
  }

  /** How often a batch table counts a settlement. */
  function Occurs(ids: seq<Id>, id: Id): nat {
    if ids == [] then 0 else Occurs(ids[..|ids| - 1], id) + if ids[|ids| - 1] == id then 1 else 0
  }

  function TimesBatched(batches: seq<Batch>, id: Id): nat {
    if batches == [] then 0 else TimesBatched(batches[..|batches| - 1], id) + Occurs(batches[|batches| - 1].members, id)
  }

  lemma {:induction false} OccursDistinct(ids: seq<Id>, id: Id)
    requires Distinct(ids)
    ensures Occurs(ids, id) == if id in ids then 1 else 0
  {
    if ids != [] {
      OccursDistinct(ids[..|ids| - 1], id);
      assert ids == ids[..|ids| - 1] + [ids[|ids| - 1]];
    }
  }

  /** What one more group adds for one settlement. */
  lemma {:induction false} HandledOneMore(s: State, page: seq<Id>, config: Config, before: seq<string>, asset: string, id: Id)
    requires Known(s.rows, page) && Distinct(page)
    ensures var t, u := Handled(s, page, config, before), Handled(s, page, config, before + [asset]);
            var moved := id in page && s.rows[id].asset == asset && Moves(s.rows, page, config, id);
            && u.rows.Keys == t.rows.Keys
            && (id in t.rows ==> u.rows[id] == if moved then t.rows[id].(status := Processing) else t.rows[id])
            && TimesBatched(u.batches, id) == TimesBatched(t.batches, id) + if moved then 1 else 0
  {
    var group := Group(s.rows, page, asset);
    GroupMembers(s.rows, page, asset, id);
    GroupDistinct(s.rows, page, asset);
    OccursDistinct(group, id);
    assert (before + [asset])[..|before|] == before;
    var t, batch := Handled(s, page, config, before), BatchOf(s.rows, asset, group);
    assert (t.batches + [batch])[..|t.batches|] == t.batches;
  }

  /** The rows and counts once some groups have been handled. */
  lemma {:induction false} HandledExactly(s: State, page: seq<Id>, config: Config, assets: seq<string>, id: Id)
    requires Known(s.rows, page) && Distinct(page) && DistinctNames(assets)
    ensures var t := Handled(s, page, config, assets);
            var moved := id in page && s.rows[id].asset in assets && Moves(s.rows, page, config, id);
            && t.rows.Keys == s.rows.Keys
            && (id in s.rows ==> t.rows[id] == if moved then s.rows[id].(status := Processing) else s.rows[id])
            && TimesBatched(t.batches, id) == TimesBatched(s.batches, id) + if moved then 1 else 0
  {
    if assets != [] {
      var n := |assets| - 1;
      HandledExactly(s, page, config, assets[..n], id);
      assert assets[n] !in assets[..n];
      assert assets == assets[..n] + [assets[n]];
      HandledOneMore(s, page, config, assets[..n], assets[n], id);
    }
  }

  /** A run moves exactly the rows of qualifying groups of its page, from pending to processing, and counts each of them once. */
  lemma {:induction false} RunMovesExactly(s: State, page: seq<Id>, config: Config, id: Id)
    requires IsOldest(s.rows, config.maxBatchSize, page) && Known(s.rows, page)
    ensures var t := AfterRun(s, page, config);
            var moved := Moves(s.rows, page, config, id);
            && t.rows.Keys == s.rows.Keys
            && (moved ==> s.rows[id].status == Pending && t.rows[id] == s.rows[id].(status := Processing))
            && (!moved && id in s.rows ==> t.rows[id] == s.rows[id])
            && TimesBatched(t.batches, id) == TimesBatched(s.batches, id) + if moved then 1 else 0
  {
    OldestIsDistinct(s.rows, config.maxBatchSize, page);
    AssetsExact(s.rows, page, if id in s.rows then s.rows[id].asset else "");
    HandledExactly(s, page, config, Assets(s.rows, page), id);
    if id in page {
      var i :| 0 <= i < |page| && page[i] == id;
      assert page[i] in PendingIds(s.rows);
    }
  }

  function TotalCount(batches: seq<Batch>): nat {
    if batches == [] then 0 else TotalCount(batches[..|batches| - 1]) + batches[|batches| - 1].totalCount
  }

  function MovedIds(rows: Rows, page: seq<Id>, config: Config, assets: seq<string>): set<Id>
    requires Known(rows, page)
  {
    set id | id in page && rows[id].asset in assets && Moves(rows, page, config, id)
  }

  function IdsOf(ids: seq<Id>): set<Id> {
    set id | id in ids
  }

  lemma {:induction false} SizeOfDistinct(ids: seq<Id>)
    requires Distinct(ids)
    ensures |IdsOf(ids)| == |ids|
  {
    if ids == [] {
      assert IdsOf(ids) == {};
    } else {
      var n := |ids| - 1;
      SizeOfDistinct(ids[..n]);
      assert ids == ids[..n] + [ids[n]];
      var before := IdsOf(ids[..n]);
      assert ids[n] !in before;
      assert IdsOf(ids) == before + {ids[n]};
    }
  }

  lemma {:induction false} MovedUnion(rows: Rows, page: seq<Id>, config: Config, before: seq<string>, asset: string, id: Id)
    requires Known(rows, page) && asset !in before
    ensures var group := Group(rows, page, asset);
            && (id in MovedIds(rows, page, config, before + [asset])
                <==> id in MovedIds(rows, page, config, before) || (Qualifies(rows, group, config) && id in IdsOf(group)))
            && !(id in MovedIds(rows, page, config, before) && id in IdsOf(group))
  {
    GroupMembers(rows, page, asset, id);
  }

  lemma {:induction false} Disjoint(all: set<Id>, a: set<Id>, b: set<Id>)
    requires forall id :: id in all <==> id in a || id in b
    requires forall id :: !(id in a && id in b)
    ensures |all| == |a| + |b|
  {
    assert all == a + b && a !! b;
  }

  lemma {:induction false} MovedWith(rows: Rows, page: seq<Id>, config: Config, before: seq<string>, asset: string)
    requires Known(rows, page) && Distinct(page) && asset !in before
    ensures var group := Group(rows, page, asset);
            |MovedIds(rows, page, config, before + [asset])|
            == |MovedIds(rows, page, config, before)| + if Qualifies(rows, group, config) then |group| else 0
  {
    var group := Group(rows, page, asset);
    GroupDistinct(rows, page, asset);
    SizeOfDistinct(group);
    forall id {
      MovedUnion(rows, page, config, before, asset, id);
    }
    Disjoint(MovedIds(rows, page, config, before + [asset]), MovedIds(rows, page, config, before),
             if Qualifies(rows, group, config) then IdsOf(group) else {});
  }

  /** The numbers of the batches a run writes add up to the number of rows it moves. */
  lemma {:induction false} CountsMoved(s: State, page: seq<Id>, config: Config, assets: seq<string>)
    requires Known(s.rows, page) && Distinct(page) && DistinctNames(assets)
    ensures TotalCount(Handled(s, page, config, assets).batches) == TotalCount(s.batches) + |MovedIds(s.rows, page, config, assets)|
  {
    if assets == [] {
      assert MovedIds(s.rows, page, config, assets) == {};
    } else {
      var n := |assets| - 1;
      CountsMoved(s, page, config, assets[..n]);
      assert assets == assets[..n] + [assets[n]];
      MovedWith(s.rows, page, config, assets[..n], assets[n]);
    }
  }

  // ---------- totals ----------

  lemma {:induction false} TotalsBalance(rows: Rows, ids: seq<Id>)
    requires Known(rows, ids) && forall i :: 0 <= i < |ids| ==> rows[ids[i]].gross == rows[ids[i]].fee + rows[ids[i]].net
    ensures TotalGross(rows, ids) == TotalFees(rows, ids) + TotalNet(rows, ids)
  {
    if ids != [] {
      TotalsBalance(rows, ids[..|ids| - 1]);
    }
  }

  predicate SameAmounts(a: Rows, b: Rows) {
    forall id :: id in a ==> id in b && b[id].(status := a[id].status) == a[id]
  }

  /** The sum of one column over some rows. */
  function SumOf(rows: Rows, ids: seq<Id>, column: Row -> real): real
    requires Known(rows, ids)
  {
    if ids == [] then 0.0 else SumOf(rows, ids[..|ids| - 1], column) + column(rows[ids[|ids| - 1]])
  }

  /** A batch row that states the number of its members, all different and of its asset, and the sum of each of their amounts. */
  ghost predicate Exact(rows: Rows, b: Batch) {
    && Known(rows, b.members) && Distinct(b.members)
    && (forall i :: 0 <= i < |b.members| ==> rows[b.members[i]].asset == b.asset)
    && b.totalCount == |b.members|
    && b.totalGross == SumOf(rows, b.members, (r: Row) => r.gross)
    && b.totalFees == SumOf(rows, b.members, (r: Row) => r.fee)
    && b.totalNet == SumOf(rows, b.members, (r: Row) => r.net)
  }

  lemma {:induction false} TotalGrossIs(rows: Rows, ids: seq<Id>, column: Row -> real)
    requires Known(rows, ids) && forall r: Row :: column(r) == r.gross
    ensures TotalGross(rows, ids) == SumOf(rows, ids, column)
  {
    if ids != [] {
      TotalGrossIs(rows, ids[..|ids| - 1], column);
    }
  }

  lemma {:induction false} TotalFeesIs(rows: Rows, ids: seq<Id>, column: Row -> real)
    requires Known(rows, ids) && forall r: Row :: column(r) == r.fee
    ensures TotalFees(rows, ids) == SumOf(rows, ids, column)
  {
    if ids != [] {
      TotalFeesIs(rows, ids[..|ids| - 1], column);
    }
  }

  lemma {:induction false} TotalNetIs(rows: Rows, ids: seq<Id>, column: Row -> real)
    requires Known(rows, ids) && forall r: Row :: column(r) == r.net
    ensures TotalNet(rows, ids) == SumOf(rows, ids, column)
  {
    if ids != [] {
      TotalNetIs(rows, ids[..|ids| - 1], column);
    }
  }

  lemma {:induction false} SumKept(a: Rows, b: Rows, ids: seq<Id>, column: Row -> real)
    requires Known(a, ids) && Known(b, ids) && forall i :: 0 <= i < |ids| ==> column(a[ids[i]]) == column(b[ids[i]])
    ensures SumOf(a, ids, column) == SumOf(b, ids, column)
  {
    if ids != [] {
      SumKept(a, b, ids[..|ids| - 1], column);
    }
  }

  ghost predicate AllExact(rows: Rows, batches: seq<Batch>) {
    forall k :: 0 <= k < |batches| ==> Exact(rows, batches[k])
  }

  lemma {:induction false} ExactKept(a: Rows, b: Rows, batch: Batch)
    requires Exact(a, batch) && SameAmounts(a, b)
    ensures Exact(b, batch)
  {
    var ids := batch.members;
    forall i | 0 <= i < |ids| ensures b[ids[i]].(status := a[ids[i]].status) == a[ids[i]] {
    }
    SumKept(a, b, ids, (r: Row) => r.gross);
    SumKept(a, b, ids, (r: Row) => r.fee);
    SumKept(a, b, ids, (r: Row) => r.net);
  }

  lemma {:induction false} AllExactKept(a: Rows, b: Rows, batches: seq<Batch>)
    requires AllExact(a, batches) && SameAmounts(a, b)
    ensures AllExact(b, batches)
  {
    forall k | 0 <= k < |batches|
      ensures Exact(b, batches[k])
    {
      ExactKept(a, b, batches[k]);
    }
  }

  lemma {:induction false} GroupExact(rows: Rows, page: seq<Id>, asset: string)
    requires Known(rows, page) && Distinct(page)
    ensures Exact(rows, BatchOf(rows, asset, Group(rows, page, asset)))
  {
    GroupDistinct(rows, page, asset);
    var group := Group(rows, page, asset);
    forall i | 0 <= i < |group|
      ensures rows[group[i]].asset == asset
    {
      GroupMembers(rows, page, asset, group[i]);
    }
    TotalGrossIs(rows, group, (r: Row) => r.gross);
    TotalFeesIs(rows, group, (r: Row) => r.fee);
    TotalNetIs(rows, group, (r: Row) => r.net);
  }

  lemma {:induction false} HandledExact(s: State, page: seq<Id>, config: Config, assets: seq<string>)
    requires Known(s.rows, page) && Distinct(page) && AllExact(s.rows, s.batches)
    ensures SameAmounts(s.rows, Handled(s, page, config, assets).rows)
    ensures AllExact(s.rows, Handled(s, page, config, assets).batches)
  {
    if assets != [] {
      HandledExact(s, page, config, assets[..|assets| - 1]);
      GroupExact(s.rows, page, assets[|assets| - 1]);
    }
  }

  // ---------- what a run writes, spelled out ----------

  /** All the page's rows of an asset, each once. */
  ghost predicate IsGroup(rows: Rows, page: seq<Id>, asset: string, g: seq<Id>) {
    Distinct(g) && Known(rows, g) && forall id :: id in g <==> id in page && id in rows && rows[id].asset == asset
  }

  /** A batch made from all the page's rows of its asset, enough of them, with the sums of their amounts. */
  ghost predicate MadeFrom(rows: Rows, page: seq<Id>, config: Config, b: Batch) {
    && Exact(rows, b) && b.members != []
    && IsGroup(rows, page, b.asset, b.members)
    && (b.totalCount >= config.minCount || (config.volumeThreshold > 0.0 && b.totalGross >= config.volumeThreshold))
  }

  lemma {:induction false} GroupIs(rows: Rows, page: seq<Id>, asset: string)
    requires Known(rows, page) && Distinct(page)
    ensures IsGroup(rows, page, asset, Group(rows, page, asset))
  {
    GroupDistinct(rows, page, asset);
    forall id ensures id in Group(rows, page, asset) <==> id in page && id in rows && rows[id].asset == asset {
      GroupMembers(rows, page, asset, id);
    }
  }

  ghost predicate Ranked(ids: seq<Id>, rank: Id -> int) {
    forall i, j :: 0 <= i < j < |ids| ==> rank(ids[i]) < rank(ids[j])
  }

  /** A group keeps the order of the page, whatever the rows are ranked by. */
  lemma {:induction false} GroupInPageOrder(rows: Rows, page: seq<Id>, asset: string, rank: Id -> int)
    requires Known(rows, page) && Ranked(page, rank)
    ensures Ranked(Group(rows, page, asset), rank)
  {
    if page != [] {
      var n := |page| - 1;
      GroupInPageOrder(rows, page[..n], asset, rank);
      var g := Group(rows, page[..n], asset);
      forall i | 0 <= i < |g| ensures rank(g[i]) < rank(page[n]) {
        GroupMembers(rows, page[..n], asset, g[i]);
        var k :| 0 <= k < n && page[..n][k] == g[i];
        assert page[k] == g[i];
      }
      RankedMore(g, page[n], rank);
    }
  }

  lemma {:induction false} RankedMore(g: seq<Id>, id: Id, rank: Id -> int)
    requires Ranked(g, rank) && forall i :: 0 <= i < |g| ==> rank(g[i]) < rank(id)
    ensures Ranked(g + [id], rank) && Ranked(g + [], rank)
  {
    assert g + [] == g;
  }

  /** Assets come in order of first appearance: some row of the earlier one precedes every row of the later one. */
  lemma {:induction false} AssetsInPageOrder(rows: Rows, page: seq<Id>, i: nat, j: nat) returns (p: nat)
    requires Known(rows, page) && i < j < |Assets(rows, page)|
    ensures p < |page| && rows[page[p]].asset == Assets(rows, page)[i]
    ensures forall q :: 0 <= q < |page| && rows[page[q]].asset == Assets(rows, page)[j] ==> p < q
  {
    var n := |page| - 1;
    var before := Assets(rows, page[..n]);
    if j < |before| {
      p := AssetsInPageOrder(rows, page[..n], i, j);
      forall q | 0 <= q < |page| && rows[page[q]].asset == before[j] ensures p < q {
        assert q < n ==> rows[page[..n][q]].asset == before[j];
      }
    } else {
      AssetsExact(rows, page[..n], before[i]);
      p :| 0 <= p < n && rows[page[..n][p]].asset == before[i];
      AssetsExact(rows, page[..n], rows[page[n]].asset);
      assert forall q :: 0 <= q < n ==> rows[page[..n][q]].asset != rows[page[n]].asset;
      forall q | 0 <= q < n ensures rows[page[q]].asset != rows[page[n]].asset {
        assert page[..n][q] == page[q];
      }
    }
  }

  lemma {:induction false} NonEmptyGroup(rows: Rows, page: seq<Id>, asset: string)
    requires Known(rows, page) && asset in Assets(rows, page)
    ensures Group(rows, page, asset) != []
  {
    AssetsExact(rows, page, asset);
    var i :| 0 <= i < |page| && rows[page[i]].asset == asset;
    GroupMembers(rows, page, asset, page[i]);
  }

  lemma {:induction false} BatchMade(rows: Rows, page: seq<Id>, config: Config, asset: string)
    requires Known(rows, page) && Distinct(page) && asset in Assets(rows, page)
    requires Qualifies(rows, Group(rows, page, asset), config)
    ensures MadeFrom(rows, page, config, BatchOf(rows, asset, Group(rows, page, asset)))
  {
    GroupIs(rows, page, asset);
    GroupExact(rows, page, asset);
    NonEmptyGroup(rows, page, asset);
  }

  /** The batches some groups add: each made from the page, no two of one asset. */
  ghost predicate Added(s: State, page: seq<Id>, config: Config, assets: seq<string>, more: seq<Batch>) {
    && (forall k :: 0 <= k < |more| ==> MadeFrom(s.rows, page, config, more[k]) && more[k].asset in assets)
    && (forall j, k :: 0 <= j < k < |more| ==> more[j].asset != more[k].asset)
  }

  ghost predicate HasAsset(more: seq<Batch>, asset: string) {
    exists k :: 0 <= k < |more| && more[k].asset == asset
  }

  lemma {:induction false} HandledAdds(s: State, page: seq<Id>, config: Config, assets: seq<string>) returns (more: seq<Batch>)
    requires Known(s.rows, page) && Distinct(page) && DistinctNames(assets)
    requires forall a :: a in assets ==> a in Assets(s.rows, page)
    ensures Handled(s, page, config, assets).batches == s.batches + more && Added(s, page, config, assets, more)
    ensures forall a :: a in assets ==> (Qualifies(s.rows, Group(s.rows, page, a), config) <==> HasAsset(more, a))
  {
    if assets == [] {
      more := [];
    } else {
      var n := |assets| - 1;
      var asset := assets[n];
      assert assets == assets[..n] + [asset] && asset !in assets[..n];
      more := HandledAdds(s, page, config, assets[..n]);
      if Qualifies(s.rows, Group(s.rows, page, asset), config) {
        BatchMade(s.rows, page, config, asset);
        more := AddOne(s, page, config, assets[..n], asset, more, BatchOf(s.rows, asset, Group(s.rows, page, asset)));
      }
    }
  }

  lemma {:induction false} AddOne(s: State, page: seq<Id>, config: Config, assets: seq<string>, asset: string, more: seq<Batch>, b: Batch)
    returns (all: seq<Batch>)
    requires Added(s, page, config, assets, more) && asset !in assets && b.asset == asset && MadeFrom(s.rows, page, config, b)
    ensures all == more + [b] && Added(s, page, config, assets + [asset], all)
    ensures forall a :: HasAsset(all, a) <==> HasAsset(more, a) || a == asset
  {
    all := more + [b];
    assert all[|more|] == b;
    forall a ensures HasAsset(all, a) <==> HasAsset(more, a) || a == asset {
      if k :| 0 <= k < |more| && more[k].asset == a {
        assert all[k].asset == a;
      }
      if k :| 0 <= k < |all| && all[k].asset == a {
        assert k < |more| ==> more[k].asset == a;
      }
    }
  }

  /**
   What one run writes, named field by field: `more` batches, no two of one
   asset, each of all its asset's rows of the page and large enough, with their
   number and the sums of their gross, fees and net; and a batch for every asset
   of the page whose rows are large enough.
   */
  lemma {:induction false} RunWritesExactly(s: State, page: seq<Id>, config: Config) returns (more: seq<Batch>)
    requires IsOldest(s.rows, config.maxBatchSize, page) && Known(s.rows, page)
    ensures AfterRun(s, page, config).batches == s.batches + more
    ensures forall k :: 0 <= k < |more| ==> MadeFrom(s.rows, page, config, more[k])
    ensures forall j, k :: 0 <= j < k < |more| ==> more[j].asset != more[k].asset
    ensures forall id :: id in page ==> Served(s.rows, page, config, s.rows[id].asset, more)
    ensures AfterRun(s, page, config).rows ==
            map id | id in s.rows :: if InSome(more, id) then s.rows[id].(status := Processing) else s.rows[id]
  {
    OldestIsDistinct(s.rows, config.maxBatchSize, page);
    AssetsExact(s.rows, page, "");
    more := HandledAdds(s, page, config, Assets(s.rows, page));
    forall id | id in page ensures Served(s.rows, page, config, s.rows[id].asset, more) {
      IsServed(s, page, config, more, id);
    }
    RowsWritten(s, page, config, more);
  }

  lemma {:induction false} IsServed(s: State, page: seq<Id>, config: Config, more: seq<Batch>, id: Id)
    requires Known(s.rows, page) && Distinct(page) && id in page
    requires forall a :: a in Assets(s.rows, page) ==> (Qualifies(s.rows, Group(s.rows, page, a), config) <==> HasAsset(more, a))
    ensures Served(s.rows, page, config, s.rows[id].asset, more)
  {
    var a := s.rows[id].asset;
    var i :| 0 <= i < |page| && page[i] == id;
    AssetsExact(s.rows, page, a);
    var g := Group(s.rows, page, a);
    GroupIs(s.rows, page, a);
    TotalGrossIs(s.rows, g, (r: Row) => r.gross);
    assert Undersized(s.rows, page, config, a, g) || Qualifies(s.rows, g, config);
  }

  lemma {:induction false} RowsWritten(s: State, page: seq<Id>, config: Config, more: seq<Batch>)
    requires IsOldest(s.rows, config.maxBatchSize, page) && Known(s.rows, page)
    requires Added(s, page, config, Assets(s.rows, page), more)
    requires forall a :: a in Assets(s.rows, page) ==> (Qualifies(s.rows, Group(s.rows, page, a), config) <==> HasAsset(more, a))
    ensures AfterRun(s, page, config).rows ==
            map id | id in s.rows :: if InSome(more, id) then s.rows[id].(status := Processing) else s.rows[id]
  {
    var rows := AfterRun(s, page, config).rows;
    RunMovesExactly(s, page, config, 0);
    forall id | id in rows ensures rows[id] == if InSome(more, id) then s.rows[id].(status := Processing) else s.rows[id] {
      RunMovesExactly(s, page, config, id);
      MovedIsBatched(s, page, config, more, id);
    }
  }

  ghost predicate InSome(more: seq<Batch>, id: Id) {
    exists k :: 0 <= k < |more| && id in more[k].members
  }

  lemma {:induction false} MovedIsBatched(s: State, page: seq<Id>, config: Config, more: seq<Batch>, id: Id)
    requires Known(s.rows, page) && id in s.rows && Added(s, page, config, Assets(s.rows, page), more)
    requires forall a :: a in Assets(s.rows, page) ==> (Qualifies(s.rows, Group(s.rows, page, a), config) <==> HasAsset(more, a))
    ensures Moves(s.rows, page, config, id) <==> InSome(more, id)
  {
    var a := s.rows[id].asset;
    AssetsExact(s.rows, page, a);
    if id in page {
      var i :| 0 <= i < |page| && page[i] == id;
      assert s.rows[page[i]].asset == a;
      if k :| 0 <= k < |more| && more[k].asset == a {
        assert MadeFrom(s.rows, page, config, more[k]);
        assert id in more[k].members;
      }
    }
    if k :| 0 <= k < |more| && id in more[k].members {
      assert MadeFrom(s.rows, page, config, more[k]);
      assert more[k].asset == a;
    }
  }

  ghost predicate Undersized(rows: Rows, page: seq<Id>, config: Config, asset: string, g: seq<Id>) {
    && IsGroup(rows, page, asset, g)
    && |g| < config.minCount
    && (config.volumeThreshold <= 0.0 || SumOf(rows, g, (r: Row) => r.gross) < config.volumeThreshold)
  }

  /** An asset has a batch, unless its rows are too few and too small. */
  ghost predicate Served(rows: Rows, page: seq<Id>, config: Config, asset: string, more: seq<Batch>) {
    HasAsset(more, asset) || exists g: seq<Id> :: Undersized(rows, page, config, asset, g)
  }

  // ---------- runs ----------

  /** Between runs settlements are created pending and their statuses updated; each batching run is one step. */
  datatype Event = Enqueue(id: Id, row: Row) | Update(id: Id, status: Status) | BatchingRun(config: Config, page: seq<Id>)

  predicate Enabled(s: State, e: Event) {
    match e
    case Enqueue(id, row) => id !in s.rows && row.status == Pending
    case Update(id, status) => id in s.rows && ValidateTransition(s.rows[id].status, status)
    case BatchingRun(config, page) => IsOldest(s.rows, config.maxBatchSize, page) && Known(s.rows, page)
  }

  function Step(s: State, e: Event): State
    requires Enabled(s, e)
  {
    match e
    case Enqueue(id, row) => s.(rows := s.rows[id := row])
    case Update(id, status) => s.(rows := s.rows[id := s.rows[id].(status := status)])
    case BatchingRun(config, page) => AfterRun(s, page, config)
  }

  /** A run skips events that are not enabled. */
  function Run(s: State, es: seq<Event>): State {
    if es == [] then s
    else
      var t := Run(s, es[..|es| - 1]);
      if Enabled(t, es[|es| - 1]) then Step(t, es[|es| - 1]) else t
  }

  /** A settlement is in at most one batch, and in none before it exists or while it is pending. */
  predicate CountedOnce(s: State, id: Id) {
    TimesBatched(s.batches, id) <= if id !in s.rows || s.rows[id].status == Pending then 0 else 1
  }

  predicate Balanced(rows: Rows) {
    forall id :: id in rows ==> rows[id].gross == rows[id].fee + rows[id].net
  }

  lemma {:induction false} StepCountsOnce(s: State, e: Event, id: Id)
    requires Enabled(s, e) && CountedOnce(s, id)
    ensures CountedOnce(Step(s, e), id)
  {
    match e
    case BatchingRun(config, page) => RunMovesExactly(s, page, config, id);
    case _ =>
  }

  /** No settlement is ever counted in two batches, over any sequence of runs and status updates. */
  lemma {:induction false} NeverCountedTwice(s: State, es: seq<Event>, id: Id)
    requires s.batches == []
    ensures CountedOnce(Run(s, es), id)
  {
    if es != [] {
      NeverCountedTwice(s, es[..|es| - 1], id);
      var t := Run(s, es[..|es| - 1]);
      if Enabled(t, es[|es| - 1]) {
        StepCountsOnce(t, es[|es| - 1], id);
      }
    }
  }

  lemma {:induction false} StepExact(s: State, e: Event)
    requires Enabled(s, e) && AllExact(s.rows, s.batches)
    ensures SameAmounts(s.rows, Step(s, e).rows) && AllExact(Step(s, e).rows, Step(s, e).batches)
  {
    match e
    case BatchingRun(config, page) =>
      OldestIsDistinct(s.rows, config.maxBatchSize, page);
      HandledExact(s, page, config, Assets(s.rows, page));
      AllExactKept(s.rows, Step(s, e).rows, Step(s, e).batches);
    case _ => AllExactKept(s.rows, Step(s, e).rows, s.batches);
  }

  /** Every batch ever written states the exact sums over its members, which never change afterwards. */
  lemma {:induction false} BatchesStayExact(s: State, es: seq<Event>)
    requires s.batches == []
    ensures AllExact(Run(s, es).rows, Run(s, es).batches)
  {
    if es != [] {
      BatchesStayExact(s, es[..|es| - 1]);
      var t := Run(s, es[..|es| - 1]);
      if Enabled(t, es[|es| - 1]) {
        StepExact(t, es[|es| - 1]);
      }
    }
  }

  /** And every batch was made by one run, from all the rows of its asset in the page that run read. */
  lemma {:induction false} EachBatchFromOneRun(s: State, es: seq<Event>, k: nat) returns (i: nat)
    requires s.batches == [] && k < |Run(s, es).batches|
    ensures i < |es| && es[i].BatchingRun?
    ensures OldestPending(Run(s, es[..i]).rows, es[i].config.maxBatchSize, es[i].page)
    ensures MadeFrom(Run(s, es[..i]).rows, es[i].page, es[i].config, Run(s, es).batches[k])
  {
    var n := |es| - 1;
    var t, e := Run(s, es[..n]), es[n];
    if k < |t.batches| {
      i := EachBatchFromOneRun(s, es[..n], k);
      assert es[..n][..i] == es[..i];
      if Enabled(t, e) && e.BatchingRun? {
        var more := RunWritesExactly(t, e.page, e.config);
      }
    } else {
      i := n;
      PageExactly(t.rows, e.config.maxBatchSize, e.page);
      var more := RunWritesExactly(t, e.page, e.config);
    }
  }

  /** So where every settlement's gross is its fee plus its net, so is every batch's. */
  lemma {:induction false} BatchesBalance(s: State, es: seq<Event>, k: nat)
    requires s.batches == [] && k < |Run(s, es).batches| && Balanced(Run(s, es).rows)
    ensures var b := Run(s, es).batches[k]; b.totalGross == b.totalFees + b.totalNet
  {
    BatchesStayExact(s, es);
    var rows, b := Run(s, es).rows, Run(s, es).batches[k];
    TotalsBalance(rows, b.members);
    TotalGrossIs(rows, b.members, (r: Row) => r.gross);
    TotalFeesIs(rows, b.members, (r: Row) => r.fee);
    TotalNetIs(rows, b.members, (r: Row) => r.net);
  }

  // ---------- the job ----------

  method OldestOf(rows: Rows, rest: set<Id>) returns (m: Id)
    requires rest != {} && rest <= rows.Keys
    ensures m in rest && forall x :: x in rest && x != m ==> Older(rows, m, x)
  {
    m :| m in rest;
    var todo := rest - {m};
    while todo != {}
      invariant m in rest && todo <= rest
      invariant forall x :: x in rest && x !in todo && x != m ==> Older(rows, m, x)
      decreases todo
    {
      var y :| y in todo;
      if Older(rows, y, m) {
        m := y;
      }
      todo := todo - {y};
    }
  }

  class Store {
    var rows: Rows
    var batches: seq<Batch>

    ghost function Contents(): State
      reads this
    {
      State(rows, batches)
    }

    /** `findMany` with its filter, order and `take`. */
    method FindPending(maxBatchSize: int) returns (page: seq<Id>)
      ensures IsOldest(rows, maxBatchSize, page) && Known(rows, page)
      ensures OldestPending(rows, maxBatchSize, page)
    {
      page := [];
      var rest := PendingIds(rows);
      while rest != {} && (maxBatchSize <= 0 || |page| < maxBatchSize)
        invariant rest <= PendingIds(rows)
        invariant maxBatchSize > 0 ==> |page| <= maxBatchSize
        invariant forall i :: 0 <= i < |page| ==> page[i] in PendingIds(rows)
        invariant forall i, j :: 0 <= i < j < |page| ==> Older(rows, page[i], page[j])
        invariant forall x, i :: x in rest && 0 <= i < |page| ==> Older(rows, page[i], x)
        invariant forall x :: x in PendingIds(rows) ==> x in rest || x in page
        decreases rest
      {
        var m := OldestOf(rows, rest);
        page := page + [m];
        rest := rest - {m};
      }
      PageExactly(rows, maxBatchSize, page);
    }

    method CreateBatch(batch: Batch)
      modifies `batches
      ensures batches == old(batches) + [batch]
    {
      batches := batches + [batch];
    }

    /** `updateMany({ id: { in: ids } }, { status: "processing" })`. */
    method MarkProcessing(ids: seq<Id>)
      modifies `rows
      ensures rows == SetProcessing(old(rows), ids)
    {
      rows := SetProcessing(rows, ids);
    }
  }

  lemma {:induction false} GroupMore(rows: Rows, page: seq<Id>, i: nat, asset: string)
    requires Known(rows, page) && i < |page|
    ensures Group(rows, page[..i + 1], asset)
         == Group(rows, page[..i], asset) + if rows[page[i]].asset == asset then [page[i]] else []
    ensures Assets(rows, page[..i + 1])
         == Assets(rows, page[..i]) + if rows[page[i]].asset in Assets(rows, page[..i]) then [] else [rows[page[i]].asset]
  {
    assert page[..i + 1][..i] == page[..i];
  }

  lemma {:induction false} NoGroup(rows: Rows, page: seq<Id>, asset: string)
    requires Known(rows, page) && asset !in Assets(rows, page)
    ensures Group(rows, page, asset) == []
  {
    if page != [] {
      NoGroup(rows, page[..|page| - 1], asset);
    }
  }

  /** One push of the grouping `reduce`. */
  method Push(grouped: map<string, seq<Id>>, order: seq<string>, asset: string, id: Id)
    returns (grouped': map<string, seq<Id>>, order': seq<string>)
    requires grouped.Keys == set a | a in order
    ensures grouped'.Keys == set a | a in order'
    ensures order' == order + if asset in order then [] else [asset]
    ensures grouped' == grouped[asset := (if asset in order then grouped[asset] else []) + [id]]
  {
    grouped', order' := grouped, order;
    if asset !in grouped' {
      grouped', order' := grouped'[asset := []], order' + [asset];
    }
    grouped' := grouped'[asset := grouped'[asset] + [id]];
  }

  /** The `reduce` that groups a page: each asset's settlements, and the assets in order of first appearance. */
  method GroupByAsset(rows: Rows, page: seq<Id>) returns (order: seq<string>, grouped: map<string, seq<Id>>)
    requires Known(rows, page)
    ensures order == Assets(rows, page)
    ensures forall a :: a in order ==> a in grouped && grouped[a] == Group(rows, page, a)
  {
    order, grouped := [], map[];
    for i := 0 to |page|
      invariant order == Assets(rows, page[..i])
      invariant grouped.Keys == set a | a in order
      invariant forall a :: a in grouped ==> grouped[a] == Group(rows, page[..i], a)
    {
      var asset := rows[page[i]].asset;
      if asset !in order {
        NoGroup(rows, page[..i], asset);
      }
      forall a {
        GroupMore(rows, page, i, a);
      }
      grouped, order := Push(grouped, order, asset, page[i]);
    }
    assert page[..|page|] == page;
  }

  function AfterGroup(t: State, rows: Rows, config: Config, asset: string, group: seq<Id>): State
    requires Known(rows, group)
  {
    if Qualifies(rows, group, config)
    then State(SetProcessing(t.rows, group), t.batches + [BatchOf(rows, asset, group)]) else t
  }

  lemma {:induction false} HandledMore(s: State, page: seq<Id>, config: Config, assets: seq<string>, i: nat)
    requires Known(s.rows, page) && i < |assets|
    ensures Handled(s, page, config, assets[..i + 1])
         == AfterGroup(Handled(s, page, config, assets[..i]), s.rows, config, assets[i], Group(s.rows, page, assets[i]))
  {
    assert assets[..i + 1][..i] == assets[..i];
  }

  /** The body of the loop over assets; `rows` are the settlements as they were read. */
  method BatchAsset(store: Store, rows: Rows, config: Config, asset: string, settlements: seq<Id>) returns (moved: nat)
    requires Known(rows, settlements)
    modifies store
    ensures store.Contents() == AfterGroup(old(store.Contents()), rows, config, asset, settlements)
    ensures moved == if Qualifies(rows, settlements, config) then |settlements| else 0
  {
    var totalGross := TotalGross(rows, settlements);
    if |settlements| >= config.minCount || (config.volumeThreshold > 0.0 && totalGross >= config.volumeThreshold) {
      store.CreateBatch(Batch(asset, |settlements|, totalGross, TotalFees(rows, settlements), TotalNet(rows, settlements), settlements));
      store.MarkProcessing(settlements);
      return |settlements|;
    }
    return 0;
  }

  lemma {:induction false} CountMore(t: State, rows: Rows, config: Config, asset: string, group: seq<Id>)
    requires Known(rows, group)
    ensures TotalCount(AfterGroup(t, rows, config, asset, group).batches)
         == TotalCount(t.batches) + if Qualifies(rows, group, config) then |group| else 0
  {
    assert (t.batches + [BatchOf(rows, asset, group)])[..|t.batches|] == t.batches;
  }

  /**
   One pass. The store ends as the run's specification says for the page of the
   oldest pending rows, and `batched` is the number of rows moved.
   */
  method RunSettlementBatching(store: Store, config: Config) returns (batched: nat, assets: seq<string>, ghost page: seq<Id>)
    modifies store
    ensures IsOldest(old(store.rows), config.maxBatchSize, page) && Known(old(store.rows), page)
    ensures store.Contents() == AfterRun(old(store.Contents()), page, config)
    ensures assets == Assets(old(store.rows), page)
    ensures old(store.batches) <= store.batches
    ensures forall k :: |old(store.batches)| <= k < |store.batches| ==> MadeFrom(old(store.rows), page, config, store.batches[k])
    ensures batched == TotalCount(store.batches) - TotalCount(old(store.batches))
    ensures batched == |MovedIds(old(store.rows), page, config, assets)|
  {
    var rows := store.rows;
    var pending := store.FindPending(config.maxBatchSize);
    page := pending;
    OldestIsDistinct(rows, config.maxBatchSize, page);
    if |pending| == 0 {
      return 0, [], page;
    }
    var grouped;
    assets, grouped := GroupByAsset(rows, pending);
    AssetsExact(rows, page, "");
    batched := 0;
    ghost var start := store.Contents();
    for i := 0 to |assets|
      invariant store.Contents() == Handled(start, page, config, assets[..i])
      invariant TotalCount(store.batches) == TotalCount(start.batches) + batched
    {
      HandledMore(start, page, config, assets, i);
      CountMore(store.Contents(), rows, config, assets[i], grouped[assets[i]]);
      var moved := BatchAsset(store, rows, config, assets[i], grouped[assets[i]]);
      batched := batched + moved;
    }
    assert assets[..|assets|] == assets;
    CountsMoved(start, page, config, assets);
    ghost var more := RunWritesExactly(start, page, config);
  }
}

/** `claimBatchForProcessing`: a conditional update, then a read when it changed nothing. */
module BatchClaims {
  import opened Options

  type Id = nat

  type Worker = nat

  datatype Outcome = Claimed | NotClaimed | AlreadyProcessed | NotFound

  /** The batch table, with the call that set each `processedAt`. */
  class BatchTable {
    var processedAt: map<Id, Option<int>>
    ghost var claimedBy: map<Id, Worker>

    ghost predicate Valid()
      reads this
    {
      forall id :: id in claimedBy ==> id in processedAt && processedAt[id].Some?
    }

    constructor ()
      ensures Valid() && processedAt == map[] && claimedBy == map[]
    {
      processedAt, claimedBy := map[], map[];
    }

    /** Claims are kept, and no claim of `worker` is made. */
    twostate predicate Grows(worker: Worker)
      reads this
    {
      && (forall id :: id in old(processedAt) ==> id in processedAt && (old(processedAt)[id].Some? ==> processedAt[id] == old(processedAt)[id]))
      && (forall id :: id in old(claimedBy) ==> id in claimedBy && claimedBy[id] == old(claimedBy)[id])
      && (forall id :: id in claimedBy && claimedBy[id] == worker ==> id in old(claimedBy) && old(claimedBy)[id] == worker)
    }

    /** Other workers claim batches and batching runs create them. */
    method Interference(ghost worker: Worker)
      requires Valid()
      modifies this
      ensures Valid() && Grows(worker)
    {
    }

    /** The one statement that claims: `UPDATE … WHERE id = … AND processedAt IS NULL`. */
    method ClaimIfUnprocessed(id: Id, now: int, ghost worker: Worker) returns (count: nat)
      requires Valid()
      modifies this
      ensures Valid()
      ensures count == if id in old(processedAt) && old(processedAt)[id].None? then 1 else 0
      ensures processedAt == if count == 1 then old(processedAt)[id := Some(now)] else old(processedAt)
      ensures claimedBy == if count == 1 then old(claimedBy)[id := worker] else old(claimedBy)
      ensures count == 1 ==> id !in old(claimedBy)
    {
      count := 0;
      if id in processedAt && processedAt[id].None? {
        processedAt, claimedBy, count := processedAt[id := Some(now)], claimedBy[id := worker], 1;
      }
    }

    /**
     A call claims the batch exactly when the claim is recorded as its own; as
     `claimedBy` is a map that never changes an entry, no two calls ever claim
     one batch. Whatever else it answers, a batch that existed at the start
     has been claimed by someone.
     */
    method ClaimBatchForProcessing(id: Id, now: int, ghost worker: Worker) returns (outcome: Outcome)
      requires Valid() && worker !in claimedBy.Values
      modifies this
      ensures Valid()
      ensures outcome.Claimed? <==> id in claimedBy && claimedBy[id] == worker
      ensures forall b :: b in old(claimedBy) ==> b in claimedBy && claimedBy[b] == old(claimedBy)[b]
      ensures id in old(processedAt) ==> id in processedAt && processedAt[id].Some? && outcome in {Claimed, AlreadyProcessed}
      ensures outcome.AlreadyProcessed? ==> id in processedAt && processedAt[id].Some?
      ensures outcome.NotFound? ==> id !in old(processedAt)
    {
      Interference(worker);
      label Updating:
      var count := ClaimIfUnprocessed(id, now, worker);
      if count == 0 {
        label Reading:
        Interference(worker);
        if id !in processedAt {
          return NotFound;
        }
        if processedAt[id].Some? {
          return AlreadyProcessed;
        }
        return NotClaimed;
      }
      return Claimed;
    }
  }
}
