/** Ordered pages of a table, as `ORDER BY id ASC ... LIMIT n` returns them. */
module Pages {

  /** Row ids, by their rank in the database's collation order. */
  type Id = nat

  predicate Ascending(s: seq<Id>) {
    forall i, j :: 0 <= i < j < |s| ==> s[i] < s[j]
  }

  /** The first `limit` rows of a table in ascending order. */
  predicate IsPage(all: set<Id>, limit: nat, page: seq<Id>) {
    && |page| <= limit
    && Ascending(page)
    && (forall i :: 0 <= i < |page| ==> page[i] in all)
    && (forall x :: x in all && x !in page ==> |page| == limit && forall i :: 0 <= i < |page| ==> page[i] < x)
  }

  method Least(s: set<Id>) returns (m: Id)
    requires s != {}
    ensures m in s && forall x :: x in s ==> m <= x
  {
    m :| m in s;
    var rest := s - {m};
    while rest != {}
      invariant m in s && rest <= s
      invariant forall x :: x in s && x !in rest ==> m <= x
      decreases rest
    {
      var y :| y in rest;
      if y < m {
        m := y;
      }
      rest := rest - {y};
    }
  }

  method FirstRows(all: set<Id>, limit: nat) returns (page: seq<Id>)
    ensures IsPage(all, limit, page)
  {
    page := [];
    var rest := all;
    while |page| < limit && rest != {}
      invariant |page| <= limit && Ascending(page) && rest <= all
      invariant forall i :: 0 <= i < |page| ==> page[i] in all
      invariant forall x :: x in all ==> x in rest || x in page
      invariant forall x, i :: x in rest && 0 <= i < |page| ==> page[i] < x
      decreases rest
    {
      var m := Least(rest);
      page := page + [m];
      rest := rest - {m};
    }
  }
}

/** `forEachBatch`: a keyset scan while other processes insert and delete rows. */
module BatchScan {
  import opened Options
  import opened Pages

  /**
   A table under concurrent change. `steady` are the rows present in every state
   since the scan began. Ids stay below `bound`, an arbitrary number: it only
   says that one run meets finitely many ids.
   */
  class Table {
    var rows: set<Id>
    ghost var steady: set<Id>
    ghost const bound: nat

    constructor (rows: set<Id>, ghost bound: nat)
      requires forall x :: x in rows ==> x < bound
      ensures Valid() && this.rows == rows && this.bound == bound
    {
      this.rows, this.steady, this.bound := rows, rows, bound;
    }

    ghost predicate Valid()
      reads this
    {
      steady <= rows && forall x :: x in rows ==> x < bound
    }

    /** Other processes insert and delete any rows. */
    method Interference()
      requires Valid()
      modifies this
      ensures Valid() && steady == old(steady) * rows
    {
      steady := steady * rows;
    }

    /** A fetcher that keeps the contract: rows above the cursor in ascending order, the last id as next cursor of a full page. */
    method FetchPage(cursor: Option<Id>, limit: nat) returns (items: seq<Id>, nextCursor: Option<Id>)
      requires limit > 0
      ensures IsPage(RowsBeyond(rows, cursor), limit, items)
      ensures nextCursor == if |items| == limit then Some(items[|items| - 1]) else None
    {
      items := FirstRows(RowsBeyond(rows, cursor), limit);
      nextCursor := if |items| == limit then Some(items[|items| - 1]) else None;
    }
  }

  predicate Beyond(x: Id, cursor: Option<Id>) {
    cursor.None? || x > cursor.value
  }

  function RowsBeyond(rows: set<Id>, cursor: Option<Id>): set<Id> {
    set x | x in rows && Beyond(x, cursor)
  }

  function Flat(batches: seq<seq<Id>>): seq<Id> {
    if batches == [] then [] else Flat(batches[..|batches| - 1]) + batches[|batches| - 1]
  }

  datatype Summary = Summary(batches: nat, itemsProcessed: nat, terminatedEarly: bool)

  datatype Outcome = Finished(summary: Summary) | BadBatchSize | BadMaxBatches

  /** Whether the run stopped for another reason than reaching the end. */
  predicate CutShort(s: Summary, maxBatches: Option<int>) {
    s.terminatedEarly || (maxBatches.Some? && s.batches >= maxBatches.value)
  }

  /** All that was handed over is in ascending order above the starting cursor, hence nothing twice. */
  predicate InOrder(flat: seq<Id>, start: Option<Id>) {
    Ascending(flat) && forall i :: 0 <= i < |flat| ==> Beyond(flat[i], start)
  }

  /** Every steady row above the start was handed over, or lies above everything handed over. */
  ghost predicate Prefix(steady: set<Id>, flat: seq<Id>, start: Option<Id>) {
    forall x, i :: x in steady && Beyond(x, start) && x !in flat && 0 <= i < |flat| ==> flat[i] < x
  }

  /** Every steady row above the start was handed over. */
  ghost predicate Complete(steady: set<Id>, flat: seq<Id>, start: Option<Id>) {
    forall x :: x in steady && Beyond(x, start) ==> x in flat
  }

  /** Where the next page starts. */
  function CursorAfter(flat: seq<Id>, start: Option<Id>): Option<Id> {
    if flat == [] then start else Some(flat[|flat| - 1])
  }

  /** How many ids the scan can still meet. */
  function Left(flat: seq<Id>, bound: nat): int {
    if flat == [] then bound else bound - flat[|flat| - 1] - 1
  }

  lemma {:induction false} FlatAppend(batches: seq<seq<Id>>, last: seq<Id>)
    ensures Flat(batches + [last]) == Flat(batches) + last
  {
    assert (batches + [last])[..|batches|] == batches;
  }

  /** What one more page adds, when it continues exactly where the last one ended. */
  lemma {:induction false} AppendPage(flat: seq<Id>, start: Option<Id>, rows: set<Id>, steady: set<Id>, limit: nat, page: seq<Id>)
    requires InOrder(flat, start) && Prefix(steady, flat, start) && steady <= rows
    requires IsPage(RowsBeyond(rows, CursorAfter(flat, start)), limit, page)
    ensures InOrder(flat + page, start)
    ensures Prefix(steady, flat + page, start)
    ensures |page| < limit ==> Complete(steady, flat + page, start)
  {
    var all := RowsBeyond(rows, CursorAfter(flat, start));
    forall i | 0 <= i < |page| ensures Beyond(page[i], start) && forall k :: 0 <= k < |flat| ==> flat[k] < page[i] {
      assert page[i] in all;
    }
    forall x | x in steady && Beyond(x, start) && x !in flat + page
      ensures |page| == limit && forall i :: 0 <= i < |flat + page| ==> (flat + page)[i] < x
    {
      assert x in all;
    }
  }

  lemma {:induction false} SteadyShrinks(small: set<Id>, large: set<Id>, flat: seq<Id>, start: Option<Id>)
    requires small <= large && Prefix(large, flat, start)
    ensures Prefix(small, flat, start)
  {
  }

  /** The table changes, then the next page is read. */
  method NextPage(table: Table, cursor: Option<Id>, limit: nat, ghost flat: seq<Id>, ghost start: Option<Id>)
    returns (items: seq<Id>, nextCursor: Option<Id>)
    requires table.Valid() && limit > 0 && cursor == CursorAfter(flat, start)
    requires InOrder(flat, start) && Prefix(table.steady, flat, start)
    requires Left(flat, table.bound) >= 0
    modifies table
    ensures table.Valid() && |items| <= limit
    ensures InOrder(flat + items, start) && Prefix(table.steady, flat + items, start)
    ensures |items| < limit ==> Complete(table.steady, flat + items, start)
    ensures items != [] ==> 0 <= Left(flat + items, table.bound) < Left(flat, table.bound)
    ensures nextCursor == if |items| == limit then Some(items[|items| - 1]) else None
  {
    table.Interference();
    SteadyShrinks(table.steady, old(table.steady), flat, start);
    items, nextCursor := table.FetchPage(cursor, limit);
    AppendPage(flat, start, table.rows, table.steady, limit, items);
    if items != [] {
      assert items[|items| - 1] in RowsBeyond(table.rows, cursor);
      assert (flat + items)[|flat + items| - 1] == items[|items| - 1];
    }
  }

  /** The batches handed over: none empty, none too long, and `onBatch` let all but the last go on. */
  ghost predicate Delivered(delivered: seq<seq<Id>>, batchSize: int, decide: (seq<Id>, nat) -> bool) {
    && (forall k :: 0 <= k < |delivered| ==> 0 < |delivered[k]| <= batchSize)
    && (forall k :: 0 <= k < |delivered| - 1 ==> decide(delivered[k], k))
  }

  ghost predicate Stopped(delivered: seq<seq<Id>>, decide: (seq<Id>, nat) -> bool) {
    delivered != [] && !decide(delivered[|delivered| - 1], |delivered| - 1)
  }

  lemma {:induction false} DeliveredMore(delivered: seq<seq<Id>>, items: seq<Id>, batchSize: int, decide: (seq<Id>, nat) -> bool)
    requires Delivered(delivered, batchSize, decide) && !Stopped(delivered, decide) && 0 < |items| <= batchSize
    ensures Delivered(delivered + [items], batchSize, decide)
    ensures Stopped(delivered + [items], decide) <==> !decide(items, |delivered|)
  {
  }

  /**
   Whatever is inserted and deleted between the statements, no row is handed
   over twice; a run not cut short hands over every row above the initial
   cursor that was present throughout, exactly once; a run cut short hands over
   a prefix of them; and the counts are exact. `decide` is the value `onBatch`
   returns for a batch and its index (false stops the scan).
   */
  method ForEachBatch(
    table: Table, batchSize: int, start: Option<Id>, maxBatches: Option<int>, decide: (seq<Id>, nat) -> bool)
    returns (o: Outcome, delivered: seq<seq<Id>>)
    requires table.Valid()
    modifies table
    ensures o == BadBatchSize <==> batchSize < 1
    ensures o == BadMaxBatches <==> batchSize >= 1 && maxBatches.Some? && maxBatches.value < 1
    ensures !o.Finished? ==> delivered == []
    ensures o.Finished? ==>
              && o.summary.batches == |delivered|
              && o.summary.itemsProcessed == |Flat(delivered)|
              && Delivered(delivered, batchSize, decide)
              && (o.summary.terminatedEarly <==> Stopped(delivered, decide))
              && (maxBatches.Some? ==> |delivered| <= maxBatches.value)
              && InOrder(Flat(delivered), start)
              && Prefix(table.steady, Flat(delivered), start)
              && (!CutShort(o.summary, maxBatches) ==> Complete(table.steady, Flat(delivered), start))
  {
    delivered := [];
    if batchSize < 1 {
      return BadBatchSize, [];
    }
    if maxBatches.Some? && maxBatches.value < 1 {
      return BadMaxBatches, [];
    }
    table.steady := table.rows;
    var cursor := start;
    var batches, itemsProcessed, terminatedEarly := 0, 0, false;
    ghost var flat: seq<Id> := [];
    while true
      invariant table.Valid()
      invariant batches == |delivered| && itemsProcessed == |flat| && !terminatedEarly && flat == Flat(delivered)
      invariant Delivered(delivered, batchSize, decide) && !Stopped(delivered, decide)
      invariant maxBatches.Some? ==> batches < maxBatches.value
      invariant cursor == CursorAfter(flat, start)
      invariant Left(flat, table.bound) >= 0
      invariant InOrder(flat, start) && Prefix(table.steady, flat, start)
      decreases Left(flat, table.bound)
    {
      var items, nextCursor := NextPage(table, cursor, batchSize, flat, start);
      if |items| == 0 {
        assert flat + items == flat;
        break;
      }
      FlatAppend(delivered, items);
      DeliveredMore(delivered, items, batchSize, decide);
      var decision := decide(items, batches);
      delivered, flat := delivered + [items], flat + items;
      batches := batches + 1;
      itemsProcessed := itemsProcessed + |items|;
      if !decision {
        terminatedEarly := true;
        break;
      }
      if maxBatches.Some? && batches >= maxBatches.value {
        break;
      }
      if |items| < batchSize {
        break;
      }
      if nextCursor.None? {
        break;
      }
      cursor := nextCursor;
    }
    o := Finished(Summary(batches, itemsProcessed, terminatedEarly));
  }
}
