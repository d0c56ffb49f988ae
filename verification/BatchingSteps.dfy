/**
 Batching jobs statement by statement: one read of the pending page, then for
 each asset the insert of its batch and the update of its settlements. Jobs of
 any number of workers interleave with each other and with status updates.
 */
module BatchingSteps {
  import opened Lifecycle
  import opened Batching

  /**
   A job: the rows and the page it read, how many assets it has recorded or
   passed over, and whether it has yet to mark the last one. A job stops when a
   statement throws or its worker dies.
   */
  datatype Job = Job(config: Config, seen: Rows, page: seq<Id>, next: nat, marking: bool, stopped: bool)

  datatype System = System(store: State, jobs: seq<Job>)

  datatype Step =
    | Create(id: Id, row: Row)
    | SetStatus(id: Id, status: Status)
    | Read(config: Config, page: seq<Id>)
    | Advance(job: nat)
    | Crash(job: nat)

  function AssetsOf(j: Job): seq<string>
    requires Known(j.seen, j.page)
  {
    Assets(j.seen, j.page)
  }

  function GroupAt(j: Job, i: nat): seq<Id>
    requires Known(j.seen, j.page) && i < |AssetsOf(j)|
  {
    Group(j.seen, j.page, AssetsOf(j)[i])
  }

  /** What holds of every job since it read its page. */
  predicate JobOk(j: Job) {
    && IsOldest(j.seen, j.config.maxBatchSize, j.page) && Known(j.seen, j.page)
    && j.next <= |AssetsOf(j)| && (j.marking ==> j.next > 0)
  }

  predicate CanMark(rows: Rows, ids: seq<Id>) {
    forall i :: 0 <= i < |ids| ==> ids[i] in rows && ValidateTransition(rows[ids[i]].status, Processing)
  }

  /** A job's next statement: mark the batch just recorded, or record the next qualifying group. */
  function AdvanceJob(s: State, j: Job): (State, Job)
    requires JobOk(j)
  {
    if j.stopped then (s, j)
    else if j.marking then
      var group := GroupAt(j, j.next - 1);
      if CanMark(s.rows, group) then (s.(rows := SetProcessing(s.rows, group)), j.(marking := false))
      else (s, j.(stopped := true))
    else if j.next == |AssetsOf(j)| then (s, j)
    else
      var group := GroupAt(j, j.next);
      if Qualifies(j.seen, group, j.config)
      then (s.(batches := s.batches + [BatchOf(j.seen, AssetsOf(j)[j.next], group)]), j.(next := j.next + 1, marking := true))
      else (s, j.(next := j.next + 1))
  }

  predicate AllOk(t: System) {
    forall k :: 0 <= k < |t.jobs| ==> JobOk(t.jobs[k])
  }

  function Next(t: System, e: Step): System
    requires AllOk(t)
  {
    match e
    case Create(id, row) =>
      if id !in t.store.rows && row.status == Pending then t.(store := t.store.(rows := t.store.rows[id := row])) else t
    case SetStatus(id, status) =>
      if id in t.store.rows && ValidateTransition(t.store.rows[id].status, status)
      then t.(store := t.store.(rows := t.store.rows[id := t.store.rows[id].(status := status)])) else t
    case Read(config, page) =>
      if IsOldest(t.store.rows, config.maxBatchSize, page) && Known(t.store.rows, page)
      then t.(jobs := t.jobs + [Job(config, t.store.rows, page, 0, false, false)]) else t
    case Advance(k) =>
      if k < |t.jobs| then
        var (store, job) := AdvanceJob(t.store, t.jobs[k]);
        System(store, t.jobs[k := job])
      else t
    case Crash(k) => if k < |t.jobs| then t.(jobs := t.jobs[k := t.jobs[k].(stopped := true)]) else t
  }

  lemma {:induction false} AdvanceOk(s: State, j: Job)
    requires JobOk(j)
    ensures var (_, d) := AdvanceJob(s, j); JobOk(d) && d == j.(next := d.next, marking := d.marking, stopped := d.stopped)
  {
  }

  lemma {:induction false} NextOk(t: System, e: Step)
    requires AllOk(t)
    ensures AllOk(Next(t, e))
  {
    if e.Advance? && e.job < |t.jobs| {
      AdvanceOk(t.store, t.jobs[e.job]);
    }
  }

  function Run(t: System, es: seq<Step>): (u: System)
    requires AllOk(t)
    ensures AllOk(u)
  {
    if es == [] then t
    else
      var before := Run(t, es[..|es| - 1]);
      NextOk(before, es[|es| - 1]);
      Next(before, es[|es| - 1])
  }

  // ---------- how often a settlement is counted ----------

  /** The job read the settlement pending in a qualifying group and has recorded that group. */
  predicate Recorded(j: Job, id: Id)
    requires JobOk(j)
  {
    id in j.page && Moves(j.seen, j.page, j.config, id) && j.seen[id].asset in AssetsOf(j)[..j.next]
  }

  function Recordings(jobs: seq<Job>, id: Id): nat
    requires forall k :: 0 <= k < |jobs| ==> JobOk(jobs[k])
  {
    if jobs == [] then 0 else Recordings(jobs[..|jobs| - 1], id) + if Recorded(jobs[|jobs| - 1], id) then 1 else 0
  }

  lemma {:induction false} RecordingsUpdate(jobs: seq<Job>, k: nat, j: Job, id: Id)
    requires k < |jobs| && JobOk(j) && forall i :: 0 <= i < |jobs| ==> JobOk(jobs[i])
    ensures Recordings(jobs[k := j], id) - Recordings(jobs, id)
         == (if Recorded(j, id) then 1 else 0) - (if Recorded(jobs[k], id) then 1 else 0)
  {
    var n, after := |jobs| - 1, jobs[k := j];
    if k == n {
      assert after[..n] == jobs[..n] && after[n] == j;
    } else {
      RecordingsUpdate(jobs[..n], k, j, id);
      assert after[..n] == jobs[..n][k := j] && after[n] == jobs[n];
    }
  }

  lemma {:induction false} RecordingsMore(jobs: seq<Job>, j: Job, id: Id)
    requires JobOk(j) && forall i :: 0 <= i < |jobs| ==> JobOk(jobs[i])
    ensures Recordings(jobs + [j], id) == Recordings(jobs, id) + if Recorded(j, id) then 1 else 0
  {
    assert (jobs + [j])[..|jobs|] == jobs;
  }

  /** Recording one more group counts exactly its members. */
  lemma {:induction false} RecordsGroup(j: Job, id: Id)
    requires JobOk(j) && !j.marking && !j.stopped && j.next < |AssetsOf(j)|
    ensures JobOk(j.(next := j.next + 1))
    ensures Recorded(j.(next := j.next + 1), id) <==>
            Recorded(j, id) || (Qualifies(j.seen, GroupAt(j, j.next), j.config) && id in GroupAt(j, j.next))
    ensures !(Recorded(j, id) && id in GroupAt(j, j.next))
    ensures Occurs(GroupAt(j, j.next), id) == if id in GroupAt(j, j.next) then 1 else 0
  {
    var assets := AssetsOf(j);
    assert assets[..j.next + 1] == assets[..j.next] + [assets[j.next]];
    OldestIsDistinct(j.seen, j.config.maxBatchSize, j.page);
    AssetsExact(j.seen, j.page, assets[j.next]);
    GroupMembers(j.seen, j.page, assets[j.next], id);
    GroupDistinct(j.seen, j.page, assets[j.next]);
    OccursDistinct(GroupAt(j, j.next), id);
  }

  lemma {:induction false} CountsAdvance(s: State, j: Job, id: Id)
    requires JobOk(j)
    ensures var (t, d) := AdvanceJob(s, j);
            JobOk(d) && TimesBatched(t.batches, id) - TimesBatched(s.batches, id)
                        == (if Recorded(d, id) then 1 else 0) - (if Recorded(j, id) then 1 else 0)
  {
    AdvanceOk(s, j);
    if !j.stopped && !j.marking && j.next < |AssetsOf(j)| {
      RecordsGroup(j, id);
      var batch := BatchOf(j.seen, AssetsOf(j)[j.next], GroupAt(j, j.next));
      assert (s.batches + [batch])[..|s.batches|] == s.batches;
      SameRecord(j.(next := j.next + 1), true, false, id);
    } else {
      var (_, d) := AdvanceJob(s, j);
      SameRecord(j, d.marking, d.stopped, id);
    }
  }

  lemma {:induction false} SameRecord(j: Job, marking: bool, stopped: bool, id: Id)
    requires JobOk(j) && JobOk(j.(marking := marking, stopped := stopped))
    ensures Recorded(j.(marking := marking, stopped := stopped), id) == Recorded(j, id)
  {
  }

  /** Every recording so far is counted, and nothing else. */
  predicate Counts(t: System, id: Id)
    requires AllOk(t)
  {
    TimesBatched(t.store.batches, id) == Recordings(t.jobs, id)
  }

  lemma {:induction false} UpdateCounts(jobs: seq<Job>, k: nat, d: Job, before: nat, after: nat, id: Id)
    requires k < |jobs| && JobOk(d) && (forall i :: 0 <= i < |jobs| ==> JobOk(jobs[i])) && before == Recordings(jobs, id)
    requires after - before == (if Recorded(d, id) then 1 else 0) - (if Recorded(jobs[k], id) then 1 else 0)
    ensures Recordings(jobs[k := d], id) == after
  {
    RecordingsUpdate(jobs, k, d, id);
  }

  lemma {:induction false} AdvanceIs(t: System, k: nat)
    requires AllOk(t) && k < |t.jobs|
    ensures var (s, d) := AdvanceJob(t.store, t.jobs[k]); Next(t, Advance(k)) == System(s, t.jobs[k := d])
  {
  }

  lemma {:induction false} AdvanceCounts(t: System, k: nat, id: Id)
    requires AllOk(t) && Counts(t, id) && k < |t.jobs|
    ensures AllOk(Next(t, Advance(k))) && Counts(Next(t, Advance(k)), id)
  {
    var (s, d) := AdvanceJob(t.store, t.jobs[k]);
    CountsAdvance(t.store, t.jobs[k], id);
    UpdateCounts(t.jobs, k, d, TimesBatched(t.store.batches, id), TimesBatched(s.batches, id), id);
    AdvanceIs(t, k);
    NextOk(t, Advance(k));
  }

  lemma {:induction false} CrashCounts(t: System, k: nat, id: Id)
    requires AllOk(t) && Counts(t, id) && k < |t.jobs|
    ensures AllOk(Next(t, Crash(k))) && Counts(Next(t, Crash(k)), id)
  {
    SameRecord(t.jobs[k], t.jobs[k].marking, true, id);
    RecordingsUpdate(t.jobs, k, t.jobs[k].(stopped := true), id);
  }

  lemma {:induction false} ReadCounts(t: System, config: Config, page: seq<Id>, id: Id)
    requires AllOk(t) && Counts(t, id) && IsOldest(t.store.rows, config.maxBatchSize, page) && Known(t.store.rows, page)
    ensures AllOk(Next(t, Read(config, page))) && Counts(Next(t, Read(config, page)), id)
  {
    RecordingsMore(t.jobs, Job(config, t.store.rows, page, 0, false, false), id);
  }

  lemma {:induction false} NextCounts(t: System, e: Step, id: Id)
    requires AllOk(t) && Counts(t, id)
    ensures AllOk(Next(t, e)) && Counts(Next(t, e), id)
  {
    NextOk(t, e);
    match e
    case Read(config, page) =>
      if IsOldest(t.store.rows, config.maxBatchSize, page) && Known(t.store.rows, page) {
        ReadCounts(t, config, page, id);
      }
    case Advance(k) =>
      if k < |t.jobs| {
        AdvanceCounts(t, k, id);
      }
    case Crash(k) =>
      if k < |t.jobs| {
        CrashCounts(t, k, id);
      }
    case _ =>
  }

  /**
   Exactly how often a settlement is counted, over every interleaving of jobs,
   crashes and status updates: once for each job that read it pending in a
   qualifying group and went on to record that group.
   */
  lemma {:induction false} CountedOncePerRecording(t: System, es: seq<Step>, id: Id)
    requires t.store.batches == [] && t.jobs == []
    ensures TimesBatched(Run(t, es).store.batches, id) == Recordings(Run(t, es).jobs, id)
  {
    if es != [] {
      CountedOncePerRecording(t, es[..|es| - 1], id);
      NextCounts(Run(t, es[..|es| - 1]), es[|es| - 1], id);
    }
  }

  // ---------- what the statements write ----------

  /** Every batch was made by some job, from all the rows of its asset in the page that job read. */
  ghost predicate AllMade(batches: seq<Batch>, jobs: seq<Job>) {
    forall b :: 0 <= b < |batches| ==> MadeBySome(batches[b], jobs)
  }

  ghost predicate MadeBySome(b: Batch, jobs: seq<Job>) {
    exists k :: 0 <= k < |jobs| && Made(b, jobs[k])
  }

  ghost predicate Made(b: Batch, j: Job) {
    MadeFrom(j.seen, j.page, j.config, b)
  }

  predicate SameJobs(before: seq<Job>, after: seq<Job>) {
    && |before| <= |after|
    && forall k :: 0 <= k < |before| ==>
         after[k] == before[k].(next := after[k].next, marking := after[k].marking, stopped := after[k].stopped)
  }

  lemma {:induction false} MadeLater(batches: seq<Batch>, before: seq<Job>, after: seq<Job>)
    requires AllMade(batches, before) && SameJobs(before, after)
    ensures AllMade(batches, after)
  {
    forall b | 0 <= b < |batches| ensures MadeBySome(batches[b], after) {
      assert MadeBySome(batches[b], before);
      var k :| 0 <= k < |before| && Made(batches[b], before[k]);
      assert Made(batches[b], after[k]);
    }
  }

  lemma {:induction false} AdvanceWrites(s: State, j: Job) returns (more: seq<Batch>)
    requires JobOk(j)
    ensures AdvanceJob(s, j).0.batches == s.batches + more
    ensures forall b :: 0 <= b < |more| ==> Made(more[b], j)
  {
    more := [];
    if !j.stopped && !j.marking && j.next < |AssetsOf(j)| && Qualifies(j.seen, GroupAt(j, j.next), j.config) {
      OldestIsDistinct(j.seen, j.config.maxBatchSize, j.page);
      BatchMade(j.seen, j.page, j.config, AssetsOf(j)[j.next]);
      more := [BatchOf(j.seen, AssetsOf(j)[j.next], GroupAt(j, j.next))];
    }
  }

  lemma {:induction false} NextMade(t: System, e: Step)
    requires AllOk(t) && AllMade(t.store.batches, t.jobs)
    ensures AllMade(Next(t, e).store.batches, Next(t, e).jobs)
  {
    var u := Next(t, e);
    if e.Advance? && e.job < |t.jobs| {
      AdvanceOk(t.store, t.jobs[e.job]);
    }
    assert SameJobs(t.jobs, u.jobs);
    MadeLater(t.store.batches, t.jobs, u.jobs);
    if e.Advance? && e.job < |t.jobs| {
      var more := AdvanceWrites(t.store, t.jobs[e.job]);
      forall b | 0 <= b < |u.store.batches| ensures MadeBySome(u.store.batches[b], u.jobs) {
        if b >= |t.store.batches| {
          assert Made(more[b - |t.store.batches|], t.jobs[e.job]);
          assert Made(u.store.batches[b], u.jobs[e.job]);
        } else {
          assert u.store.batches[b] == t.store.batches[b];
        }
      }
    }
  }

  /** In every interleaving each batch states the number and the sums of what its job read of the asset, nothing left out. */
  lemma {:induction false} EveryBatchMade(t: System, es: seq<Step>)
    requires t.store.batches == [] && t.jobs == []
    ensures AllMade(Run(t, es).store.batches, Run(t, es).jobs)
  {
    if es != [] {
      EveryBatchMade(t, es[..|es| - 1]);
      NextMade(Run(t, es[..|es| - 1]), es[|es| - 1]);
    }
  }

  /** A row that no longer becomes processing, or that is not there. */
  predicate Final(rows: Rows, id: Id) {
    id !in rows || rows[id].status == Completed || rows[id].status == Status.Failed
  }

  lemma {:induction false} CanMarkExactly(rows: Rows, ids: seq<Id>)
    ensures !CanMark(rows, ids) <==> exists id :: id in ids && Final(rows, id)
  {
    if !CanMark(rows, ids) {
      var i :| 0 <= i < |ids| && !(ids[i] in rows && ValidateTransition(rows[ids[i]].status, Processing));
      assert ids[i] in ids && Final(rows, ids[i]);
    }
  }

  /**
   A marking statement: it sets all rows of the group last recorded to
   processing when all of them are pending or processing, and otherwise throws
   and changes nothing. No other statement of a job changes a row.
   */
  lemma {:induction false} MarkingExactly(s: State, j: Job) returns (g: seq<Id>)
    requires JobOk(j)
    ensures !(j.marking && !j.stopped) ==> AdvanceJob(s, j).0.rows == s.rows
    ensures j.marking && !j.stopped ==>
              var (t, d) := AdvanceJob(s, j);
              && IsGroup(j.seen, j.page, AssetsOf(j)[j.next - 1], g)
              && (d.stopped <==> exists id :: id in g && Final(s.rows, id))
              && (d.stopped ==> t == s)
              && (!d.stopped ==> t.batches == s.batches && !d.marking && t.rows.Keys == s.rows.Keys)
              && (!d.stopped ==> forall id :: id in s.rows ==>
                    t.rows[id] == if id in g then s.rows[id].(status := Processing) else s.rows[id])
  {
    g := [];
    if j.marking && !j.stopped {
      g := GroupAt(j, j.next - 1);
      OldestIsDistinct(j.seen, j.config.maxBatchSize, j.page);
      GroupIs(j.seen, j.page, AssetsOf(j)[j.next - 1]);
      CanMarkExactly(s.rows, g);
    }
  }

  // ---------- an undisturbed job ----------

  /** A job left to itself: its statements one after another. */
  function Alone(s: State, j: Job, n: nat): (r: (State, Job))
    requires JobOk(j)
    ensures JobOk(r.1)
  {
    if n == 0 then (s, j)
    else
      var (t, d) := Alone(s, j, n - 1);
      AdvanceOk(t, d);
      AdvanceJob(t, d)
  }

  predicate Reached(s: State, j: Job, n: nat, i: nat)
    requires JobOk(j) && s.rows == j.seen && i <= |AssetsOf(j)|
  {
    Alone(s, j, n) == (Handled(s, j.page, j.config, AssetsOf(j)[..i]), j.(next := i, marking := false))
  }

  lemma {:induction false} StillPending(s: State, j: Job, i: nat)
    requires JobOk(j) && s.rows == j.seen && i < |AssetsOf(j)|
    ensures CanMark(Handled(s, j.page, j.config, AssetsOf(j)[..i]).rows, GroupAt(j, i))
  {
    var assets, group := AssetsOf(j), GroupAt(j, i);
    OldestIsDistinct(j.seen, j.config.maxBatchSize, j.page);
    AssetsExact(j.seen, j.page, assets[i]);
    var t := Handled(s, j.page, j.config, assets[..i]);
    forall k | 0 <= k < |group|
      ensures group[k] in t.rows && ValidateTransition(t.rows[group[k]].status, Processing)
    {
      GroupMembers(j.seen, j.page, assets[i], group[k]);
      HandledExactly(s, j.page, j.config, assets[..i], group[k]);
      assert group[k] in PendingIds(j.seen);
    }
  }

  lemma {:induction false} RecordsAt(t: State, j: Job, i: nat)
    requires JobOk(j) && !j.stopped && i < |AssetsOf(j)|
    ensures AdvanceJob(t, j.(next := i, marking := false)) ==
            if Qualifies(j.seen, GroupAt(j, i), j.config)
            then (t.(batches := t.batches + [BatchOf(j.seen, AssetsOf(j)[i], GroupAt(j, i))]), j.(next := i + 1, marking := true))
            else (t, j.(next := i + 1, marking := false))
  {
  }

  lemma {:induction false} MarksAt(t: State, j: Job, i: nat)
    requires JobOk(j) && !j.stopped && i < |AssetsOf(j)| && CanMark(t.rows, GroupAt(j, i))
    ensures AdvanceJob(t, j.(next := i + 1, marking := true))
         == (t.(rows := SetProcessing(t.rows, GroupAt(j, i))), j.(next := i + 1, marking := false))
  {
  }

  lemma {:induction false} AloneMore(s: State, j: Job, n: nat, t: State, d: Job)
    requires JobOk(j) && Alone(s, j, n) == (t, d)
    ensures JobOk(d) && Alone(s, j, n + 1) == AdvanceJob(t, d)
  {
  }

  lemma {:induction false} OneGroupAlone(s: State, j: Job, n: nat, i: nat) returns (m: nat)
    requires JobOk(j) && s.rows == j.seen && !j.stopped && i < |AssetsOf(j)| && Reached(s, j, n, i)
    ensures Reached(s, j, m, i + 1)
  {
    var assets, group := AssetsOf(j), GroupAt(j, i);
    var t := Handled(s, j.page, j.config, assets[..i]);
    HandledMore(s, j.page, j.config, assets, i);
    StillPending(s, j, i);
    RecordsAt(t, j, i);
    AloneMore(s, j, n, t, j.(next := i, marking := false));
    m := n + 1;
    if Qualifies(j.seen, group, j.config) {
      var written := t.(batches := t.batches + [BatchOf(j.seen, assets[i], group)]);
      MarksAt(written, j, i);
      AloneMore(s, j, n + 1, written, j.(next := i + 1, marking := true));
      m := n + 2;
    }
  }

  /** A job that nobody disturbs after its read leaves exactly what one batching run of the job's specification leaves. */
  lemma {:induction false} UndisturbedIsOneRun(s: State, j: Job) returns (n: nat)
    requires JobOk(j) && s.rows == j.seen && j.next == 0 && !j.marking && !j.stopped
    ensures Alone(s, j, n).0 == AfterRun(s, j.page, j.config)
    ensures Alone(s, j, n).1.next == |AssetsOf(j)| && !Alone(s, j, n).1.marking && !Alone(s, j, n).1.stopped
  {
    n := 0;
    assert AssetsOf(j)[..0] == [];
    for i := 0 to |AssetsOf(j)|
      invariant Reached(s, j, n, i)
    {
      n := OneGroupAlone(s, j, n, i);
    }
    assert AssetsOf(j)[..|AssetsOf(j)|] == AssetsOf(j);
  }

  // ---------- two ways to be counted twice ----------

  lemma {:induction false} RunMore(t: System, es: seq<Step>, e: Step)
    requires AllOk(t)
    ensures Run(t, es + [e]) == Next(Run(t, es), e)
  {
    assert (es + [e])[..|es|] == es;
  }

  const NOTHING := System(State(map[], []), [])

  lemma {:induction false} OneAsset(rows: Rows, page: seq<Id>, asset: string)
    requires Known(rows, page) && page != [] && forall i :: 0 <= i < |page| ==> rows[page[i]].asset == asset
    ensures Assets(rows, page) == [asset] && Group(rows, page, asset) == page
  {
    if |page| == 1 {
      assert page[..0] == [] && page == [page[0]];
    } else {
      OneAsset(rows, page[..|page| - 1], asset);
      assert page == page[..|page| - 1] + [page[|page| - 1]];
    }
  }

  /** The only pending row is a page by itself. */
  lemma {:induction false} SinglePage(rows: Rows, id: Id)
    requires PendingIds(rows) == {id}
    ensures IsOldest(rows, 0, [id]) && Known(rows, [id])
  {
    assert id in PendingIds(rows);
  }

  /** A job that has read a page of one asset, enough for a batch. */
  predicate OneGroup(j: Job, asset: string) {
    && JobOk(j) && j.page != [] && (forall i :: 0 <= i < |j.page| ==> j.seen[j.page[i]].asset == asset)
    && |j.page| >= j.config.minCount && !j.stopped
  }

  lemma {:induction false} OnlyGroup(j: Job, asset: string)
    requires OneGroup(j, asset)
    ensures AssetsOf(j) == [asset] && GroupAt(j, 0) == j.page && Qualifies(j.seen, GroupAt(j, 0), j.config)
  {
    OneAsset(j.seen, j.page, asset);
  }

  lemma {:induction false} RecordsOwn(s: State, j: Job, asset: string)
    requires OneGroup(j, asset) && j.next == 0 && !j.marking
    ensures AdvanceJob(s, j) == (s.(batches := s.batches + [BatchOf(j.seen, asset, j.page)]), j.(next := 1, marking := true))
  {
    OnlyGroup(j, asset);
  }

  lemma {:induction false} MarksOwn(s: State, j: Job, asset: string)
    requires OneGroup(j, asset) && j.next == 1 && j.marking
    ensures AdvanceJob(s, j) ==
            if CanMark(s.rows, j.page) then (s.(rows := SetProcessing(s.rows, j.page)), j.(marking := false))
            else (s, j.(stopped := true))
  {
    OnlyGroup(j, asset);
  }

  lemma {:induction false} RecordsItsGroup(t: System, k: nat, asset: string)
    requires AllOk(t) && k < |t.jobs| && OneGroup(t.jobs[k], asset) && t.jobs[k].next == 0 && !t.jobs[k].marking
    ensures var j := t.jobs[k];
            Next(t, Advance(k)) == System(t.store.(batches := t.store.batches + [BatchOf(j.seen, asset, j.page)]),
                                          t.jobs[k := j.(next := 1, marking := true)])
  {
    RecordsOwn(t.store, t.jobs[k], asset);
  }

  lemma {:induction false} MarksItsGroup(t: System, k: nat, asset: string)
    requires AllOk(t) && k < |t.jobs| && OneGroup(t.jobs[k], asset) && t.jobs[k].next == 1 && t.jobs[k].marking
    ensures var j := t.jobs[k];
            Next(t, Advance(k)) ==
            if CanMark(t.store.rows, j.page)
            then System(t.store.(rows := SetProcessing(t.store.rows, j.page)), t.jobs[k := j.(marking := false)])
            else System(t.store, t.jobs[k := j.(stopped := true)])
  {
    MarksOwn(t.store, t.jobs[k], asset);
  }

  lemma {:induction false} ReadsPage(t: System, config: Config, page: seq<Id>)
    requires AllOk(t) && IsOldest(t.store.rows, config.maxBatchSize, page) && Known(t.store.rows, page)
    ensures Next(t, Read(config, page)) == t.(jobs := t.jobs + [Job(config, t.store.rows, page, 0, false, false)])
  {
  }

  /** Where a batch's member stands in the count of two batches. */
  lemma {:induction false} CountedInBoth(a: Batch, b: Batch, id: Id)
    requires Occurs(a.members, id) == 1 && Occurs(b.members, id) == 1
    ensures TimesBatched([] + [a] + [b], id) == 2
  {
    assert ([] + [a] + [b])[..1] == [a] && [a][..0] == [];
    assert TimesBatched([a], id) == 1;
  }

  lemma {:induction false} OccursIn(ids: seq<Id>, id: Id)
    requires Distinct(ids) && id in ids
    ensures Occurs(ids, id) == 1
  {
    OccursDistinct(ids, id);
  }

  /** Any sequence of steps can be taken one at a time. */
  ghost predicate Reaches(es: seq<Step>, t: System) {
    Run(NOTHING, es) == t
  }

  lemma {:induction false} ReachesNext(es: seq<Step>, t: System, e: Step)
    requires Reaches(es, t) && AllOk(t)
    ensures Reaches(es + [e], Next(t, e)) && AllOk(Next(t, e))
  {
    RunMore(NOTHING, es, e);
    NextOk(t, e);
  }

  /**
   Two jobs that read the same page before either has marked it count the same
   settlement twice, in a run that any pending settlement can take.
   */
  lemma {:induction false} OverlappingJobsCountTwice(id: Id, row: Row, config: Config) returns (es: seq<Step>)
    requires row.status == Pending && config.minCount <= 1 && config.maxBatchSize == 0
    ensures TimesBatched(Run(NOTHING, es).store.batches, id) == 2
  {
    var rows: Rows := map[id := row];
    var t1 := System(State(rows, []), []);
    assert PendingIds(rows) == {id};
    SinglePage(rows, id);
    ReachesNext([], NOTHING, Create(id, row));
    es := [] + [Create(id, row)];
    assert Reaches(es, t1);
    var begun := Job(config, rows, [id], 0, false, false);
    ReadsPage(t1, config, [id]);
    ReachesNext(es, t1, Read(config, [id]));
    es := es + [Read(config, [id])];
    var t2 := Next(t1, Read(config, [id]));
    ReadsPage(t2, config, [id]);
    ReachesNext(es, t2, Read(config, [id]));
    es := es + [Read(config, [id])];
    var t3 := Next(t2, Read(config, [id]));
    assert t3.jobs[0] == begun == t3.jobs[1];
    es := TwoRecord(es, t3, id, row.asset, begun);
  }

  /** Two jobs over one page, neither of which has begun: the first records and marks, then the second records. */
  lemma {:induction false} TwoRecord(es: seq<Step>, t: System, id: Id, asset: string, begun: Job) returns (more: seq<Step>)
    requires Reaches(es, t) && AllOk(t) && t.store.batches == []
    requires |t.jobs| == 2 && t.jobs[0] == begun && t.jobs[1] == begun
    requires OneGroup(begun, asset) && begun.next == 0 && !begun.marking && id in begun.page
    ensures TimesBatched(Run(NOTHING, more).store.batches, id) == 2
  {
    var batch := BatchOf(begun.seen, asset, begun.page);
    RecordsItsGroup(t, 0, asset);
    ReachesNext(es, t, Advance(0));
    var u := Next(t, Advance(0));
    MarksItsGroup(u, 0, asset);
    ReachesNext(es + [Advance(0)], u, Advance(0));
    var v := Next(u, Advance(0));
    assert v.jobs[1] == begun;
    RecordsItsGroup(v, 1, asset);
    ReachesNext(es + [Advance(0)] + [Advance(0)], v, Advance(1));
    more := es + [Advance(0)] + [Advance(0)] + [Advance(1)];
    OldestIsDistinct(begun.seen, begun.config.maxBatchSize, begun.page);
    OccursIn(begun.page, id);
    CountedInBoth(batch, batch, id);
  }

  /**
   Jobs that never overlap can count a settlement twice too: a status update
   that fails one member of a recorded group makes the marking statement throw,
   so the others stay pending and the next job records them again.
   */
  lemma {:induction false} ThrownMarkingCountsTwice(id: Id, other: Id, row: Row, config: Config) returns (es: seq<Step>)
    requires id < other && row.status == Pending && config.minCount <= 1 && config.maxBatchSize == 0
    ensures TimesBatched(Run(NOTHING, es).store.batches, id) == 2
  {
    var rows: Rows := map[id := row, other := row];
    es := [];
    ReachesNext(es, NOTHING, Create(id, row));
    var t1 := Next(NOTHING, Create(id, row));
    ReachesNext([] + [Create(id, row)], t1, Create(other, row));
    es := [] + [Create(id, row)] + [Create(other, row)];
    assert Reaches(es, System(State(rows, []), []));
    es := FirstJobThrows(es, id, other, row, config);
  }

  function FailedRows(id: Id, other: Id, row: Row): Rows {
    map[id := row, other := row.(status := Status.Failed)]
  }

  lemma {:induction false} FirstJobThrows(es: seq<Step>, id: Id, other: Id, row: Row, config: Config) returns (more: seq<Step>)
    requires id < other && row.status == Pending && config.minCount <= 1 && config.maxBatchSize == 0
    requires Reaches(es, System(State(map[id := row, other := row], []), []))
    ensures TimesBatched(Run(NOTHING, more).store.batches, id) == 2
  {
    var rows: Rows := map[id := row, other := row];
    var t, page := System(State(rows, []), []), [id, other];
    assert PendingIds(rows) == {id, other};
    var begun := Job(config, rows, page, 0, false, false);
    ReadsPage(t, config, page);
    ReachesNext(es, t, Read(config, page));
    var u := Next(t, Read(config, page));
    assert u.jobs[0] == begun;
    RecordsItsGroup(u, 0, row.asset);
    ReachesNext(es + [Read(config, page)], u, Advance(0));
    var v := Next(u, Advance(0));
    ReachesNext(es + [Read(config, page)] + [Advance(0)], v, SetStatus(other, Status.Failed));
    var w := Next(v, SetStatus(other, Status.Failed));
    assert w.store.rows == FailedRows(id, other, row);
    more := SecondJobRecords(es + [Read(config, page)] + [Advance(0)] + [SetStatus(other, Status.Failed)],
                             w, id, other, row, begun.(next := 1, marking := true));
  }

  lemma {:induction false} SecondJobRecords(es: seq<Step>, t: System, id: Id, other: Id, row: Row, first: Job) returns (more: seq<Step>)
    requires id < other && row.status == Pending && Reaches(es, t) && AllOk(t)
    requires first.page == [id, other] && OneGroup(first, row.asset) && first.next == 1 && first.marking
    requires t.store == State(FailedRows(id, other, row), [BatchOf(first.seen, row.asset, first.page)]) && t.jobs == [first]
    requires first.config.minCount <= 1 && first.config.maxBatchSize == 0
    ensures TimesBatched(Run(NOTHING, more).store.batches, id) == 2
  {
    var rows, config := FailedRows(id, other, row), first.config;
    assert !ValidateTransition(rows[[id, other][1]].status, Processing);
    MarksItsGroup(t, 0, row.asset);
    ReachesNext(es, t, Advance(0));
    var u := Next(t, Advance(0));
    assert PendingIds(rows) == {id};
    SinglePage(rows, id);
    ReadsPage(u, config, [id]);
    ReachesNext(es + [Advance(0)], u, Read(config, [id]));
    var v := Next(u, Read(config, [id]));
    RecordsItsGroup(v, 1, row.asset);
    ReachesNext(es + [Advance(0)] + [Read(config, [id])], v, Advance(1));
    more := es + [Advance(0)] + [Read(config, [id])] + [Advance(1)];
    OccursIn([id, other], id);
    OccursIn([id], id);
    var a, b := BatchOf(first.seen, row.asset, [id, other]), BatchOf(rows, row.asset, [id]);
    CountedInBoth(a, b, id);
    assert Next(v, Advance(1)).store.batches == [] + [a] + [b];
  }
}
