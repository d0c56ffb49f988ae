/** The settlement status machine. */
module Lifecycle {

  datatype Status = Pending | Processing | Completed | Failed

  /** `SETTLEMENT_STATUS_TRANSITIONS`. */
  function Transitions(from: Status): set<Status> {
    match from
    case Pending => {Processing, Status.Failed}
    case Processing => {Completed, Status.Failed}
    case Completed => {}
    case Failed => {}
  }

  predicate IsValidTransition(from: Status, to: Status) {
    to in Transitions(from)
  }

  /** `validateTransition`: writing the current status again is allowed. */
  predicate ValidateTransition(current: Status, next: Status) {
    current == next || IsValidTransition(current, next)
  }

  /** One validated update: nothing returns to pending, nothing is completed unprocessed, and what is final stays. */
  lemma {:induction false} UpdatesExactly(current: Status, next: Status)
    ensures ValidateTransition(current, next) <==>
            current == next || (current == Pending && next != Completed) || (current == Processing && next != Pending)
  {
    assert current == Pending ==> (next in Transitions(current) <==> next == Processing || next == Status.Failed);
  }

  /** What any number of validated updates can turn a status into. */
  predicate Reaches(from: Status, to: Status) {
    from == to || from == Pending || (from == Processing && (to == Completed || to == Status.Failed))
  }

  /** A path of validated updates. */
  predicate ValidPath(path: seq<Status>) {
    path != [] && forall i :: 0 <= i < |path| - 1 ==> ValidateTransition(path[i], path[i + 1])
  }

  /** Along every path of validated updates a status only moves forward, and completed and failed are final. */
  lemma {:induction false} PathReaches(path: seq<Status>)
    requires ValidPath(path)
    ensures Reaches(path[0], path[|path| - 1])
  {
    if |path| > 1 {
      PathReaches(path[..|path| - 1]);
    }
  }

  /** And every forward move is some path, so the relation is exact. */
  lemma {:induction false} ReachesByPath(from: Status, to: Status) returns (path: seq<Status>)
    requires Reaches(from, to)
    ensures ValidPath(path) && path[0] == from && path[|path| - 1] == to
  {
    path := if from == to then [from] else if from == Pending && to == Completed then [from, Processing, to] else [from, to];
  }
}

/** `reapStuckSettlements` under overlapping runs and all other lifecycle steps. */
module SettlementReaper {
  import opened Lifecycle
  import opened Pages

  const REAP_BATCH := 200

  datatype Row = Row(status: Status, initiatedAt: nat)
  type Rows = map<Id, Row>

  predicate IsStuck(rows: Rows, id: Id, stuckBefore: nat) {
    id in rows && rows[id].status == Processing && rows[id].initiatedAt < stuckBefore
  }

  function StuckIds(rows: Rows, stuckBefore: nat): set<Id> {
    set id | id in rows && IsStuck(rows, id, stuckBefore)
  }

  // ---------- overlapping runs as a step machine ----------

  /** Where a run of the reaper stands; `Enqueueing` is after the claim of a row and before its `queue.add`. */
  datatype Phase =
    | Fetching
    | Claiming(page: seq<Id>, next: nat)
    | Enqueueing(page: seq<Id>, next: nat)
    | Finished

  datatype Reaper = Reaper(stuckBefore: nat, phase: Phase, reaped: nat)

  /**
   The shared state: the rows, the jobs the reapers enqueued, every run ever
   started, and the history of rows a reaper moved from processing to failed.
   */
  datatype State = State(rows: Rows, queue: seq<Id>, reapers: seq<Reaper>, moves: seq<Id>)

  /** One step: a statement of one run, or a step of anyone else. */
  datatype Event =
    | Start(stuckBefore: nat)
    | Fetch(run: nat, page: seq<Id>)
    | Claim(run: nat)
    | Enqueue(run: nat)
    | Transition(id: Id, to: Status)
    | Insert(id: Id, initiatedAt: nat)

  predicate Enabled(s: State, e: Event) {
    match e
    case Start(_) => true
    case Fetch(k, page) =>
      k < |s.reapers| && s.reapers[k].phase.Fetching? &&
      IsPage(StuckIds(s.rows, s.reapers[k].stuckBefore), REAP_BATCH, page)
    case Claim(k) =>
      k < |s.reapers| && s.reapers[k].phase.Claiming? && s.reapers[k].phase.next < |s.reapers[k].phase.page|
    case Enqueue(k) =>
      k < |s.reapers| && s.reapers[k].phase.Enqueueing? && s.reapers[k].phase.next < |s.reapers[k].phase.page|
    case Transition(id, to) => id in s.rows && ValidateTransition(s.rows[id].status, to)
    case Insert(id, _) => id !in s.rows
  }

  /** After the last row of a page: another fetch when the page was full, otherwise the end. */
  function Advance(page: seq<Id>, next: nat): Phase {
    if next < |page| then Claiming(page, next)
    else if |page| < REAP_BATCH then Finished
    else Fetching
  }

  function Step(s: State, e: Event): State
    requires Enabled(s, e)
  {
    match e
    case Start(before) => s.(reapers := s.reapers + [Reaper(before, Fetching, 0)])
    case Fetch(k, page) => s.(reapers := s.reapers[k := s.reapers[k].(phase := if page == [] then Finished else Claiming(page, 0))])
    case Claim(k) =>
      var r := s.reapers[k];
      var page, i := r.phase.page, r.phase.next;
      if IsStuck(s.rows, page[i], r.stuckBefore) then
        s.(rows := s.rows[page[i] := s.rows[page[i]].(status := Status.Failed)],
           reapers := s.reapers[k := r.(phase := Enqueueing(page, i))],
           moves := s.moves + [page[i]])
      else
        s.(reapers := s.reapers[k := r.(phase := Advance(page, i + 1))])
    case Enqueue(k) =>
      var r := s.reapers[k];
      var page, i := r.phase.page, r.phase.next;
      s.(queue := s.queue + [page[i]],
         reapers := s.reapers[k := r.(phase := Advance(page, i + 1), reaped := r.reaped + 1)])
    case Transition(id, to) => s.(rows := s.rows[id := s.rows[id].(status := to)])
    case Insert(id, at) => s.(rows := s.rows[id := Row(Pending, at)])
  }

  /** Steps that are not possible leave the state as it is. */
  function Run(s: State, es: seq<Event>): State {
    if es == [] then s
    else
      var before := Run(s, es[..|es| - 1]);
      if Enabled(before, es[|es| - 1]) then Step(before, es[|es| - 1]) else before
  }

  function Count(s: seq<Id>, id: Id): nat {
    if s == [] then 0 else Count(s[..|s| - 1], id) + if s[|s| - 1] == id then 1 else 0
  }

  /** Whether a run has claimed a row and not yet enqueued it. */
  predicate Holds(phase: Phase, id: Id) {
    phase.Enqueueing? && phase.next < |phase.page| && phase.page[phase.next] == id
  }

  /** How many runs stand between claiming and enqueueing a row. */
  function InFlight(rs: seq<Reaper>, id: Id): nat {
    if rs == [] then 0 else InFlight(rs[..|rs| - 1], id) + if Holds(rs[|rs| - 1].phase, id) then 1 else 0
  }

  function TotalReaped(rs: seq<Reaper>): nat {
    if rs == [] then 0 else TotalReaped(rs[..|rs| - 1]) + rs[|rs| - 1].reaped
  }

  /**
   For one row: every move by a reaper was enqueued or is about to be, there
   was at most one, and after it the row is failed for good.
   */
  predicate Inv(s: State, id: Id) {
    && Count(s.queue, id) + InFlight(s.reapers, id) == Count(s.moves, id) <= 1
    && (Count(s.moves, id) > 0 ==> id in s.rows && s.rows[id].status == Status.Failed)
    && TotalReaped(s.reapers) == |s.queue|
  }

  lemma {:induction false} UpdateReaper(rs: seq<Reaper>, k: nat, r: Reaper, id: Id)
    requires k < |rs|
    ensures InFlight(rs[k := r], id) - InFlight(rs, id) ==
            (if Holds(r.phase, id) then 1 else 0) - (if Holds(rs[k].phase, id) then 1 else 0)
    ensures TotalReaped(rs[k := r]) - TotalReaped(rs) == r.reaped - rs[k].reaped
  {
    var n := |rs| - 1;
    if k == n {
      assert rs[k := r][..n] == rs[..n];
    } else {
      UpdateReaper(rs[..n], k, r, id);
      assert rs[k := r][..n] == rs[..n][k := r];
    }
  }

  lemma {:induction false} AppendReaper(rs: seq<Reaper>, r: Reaper, id: Id)
    ensures InFlight(rs + [r], id) == InFlight(rs, id) + if Holds(r.phase, id) then 1 else 0
    ensures TotalReaped(rs + [r]) == TotalReaped(rs) + r.reaped
  {
    assert (rs + [r])[..|rs|] == rs;
  }

  lemma {:induction false} CountAppend(s: seq<Id>, x: Id, id: Id)
    ensures Count(s + [x], id) == Count(s, id) + if x == id then 1 else 0
  {
    assert (s + [x])[..|s|] == s;
  }

  lemma {:induction false} ClaimTakenKeeps(s: State, k: nat, id: Id)
    requires Inv(s, id) && Enabled(s, Claim(k))
    requires IsStuck(s.rows, s.reapers[k].phase.page[s.reapers[k].phase.next], s.reapers[k].stuckBefore)
    ensures Inv(Step(s, Claim(k)), id)
  {
    var r := s.reapers[k];
    UpdateReaper(s.reapers, k, r.(phase := Enqueueing(r.phase.page, r.phase.next)), id);
    CountAppend(s.moves, r.phase.page[r.phase.next], id);
  }

  lemma {:induction false} ClaimSkippedKeeps(s: State, k: nat, id: Id)
    requires Inv(s, id) && Enabled(s, Claim(k))
    requires !IsStuck(s.rows, s.reapers[k].phase.page[s.reapers[k].phase.next], s.reapers[k].stuckBefore)
    ensures Inv(Step(s, Claim(k)), id)
  {
    var r := s.reapers[k];
    UpdateReaper(s.reapers, k, r.(phase := Advance(r.phase.page, r.phase.next + 1)), id);
  }

  lemma {:induction false} ClaimKeeps(s: State, k: nat, id: Id)
    requires Inv(s, id) && Enabled(s, Claim(k))
    ensures Inv(Step(s, Claim(k)), id)
  {
    var r := s.reapers[k];
    if IsStuck(s.rows, r.phase.page[r.phase.next], r.stuckBefore) {
      ClaimTakenKeeps(s, k, id);
    } else {
      ClaimSkippedKeeps(s, k, id);
    }
  }

  lemma {:induction false} EnqueueKeeps(s: State, k: nat, id: Id)
    requires Inv(s, id) && Enabled(s, Enqueue(k))
    ensures Inv(Step(s, Enqueue(k)), id)
  {
    var r := s.reapers[k];
    var page, i := r.phase.page, r.phase.next;
    UpdateReaper(s.reapers, k, r.(phase := Advance(page, i + 1), reaped := r.reaped + 1), id);
    CountAppend(s.queue, page[i], id);
  }

  lemma {:induction false} FetchKeeps(s: State, k: nat, page: seq<Id>, id: Id)
    requires Inv(s, id) && Enabled(s, Fetch(k, page))
    ensures Inv(Step(s, Fetch(k, page)), id)
  {
    UpdateReaper(s.reapers, k, s.reapers[k].(phase := if page == [] then Finished else Claiming(page, 0)), id);
  }

  lemma {:induction false} StepKeeps(s: State, e: Event, id: Id)
    requires Inv(s, id) && Enabled(s, e)
    ensures Inv(Step(s, e), id)
  {
    match e
    case Start(before) => AppendReaper(s.reapers, Reaper(before, Fetching, 0), id);
    case Fetch(k, page) => FetchKeeps(s, k, page, id);
    case Claim(k) => ClaimKeeps(s, k, id);
    case Enqueue(k) => EnqueueKeeps(s, k, id);
    case Transition(_, _) =>
    case Insert(_, _) =>
  }

  /** Before any reaper has run. */
  predicate Initial(s: State) {
    s.queue == [] && s.reapers == [] && s.moves == []
  }

  /**
   Over every interleaving of any number of reaper runs with each other and with
   all other lifecycle steps, each row is moved to failed by a reaper at most
   once and enqueued at most once, an enqueued row is failed, and once no run
   stands between its claim and its `queue.add` a row is enqueued exactly when
   a reaper moved it. The counts the runs report add up to the jobs enqueued.
   */
  lemma {:induction false} ReapedExactlyOnce(s: State, es: seq<Event>, id: Id)
    requires Initial(s)
    ensures Inv(Run(s, es), id)
    ensures var t := Run(s, es);
            && Count(t.queue, id) <= Count(t.moves, id) <= 1
            && (Count(t.queue, id) == 1 ==> id in t.rows && t.rows[id].status == Status.Failed)
            && (InFlight(t.reapers, id) == 0 ==> Count(t.queue, id) == Count(t.moves, id))
            && TotalReaped(t.reapers) == |t.queue|
  {
    if es != [] {
      var before := Run(s, es[..|es| - 1]);
      ReapedExactlyOnce(s, es[..|es| - 1], id);
      if Enabled(before, es[|es| - 1]) {
        StepKeeps(before, es[|es| - 1], id);
      }
    }
  }

  /** The cutoffs of the runs started, in order. */
  function Cutoffs(es: seq<Event>): seq<nat> {
    if es == [] then []
    else Cutoffs(es[..|es| - 1]) + if es[|es| - 1].Start? then [es[|es| - 1].stuckBefore] else []
  }

  predicate CutoffsOf(rs: seq<Reaper>, cutoffs: seq<nat>) {
    |rs| == |cutoffs| && forall k :: 0 <= k < |rs| ==> rs[k].stuckBefore == cutoffs[k]
  }

  lemma {:induction false} RunCutoffs(s: State, es: seq<Event>)
    requires Initial(s)
    ensures CutoffsOf(Run(s, es).reapers, Cutoffs(es))
  {
    if es != [] {
      var before, e := Run(s, es[..|es| - 1]), es[|es| - 1];
      RunCutoffs(s, es[..|es| - 1]);
      if Enabled(before, e) {
        StepCutoffs(before, e, Cutoffs(es[..|es| - 1]));
      }
    }
  }

  lemma {:induction false} StepCutoffs(s: State, e: Event, cutoffs: seq<nat>)
    requires Enabled(s, e) && CutoffsOf(s.reapers, cutoffs)
    ensures CutoffsOf(Step(s, e).reapers, cutoffs + if e.Start? then [e.stuckBefore] else [])
  {
    match e
    case Start(_) =>
    case Fetch(_, _) =>
    case Claim(_) =>
    case Enqueue(_) =>
    case Transition(_, _) =>
    case Insert(_, _) =>
  }

  /** What the statements below call overdue, spelled out apart from the filter of the queries. */
  predicate Overdue(rows: Rows, id: Id, cutoff: nat) {
    id in rows && rows[id].status == Processing && rows[id].initiatedAt < cutoff
  }

  /** The rows before and after one step, and the rows moved by it. */
  ghost predicate OnlyMoves(a: State, b: State, e: Event, cutoffs: seq<nat>) {
    match e
    case Claim(k) =>
      && k < |cutoffs| && k < |a.reapers| && a.reapers[k].phase.Claiming? && a.reapers[k].phase.next < |a.reapers[k].phase.page|
      && var id := a.reapers[k].phase.page[a.reapers[k].phase.next];
         if Overdue(a.rows, id, cutoffs[k]) then
           b.rows == a.rows[id := Row(Status.Failed, a.rows[id].initiatedAt)] && b.moves == a.moves + [id]
         else b.rows == a.rows && b.moves == a.moves
    case Fetch(k, page) =>
      && b.rows == a.rows && b.moves == a.moves && k < |cutoffs| && |page| <= 200
      && (forall i :: 0 <= i < |page| ==> Overdue(a.rows, page[i], cutoffs[k]))
      && (|page| < 200 ==> forall id :: Overdue(a.rows, id, cutoffs[k]) ==> id in page)
    case Transition(id, to) =>
      && id in a.rows && b.moves == a.moves
      && b.rows == a.rows[id := Row(to, a.rows[id].initiatedAt)]
    case Insert(id, at) => id !in a.rows && b.rows == a.rows[id := Row(Pending, at)] && b.moves == a.moves
    case _ => b.rows == a.rows && b.moves == a.moves
  }

  /**
   At every step of every run: a reaper moves exactly the row its claim is at,
   and only when that row is processing and was initiated before that run's
   cutoff; it becomes failed and nothing else changes. So a pending, completed
   or younger row is never touched by a reaper. A page holds overdue rows only,
   and all of them when it is not full.
   */
  lemma {:induction false} ReapersMoveOnlyOverdueRows(s: State, es: seq<Event>, e: Event)
    requires Initial(s) && Enabled(Run(s, es), e)
    ensures OnlyMoves(Run(s, es), Run(s, es + [e]), e, Cutoffs(es))
  {
    var a := Run(s, es);
    assert (es + [e])[..|es|] == es;
    RunCutoffs(s, es);
    if e.Fetch? {
      PageIsOverdue(a.rows, a.reapers[e.run].stuckBefore, e.page);
    }
  }

  lemma {:induction false} PageIsOverdue(rows: Rows, cutoff: nat, page: seq<Id>)
    requires IsPage(StuckIds(rows, cutoff), REAP_BATCH, page)
    ensures forall i :: 0 <= i < |page| ==> Overdue(rows, page[i], cutoff)
    ensures |page| < 200 ==> forall id :: Overdue(rows, id, cutoff) ==> id in page
  {
    forall id | Overdue(rows, id, cutoff) && id !in page ensures |page| == REAP_BATCH {
      assert id in StuckIds(rows, cutoff);
    }
  }

  // ---------- a finished run leaves nothing behind ----------

  /** A run in this phase still has the row before it: on its page, or on a page to come. */
  ghost predicate Ahead(phase: Phase, id: Id) {
    match phase
    case Fetching => true
    case Claiming(page, next) => |page| >= REAP_BATCH || exists i :: next <= i < |page| && page[i] == id
    case Enqueueing(page, next) => |page| >= REAP_BATCH || exists i :: next < i < |page| && page[i] == id
    case Finished => false
  }

  predicate IsTerminal(rows: Rows, id: Id) {
    id in rows && (rows[id].status == Completed || rows[id].status == Status.Failed)
  }

  /** An old row is settled, or processing and still before the run. */
  ghost predicate SettledOrAhead(s: State, k: nat, id: Id, cutoff: nat) {
    && k < |s.reapers| && s.reapers[k].stuckBefore == cutoff
    && id in s.rows && s.rows[id].initiatedAt < cutoff
    && (IsTerminal(s.rows, id) || (s.rows[id].status == Processing && Ahead(s.reapers[k].phase, id)))
  }

  lemma {:induction false} AdvanceAhead(page: seq<Id>, next: nat, id: Id)
    requires |page| >= REAP_BATCH || exists i :: next <= i < |page| && page[i] == id
    ensures Ahead(Advance(page, next), id)
  {
  }

  lemma {:induction false} FetchAhead(rows: Rows, cutoff: nat, page: seq<Id>, id: Id)
    requires IsPage(StuckIds(rows, cutoff), REAP_BATCH, page) && IsStuck(rows, id, cutoff)
    ensures page != [] && Ahead(Claiming(page, 0), id)
  {
    assert id in StuckIds(rows, cutoff);
    if id in page {
      var i :| 0 <= i < |page| && page[i] == id;
      assert page[i] == id;
    }
  }

  lemma {:induction false} ClaimAhead(s: State, k: nat, id: Id, cutoff: nat)
    requires SettledOrAhead(s, k, id, cutoff) && Enabled(s, Claim(k))
    ensures SettledOrAhead(Step(s, Claim(k)), k, id, cutoff)
  {
    var r := s.reapers[k];
    var page, next := r.phase.page, r.phase.next;
    if !IsTerminal(s.rows, id) && page[next] != id && !IsStuck(s.rows, page[next], cutoff) {
      AdvanceAhead(page, next + 1, id);
    }
  }

  lemma {:induction false} EnqueueAhead(s: State, k: nat, id: Id, cutoff: nat)
    requires SettledOrAhead(s, k, id, cutoff) && Enabled(s, Enqueue(k))
    ensures SettledOrAhead(Step(s, Enqueue(k)), k, id, cutoff)
  {
    var r := s.reapers[k];
    if !IsTerminal(s.rows, id) {
      AdvanceAhead(r.phase.page, r.phase.next + 1, id);
    }
  }

  lemma {:induction false} StepAhead(s: State, e: Event, k: nat, id: Id, cutoff: nat)
    requires SettledOrAhead(s, k, id, cutoff) && Enabled(s, e)
    ensures SettledOrAhead(Step(s, e), k, id, cutoff)
  {
    match e
    case Start(_) =>
    case Fetch(j, page) =>
      if j == k && !IsTerminal(s.rows, id) {
        FetchAhead(s.rows, cutoff, page, id);
      }
    case Claim(j) =>
      if j == k {
        ClaimAhead(s, k, id, cutoff);
      }
    case Enqueue(j) =>
      if j == k {
        EnqueueAhead(s, k, id, cutoff);
      }
    case Transition(_, _) =>
    case Insert(_, _) =>
  }

  lemma {:induction false} RunAhead(s: State, es: seq<Event>, begun: nat, k: nat, id: Id, cutoff: nat)
    requires begun <= |es| && SettledOrAhead(Run(s, es[..begun]), k, id, cutoff)
    ensures SettledOrAhead(Run(s, es), k, id, cutoff)
  {
    if begun == |es| {
      assert es[..begun] == es;
    } else {
      var n := |es| - 1;
      assert es[..n][..begun] == es[..begun];
      RunAhead(s, es[..n], begun, k, id, cutoff);
      if Enabled(Run(s, es[..n]), es[n]) {
        StepAhead(Run(s, es[..n]), es[n], k, id, cutoff);
      }
    }
  }

  /**
   Whatever interleaves with it, a run that has finished leaves nothing behind:
   every row that was processing and older than its cutoff when it started is
   completed or failed.
   */
  lemma {:induction false} FinishedLeavesNothing(s: State, es: seq<Event>, begun: nat, id: Id)
    requires Initial(s) && begun < |es| && es[begun].Start?
    requires Overdue(Run(s, es[..begun]).rows, id, es[begun].stuckBefore)
    ensures var k, t := |Cutoffs(es[..begun])|, Run(s, es);
            && k < |t.reapers| && t.reapers[k].stuckBefore == es[begun].stuckBefore
            && (t.reapers[k].phase.Finished? ==> id in t.rows && (t.rows[id].status == Completed || t.rows[id].status == Status.Failed))
  {
    RunCutoffs(s, es[..begun]);
    assert es[..begun + 1][..begun] == es[..begun];
    RunAhead(s, es, begun + 1, |Cutoffs(es[..begun])|, id, es[begun].stuckBefore);
  }

  // ---------- one run among others ----------

  /**
   What everyone, other reapers included, can do to the rows: validated status
   updates, and inserts of rows initiated now, not before the cutoff. Rows are
   never deleted.
   */
  ghost predicate Evolves(a: Rows, b: Rows, stuckBefore: nat) {
    && (forall id :: id in a ==> id in b && b[id].initiatedAt == a[id].initiatedAt && Reaches(a[id].status, b[id].status))
    && (forall id :: id in b && id !in a ==> b[id].initiatedAt >= stuckBefore)
  }

  /** The rows old enough to be reaped; validated updates and fresh inserts leave this set alone. */
  function OldIds(rows: Rows, stuckBefore: nat): set<Id> {
    set id | id in rows && rows[id].initiatedAt < stuckBefore
  }

  lemma {:induction false} EvolvesTransitive(a: Rows, b: Rows, c: Rows, stuckBefore: nat)
    requires Evolves(a, b, stuckBefore) && Evolves(b, c, stuckBefore)
    ensures Evolves(a, c, stuckBefore)
  {
  }

  lemma {:induction false} EvolvesKeeps(a: Rows, b: Rows, stuckBefore: nat)
    requires Evolves(a, b, stuckBefore)
    ensures OldIds(a, stuckBefore) == OldIds(b, stuckBefore)
    ensures forall id :: IsTerminal(a, id) ==> IsTerminal(b, id)
    ensures forall id :: IsStuck(a, id, stuckBefore) ==> IsStuck(b, id, stuckBefore) || IsTerminal(b, id)
  {
  }

  lemma {:induction false} StepEvolves(s: State, e: Event, stuckBefore: nat)
    requires Enabled(s, e) && (e.Insert? ==> e.initiatedAt >= stuckBefore)
    ensures Evolves(s.rows, Step(s, e).rows, stuckBefore) && s.queue <= Step(s, e).queue
  {
  }

  /**
   What others do between two statements of a run is what any run of the step
   machine does to the rows and the queue, rows being inserted as of now.
   */
  lemma {:induction false} RunEvolves(s: State, es: seq<Event>, stuckBefore: nat)
    requires forall i :: 0 <= i < |es| && es[i].Insert? ==> es[i].initiatedAt >= stuckBefore
    ensures Evolves(s.rows, Run(s, es).rows, stuckBefore) && s.queue <= Run(s, es).queue
  {
    if es != [] {
      var before, e := Run(s, es[..|es| - 1]), es[|es| - 1];
      RunEvolves(s, es[..|es| - 1], stuckBefore);
      if Enabled(before, e) {
        StepEvolves(before, e, stuckBefore);
        EvolvesTransitive(s.rows, before.rows, Step(before, e).rows, stuckBefore);
      }
    }
  }

  /** A row this run moved, as its update found it. */
  datatype Claimed = Claimed(id: Id, was: Row)

  /**
   The settlement table and the job queue, shared by every process; `claims`
   and `added` record what this run itself wrote.
   */
  class Store {
    var rows: Rows
    var queue: seq<Id>
    ghost var claims: seq<Claimed>
    ghost var added: seq<Id>

    constructor (rows: Rows, queue: seq<Id>)
      ensures this.rows == rows && this.queue == queue && claims == [] && added == []
    {
      this.rows, this.queue, claims, added := rows, queue, [], [];
    }

    /** Everyone else runs; jobs are only ever added. */
    method Interference(ghost stuckBefore: nat)
      modifies this`rows, this`queue
      ensures Evolves(old(rows), rows, stuckBefore)
      ensures old(queue) <= queue
    {
    }

    /** The claim: one conditional `UPDATE ... SET status = 'failed' WHERE status = 'processing'`. */
    method ClaimRow(id: Id, stuckBefore: nat) returns (count: nat)
      modifies this`rows, this`claims
      ensures count == 1 || count == 0
      ensures count == 1 <==> id in old(rows) && old(rows)[id].status == Processing && old(rows)[id].initiatedAt < stuckBefore
      ensures count == 1 ==> rows == old(rows)[id := Row(Status.Failed, old(rows)[id].initiatedAt)]
      ensures count == 1 ==> claims == old(claims) + [Claimed(id, old(rows)[id])]
      ensures count == 0 ==> rows == old(rows) && claims == old(claims)
    {
      if id in rows && rows[id].status == Processing && rows[id].initiatedAt < stuckBefore {
        claims := claims + [Claimed(id, rows[id])];
        rows := rows[id := rows[id].(status := Status.Failed)];
        count := 1;
      } else {
        count := 0;
      }
    }

    method Add(id: Id)
      modifies this`queue, this`added
      ensures queue == old(queue) + [id] && added == old(added) + [id]
    {
      queue, added := queue + [id], added + [id];
    }
  }

  /**
   One row of a page. A row claimed was processing and older than the cutoff
   when the update found it; it is failed now, and its job is queued. A row not
   claimed is neither changed nor queued by this run. A row stuck at the start
   is terminal at the end, whoever claimed it.
   */
  method ReapRow(store: Store, id: Id, stuckBefore: nat) returns (claimed: bool)
    modifies store
    ensures Evolves(old(store.rows), store.rows, stuckBefore) && old(store.queue) <= store.queue
    ensures id in old(store.rows) && old(store.rows)[id].status == Processing && old(store.rows)[id].initiatedAt < stuckBefore
            ==> IsTerminal(store.rows, id)
    ensures claimed ==> exists was: Row ::
              && was.status == Processing && was.initiatedAt < stuckBefore
              && store.claims == old(store.claims) + [Claimed(id, was)]
              && id in store.rows && store.rows[id] == Row(Status.Failed, was.initiatedAt)
    ensures claimed ==> !IsTerminal(old(store.rows), id)
    ensures claimed ==> id in store.queue[|old(store.queue)|..] && store.added == old(store.added) + [id]
    ensures !claimed ==> store.claims == old(store.claims) && store.added == old(store.added)
  {
    store.Interference(stuckBefore);
    ghost var found := store.rows;
    ghost var queued := store.queue;
    EvolvesKeeps(old(store.rows), found, stuckBefore);
    var count := store.ClaimRow(id, stuckBefore);
    ghost var mine := store.rows;
    EvolvesTransitive(old(store.rows), found, mine, stuckBefore);
    claimed := count == 1;
    if claimed {
      store.Interference(stuckBefore);
      EvolvesTransitive(old(store.rows), mine, store.rows, stuckBefore);
      EvolvesKeeps(mine, store.rows, stuckBefore);
      ghost var before := store.queue;
      store.Add(id);
      assert store.queue == before + [id];
      assert store.queue[|old(store.queue)|..] == before[|old(store.queue)|..] + [id];
      assert store.claims == old(store.claims) + [Claimed(id, found[id])];
      assert store.rows[id] == Row(Status.Failed, found[id].initiatedAt);
    }
  }

  /**
   What a run knows of the rows it claimed so far: all different, each found
   processing and older than the cutoff, all failed, all enqueued since the run began.
   */
  ghost predicate Reaped(mine: seq<Claimed>, rows: Rows, start: seq<Id>, queue: seq<Id>, stuckBefore: nat) {
    && start <= queue
    && (forall i, j :: 0 <= i < j < |mine| ==> mine[i].id != mine[j].id)
    && (forall i :: 0 <= i < |mine| ==> ReapedRow(mine[i], rows, stuckBefore) && mine[i].id in queue[|start|..])
  }

  ghost predicate ReapedRow(x: Claimed, rows: Rows, stuckBefore: nat) {
    && x.was.status == Processing && x.was.initiatedAt < stuckBefore
    && x.id in rows && rows[x.id] == Row(Status.Failed, x.was.initiatedAt)
  }

  function IdsOf(mine: seq<Claimed>): (ids: seq<Id>)
    ensures |ids| == |mine| && forall i :: 0 <= i < |mine| ==> ids[i] == mine[i].id
  {
    if mine == [] then [] else IdsOf(mine[..|mine| - 1]) + [mine[|mine| - 1].id]
  }

  lemma {:induction false} IdsOfAppend(mine: seq<Claimed>, x: Claimed)
    ensures IdsOf(mine + [x]) == IdsOf(mine) + [x.id]
  {
    assert (mine + [x])[..|mine|] == mine;
  }

  lemma {:induction false} ReapedLater(mine: seq<Claimed>, rows: Rows, start: seq<Id>, queue: seq<Id>, rows': Rows, queue': seq<Id>, stuckBefore: nat)
    requires Reaped(mine, rows, start, queue, stuckBefore) && Evolves(rows, rows', stuckBefore) && queue <= queue'
    ensures Reaped(mine, rows', start, queue', stuckBefore)
  {
    assert queue'[|start|..] == queue[|start|..] + queue'[|queue|..];
    forall i | 0 <= i < |mine| ensures ReapedRow(mine[i], rows', stuckBefore) && mine[i].id in queue'[|start|..] {
      assert ReapedRow(mine[i], rows, stuckBefore);
    }
  }

  /** What this run wrote itself, since the records stood at `claims` and `added`. */
  ghost predicate Wrote(store: Store, claims: seq<Claimed>, added: seq<Id>, mine: seq<Claimed>)
    reads store
  {
    store.claims == claims + mine && store.added == added + IdsOf(mine)
  }

  lemma {:induction false} ReapedOneMore(
    mine: seq<Claimed>, x: Claimed, found: Rows, rows: Rows, start: seq<Id>, before: seq<Id>, queue: seq<Id>, stuckBefore: nat)
    requires Reaped(mine, rows, start, queue, stuckBefore) && ReapedRow(x, rows, stuckBefore)
    requires forall i :: 0 <= i < |mine| ==> ReapedRow(mine[i], found, stuckBefore)
    requires !IsTerminal(found, x.id) && start <= before <= queue && x.id in queue[|before|..]
    ensures Reaped(mine + [x], rows, start, queue, stuckBefore)
  {
    assert queue[|start|..] == before[|start|..] + queue[|before|..];
    forall i | 0 <= i < |mine| ensures mine[i].id != x.id {
      assert ReapedRow(mine[i], found, stuckBefore);
    }
  }

  /** What a run knows after one more row. */
  lemma {:induction false} RowDone(
    claimed: bool, id: Id, mine: seq<Claimed>, rows: Rows, rows': Rows, start: seq<Id>, queue: seq<Id>, queue': seq<Id>,
    claims: seq<Claimed>, claims': seq<Claimed>, added: seq<Id>, added': seq<Id>, stuckBefore: nat) returns (next: seq<Claimed>)
    requires Reaped(mine, rows, start, queue, stuckBefore) && Evolves(rows, rows', stuckBefore) && queue <= queue'
    requires claimed ==> exists was: Row ::
               claims' == claims + mine + [Claimed(id, was)] && ReapedRow(Claimed(id, was), rows', stuckBefore)
    requires claimed ==> !IsTerminal(rows, id) && id in queue'[|queue|..] && added' == added + IdsOf(mine) + [id]
    requires !claimed ==> claims' == claims + mine && added' == added + IdsOf(mine)
    ensures Reaped(next, rows', start, queue', stuckBefore) && |next| == |mine| + if claimed then 1 else 0
    ensures claims' == claims + next && added' == added + IdsOf(next)
  {
    ReapedLater(mine, rows, start, queue, rows', queue', stuckBefore);
    next := mine;
    if claimed {
      var was: Row :| claims' == claims + mine + [Claimed(id, was)] && ReapedRow(Claimed(id, was), rows', stuckBefore);
      var x := Claimed(id, was);
      next := mine + [x];
      ReapedOneMore(mine, x, rows, rows', start, queue, queue', stuckBefore);
      IdsOfAppend(mine, x);
      assert claims + mine + [x] == claims + next;
      assert added + IdsOf(mine) + [id] == added + IdsOf(next);
    }
  }

  function Elements(page: seq<Id>): set<Id> {
    set i | 0 <= i < |page| :: page[i]
  }

  /** A page holds old rows, none of them seen before. */
  lemma {:induction false} PageIsNew(rows: Rows, page: seq<Id>, seen: set<Id>, stuckBefore: nat)
    requires page != [] && forall i :: 0 <= i < |page| ==> IsStuck(rows, page[i], stuckBefore)
    requires forall id :: id in seen ==> IsTerminal(rows, id)
    ensures Elements(page) <= OldIds(rows, stuckBefore)
    ensures page[0] in Elements(page) && page[0] !in seen
  {
  }

  /** Every row processing and older than the cutoff in `a` is completed or failed in `b`. */
  ghost predicate OverdueSettled(a: Rows, b: Rows, stuckBefore: nat) {
    forall id :: id in a && a[id].status == Processing && a[id].initiatedAt < stuckBefore
      ==> id in b && (b[id].status == Completed || b[id].status == Status.Failed)
  }

  lemma {:induction false} NoneLeft(a: Rows, fetched: Rows, b: Rows, stuckBefore: nat)
    requires Evolves(a, fetched, stuckBefore) && Evolves(fetched, b, stuckBefore)
    requires forall id :: id in StuckIds(fetched, stuckBefore) ==> IsTerminal(b, id)
    ensures OverdueSettled(a, b, stuckBefore)
  {
    forall id | IsStuck(a, id, stuckBefore) ensures IsTerminal(b, id) {
      EvolvesKeeps(a, fetched, stuckBefore);
      EvolvesKeeps(fetched, b, stuckBefore);
      if IsStuck(fetched, id, stuckBefore) {
        assert id in StuckIds(fetched, stuckBefore);
      }
    }
    forall id | id in a && a[id].status == Processing && a[id].initiatedAt < stuckBefore
      ensures id in b && (b[id].status == Completed || b[id].status == Status.Failed)
    {
      assert IsStuck(a, id, stuckBefore);
    }
  }

  /** The rows of one page, one after another. */
  method ReapPage(store: Store, page: seq<Id>, stuckBefore: nat, ghost before: seq<Claimed>, ghost start: seq<Id>,
                  ghost claims: seq<Claimed>, ghost added: seq<Id>)
    returns (reaped: nat, ghost mine: seq<Claimed>)
    requires forall i :: 0 <= i < |page| ==> IsStuck(store.rows, page[i], stuckBefore)
    requires Reaped(before, store.rows, start, store.queue, stuckBefore)
    requires Wrote(store, claims, added, before)
    modifies store
    ensures Evolves(old(store.rows), store.rows, stuckBefore)
    ensures forall i :: 0 <= i < |page| ==> IsTerminal(store.rows, page[i])
    ensures Reaped(mine, store.rows, start, store.queue, stuckBefore) && |mine| == |before| + reaped
    ensures Wrote(store, claims, added, mine)
  {
    reaped, mine := 0, before;
    for i := 0 to |page|
      invariant Evolves(old(store.rows), store.rows, stuckBefore)
      invariant forall k :: 0 <= k < i ==> IsTerminal(store.rows, page[k])
      invariant Reaped(mine, store.rows, start, store.queue, stuckBefore) && |mine| == |before| + reaped
      invariant Wrote(store, claims, added, mine)
    {
      ghost var rows, queue := store.rows, store.queue;
      EvolvesKeeps(old(store.rows), rows, stuckBefore);
      var claimed := ReapRow(store, page[i], stuckBefore);
      EvolvesTransitive(old(store.rows), rows, store.rows, stuckBefore);
      EvolvesKeeps(rows, store.rows, stuckBefore);
      mine := RowDone(claimed, page[i], mine, rows, store.rows, start, queue, store.queue, claims, store.claims, added, store.added,
                      stuckBefore);
      if claimed {
        reaped := reaped + 1;
      }
    }
  }

  /**
   `reapStuckSettlements`. It terminates whatever the others do: every row of a
   page is terminal once the page is done, so no row is ever fetched twice, and
   the old rows not yet seen run out. Every row that was processing and older
   than the cutoff when the run began is completed or failed when it ends. The
   rows this run moved were all processing and older than the cutoff, they are
   failed and all different, and it enqueued exactly those, once each, in the
   order moved; their number is returned.
   */
  method ReapStuckSettlements(store: Store, stuckBefore: nat) returns (reaped: nat, ghost mine: seq<Claimed>)
    modifies store
    ensures Evolves(old(store.rows), store.rows, stuckBefore)
    ensures OverdueSettled(old(store.rows), store.rows, stuckBefore)
    ensures reaped == |mine| && Reaped(mine, store.rows, old(store.queue), store.queue, stuckBefore)
    ensures store.claims == old(store.claims) + mine && store.added == old(store.added) + IdsOf(mine)
  {
    reaped, mine := 0, [];
    ghost var seen: set<Id> := {};
    ghost var aged := OldIds(store.rows, stuckBefore);
    while true
      invariant Evolves(old(store.rows), store.rows, stuckBefore)
      invariant seen <= aged && aged == OldIds(store.rows, stuckBefore)
      invariant forall id :: id in seen ==> IsTerminal(store.rows, id)
      invariant reaped == |mine| && Reaped(mine, store.rows, old(store.queue), store.queue, stuckBefore)
      invariant Wrote(store, old(store.claims), old(store.added), mine)
      decreases aged - seen
    {
      ghost var rows, queue := store.rows, store.queue;
      store.Interference(stuckBefore);
      ghost var fetched := store.rows;
      EvolvesTransitive(old(store.rows), rows, fetched, stuckBefore);
      EvolvesKeeps(rows, fetched, stuckBefore);
      EvolvesKeeps(old(store.rows), fetched, stuckBefore);
      ReapedLater(mine, rows, old(store.queue), queue, fetched, store.queue, stuckBefore);
      var stuck := FirstRows(StuckIds(store.rows, stuckBefore), REAP_BATCH);
      if |stuck| == 0 {
        NoneLeft(old(store.rows), fetched, store.rows, stuckBefore);
        break;
      }
      assert forall i :: 0 <= i < |stuck| ==> stuck[i] in StuckIds(fetched, stuckBefore);
      var count: nat;
      count, mine := ReapPage(store, stuck, stuckBefore, mine, old(store.queue), old(store.claims), old(store.added));
      reaped := reaped + count;
      EvolvesTransitive(old(store.rows), fetched, store.rows, stuckBefore);
      EvolvesKeeps(fetched, store.rows, stuckBefore);
      PageIsNew(fetched, stuck, seen, stuckBefore);
      seen := seen + Elements(stuck);
      if |stuck| < REAP_BATCH {
        NoneLeft(old(store.rows), fetched, store.rows, stuckBefore);
        break;
      }
    }
  }
}
