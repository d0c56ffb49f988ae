/**
 Retry chains: the links the retry handler writes, and the loops that walk
 them. One retry is one step and its new id is fresh.
 */
module RetryChains {
  import opened Options
  import opened Lifecycle

  type Id = string

  /** What a retry clones: merchant, asset and every amount. */
  datatype Terms = Terms(merchantId: string, asset: string, total: string, gross: string, fee: string, net: string, feeBps: nat)

  /** `born` is the number of settlements created before this one. */
  datatype Settlement = Settlement(terms: Terms, status: Status, version: nat, supersededBy: Option<Id>, born: nat)

  datatype State = State(rows: map<Id, Settlement>, births: nat)

  const MAX_RETRY_COUNT := 3

  // ---------- chains ----------

  predicate Links(s: State, a: Id, b: Id) {
    a in s.rows && s.rows[a].supersededBy == Some(b)
  }

  /** Links lead to later settlements with the same terms, and no two lead to the same one. */
  ghost predicate WellLinked(s: State) {
    && (forall a :: a in s.rows ==> s.rows[a].born < s.births)
    && (forall a, b :: Links(s, a, b) ==> b in s.rows && s.rows[a].born < s.rows[b].born && s.rows[a].terms == s.rows[b].terms)
    && (forall a, b, c :: Links(s, a, c) && Links(s, b, c) ==> a == b)
  }

  /** The settlements that follow one, nearest first. */
  ghost function Forward(s: State, id: Id): seq<Id>
    requires WellLinked(s) && id in s.rows
    decreases s.births - s.rows[id].born
  {
    match s.rows[id].supersededBy
    case None => []
    case Some(next) =>
      assert Links(s, id, next);
      [next] + Forward(s, next)
  }

  /** The settlement that was retried to give this one, if any. */
  ghost function Predecessor(s: State, id: Id): (p: Option<Id>)
    ensures p.Some? ==> Links(s, p.value, id)
    ensures p.None? ==> forall a :: !Links(s, a, id)
  {
    if a :| Links(s, a, id) then Some(a) else None
  }

  /** The first settlement of the chain. */
  ghost function Root(s: State, id: Id): (r: Id)
    requires WellLinked(s) && id in s.rows
    ensures r in s.rows
    decreases s.rows[id].born
  {
    var p := Predecessor(s, id);
    if p.None? then id else Root(s, p.value)
  }

  /** How many settlements precede one. */
  ghost function Depth(s: State, id: Id): nat
    requires WellLinked(s) && id in s.rows
    decreases s.rows[id].born
  {
    var p := Predecessor(s, id);
    if p.None? then 0 else 1 + Depth(s, p.value)
  }

  /** The whole chain of a settlement, from its root. */
  ghost function Chain(s: State, id: Id): seq<Id>
    requires WellLinked(s) && id in s.rows
  {
    [Root(s, id)] + Forward(s, Root(s, id))
  }

  // ---------- steps ----------

  /** The number the retry handler compares with its limit: the settlement's chain, itself excepted. */
  ghost function RetryCount(s: State, id: Id): nat
    requires WellLinked(s) && id in s.rows
  {
    Depth(s, id) + |Forward(s, id)|
  }

  datatype Event =
    | Create(id: Id, terms: Terms)
    | Transition(id: Id, to: Status)
    | Retry(id: Id, newId: Id)

  ghost predicate Enabled(s: State, e: Event)
    requires WellLinked(s)
  {
    match e
    case Create(id, _) => id !in s.rows
    case Transition(id, to) => id in s.rows && ValidateTransition(s.rows[id].status, to)
    case Retry(id, newId) =>
      id in s.rows && newId !in s.rows && s.rows[id].status == Status.Failed && RetryCount(s, id) < MAX_RETRY_COUNT
  }

  /** The retry clones the settlement and overwrites its link, bumping its version. */
  ghost function Step(s: State, e: Event): State
    requires WellLinked(s) && Enabled(s, e)
  {
    match e
    case Create(id, terms) =>
      State(s.rows[id := Settlement(terms, Pending, 0, None, s.births)], s.births + 1)
    case Transition(id, to) => s.(rows := s.rows[id := s.rows[id].(status := to)])
    case Retry(id, newId) =>
      var original := s.rows[id];
      var clone := Settlement(original.terms, Pending, 0, None, s.births);
      var retried := original.(supersededBy := Some(newId), version := original.version + 1);
      State(s.rows[newId := clone][id := retried], s.births + 1)
  }

  /** Links are well formed and no settlement has more than three before it. */
  ghost predicate Inv(s: State) {
    WellLinked(s) && forall id :: id in s.rows ==> Depth(s, id) <= MAX_RETRY_COUNT
  }

  /** The states the system can be in, step by step from an empty table. */
  ghost predicate IsRun(states: seq<State>, events: seq<Event>) {
    && |states| == |events| + 1
    && states[0] == State(map[], 0)
    && forall i :: 0 <= i < |events| ==>
         WellLinked(states[i]) && Enabled(states[i], events[i]) && states[i + 1] == Step(states[i], events[i])
  }

  lemma {:induction false} StepWellLinked(s: State, e: Event)
    requires WellLinked(s) && Enabled(s, e)
    ensures WellLinked(Step(s, e))
  {
    var t := Step(s, e);
    forall a, b | Links(t, a, b)
      ensures b in t.rows && t.rows[a].born < t.rows[b].born && t.rows[a].terms == t.rows[b].terms
    {
      if !(e.Retry? && a == e.id) {
        assert Links(s, a, b);
      }
    }
    forall a, b, c | Links(t, a, c) && Links(t, b, c) ensures a == b {
      LinkOrigin(s, e, a, c);
      LinkOrigin(s, e, b, c);
    }
  }

  /** A link after a step was there before, unless it is the one the retry wrote. */
  lemma {:induction false} LinkOrigin(s: State, e: Event, a: Id, b: Id)
    requires WellLinked(s) && Enabled(s, e) && Links(Step(s, e), a, b)
    ensures (e.Retry? && a == e.id && b == e.newId) || (Links(s, a, b) && !(e.Retry? && a == e.id) && b in s.rows)
  {
  }

  /** No step puts a settlement deeper, and a clone is one deeper than what it retries. */
  lemma {:induction false} DepthAfter(s: State, e: Event, id: Id)
    requires WellLinked(s) && Enabled(s, e) && WellLinked(Step(s, e))
    requires id in Step(s, e).rows
    ensures id in s.rows ==> Depth(Step(s, e), id) <= Depth(s, id)
    ensures e.Retry? && id == e.newId ==> Depth(Step(s, e), id) <= 1 + Depth(s, e.id)
    ensures id !in s.rows && !e.Retry? ==> Depth(Step(s, e), id) == 0
    decreases Step(s, e).rows[id].born
  {
    var t := Step(s, e);
    var p := Predecessor(t, id);
    if p.Some? {
      LinkOrigin(s, e, p.value, id);
      DepthAfter(s, e, p.value);
      if id in s.rows {
        var q := Predecessor(s, id);
        assert Links(s, p.value, id);
        assert q == p;
      }
    }
  }

  lemma {:induction false} StepKeeps(s: State, e: Event)
    requires Inv(s) && Enabled(s, e)
    ensures Inv(Step(s, e))
  {
    StepWellLinked(s, e);
    forall id | id in Step(s, e).rows ensures Depth(Step(s, e), id) <= MAX_RETRY_COUNT {
      DepthAfter(s, e, id);
    }
  }

  lemma {:induction false} RunKeeps(states: seq<State>, events: seq<Event>, i: nat)
    requires IsRun(states, events) && i < |states|
    ensures Inv(states[i])
  {
    if i > 0 {
      RunKeeps(states, events, i - 1);
      StepKeeps(states[i - 1], events[i - 1]);
    }
  }

  // ---------- the shape of chains ----------

  lemma {:induction false} RootOfNext(s: State, a: Id, b: Id)
    requires WellLinked(s) && Links(s, a, b)
    ensures b in s.rows && Root(s, b) == Root(s, a) && Depth(s, b) == Depth(s, a) + 1
    ensures Forward(s, a) == [b] + Forward(s, b)
  {
    assert Predecessor(s, b) == Some(a);
  }

  /** Everything that follows a settlement has its root and its terms, and is later. */
  lemma {:induction false} ForwardShape(s: State, id: Id, i: nat)
    requires WellLinked(s) && id in s.rows && i < |Forward(s, id)|
    ensures var x := Forward(s, id)[i];
            && x in s.rows && Root(s, x) == Root(s, id) && s.rows[x].terms == s.rows[id].terms
            && s.rows[x].born > s.rows[id].born
            && Depth(s, x) == Depth(s, id) + i + 1
    decreases s.births - s.rows[id].born
  {
    var next := s.rows[id].supersededBy.value;
    RootOfNext(s, id, next);
    if i > 0 {
      ForwardShape(s, next, i - 1);
    }
  }

  lemma {:induction false} RootIsFirst(s: State, id: Id)
    requires WellLinked(s) && id in s.rows
    ensures Predecessor(s, Root(s, id)).None? && Depth(s, Root(s, id)) == 0
    ensures Root(s, Root(s, id)) == Root(s, id)
    decreases s.rows[id].born
  {
    var p := Predecessor(s, id);
    if p.Some? {
      RootIsFirst(s, p.value);
    }
  }

  /** A settlement stands in its chain, at the place its depth says, and the rest of the chain follows it. */
  lemma {:induction false} PlaceInChain(s: State, id: Id)
    requires WellLinked(s) && id in s.rows
    ensures var c := Chain(s, id);
            Depth(s, id) < |c| && c[Depth(s, id)] == id && c[Depth(s, id) + 1..] == Forward(s, id)
    decreases s.rows[id].born
  {
    var p := Predecessor(s, id);
    if p.Some? {
      PlaceInChain(s, p.value);
      RootOfNext(s, p.value, id);
      var c, d := Chain(s, id), Depth(s, id);
      assert c[d..] == [id] + Forward(s, id);
      assert c[d] == c[d..][0] && c[d + 1..] == c[d..][1..];
    }
  }

  /** Every chain has the same root, terms and strictly growing birth numbers, so it repeats nothing. */
  lemma {:induction false} ChainShape(s: State, id: Id)
    requires WellLinked(s) && id in s.rows
    ensures var c := Chain(s, id);
            && (forall i :: 0 <= i < |c| ==> c[i] in s.rows && Root(s, c[i]) == Root(s, id)
                                              && s.rows[c[i]].terms == s.rows[id].terms && Depth(s, c[i]) == i)
            && (forall i, j :: 0 <= i < j < |c| ==> c[i] != c[j])
            && |c| == RetryCount(s, id) + 1
  {
    var c, r := Chain(s, id), Root(s, id);
    RootIsFirst(s, id);
    PlaceInChain(s, id);
    forall i | 0 <= i < |c|
      ensures c[i] in s.rows && Root(s, c[i]) == r && s.rows[c[i]].terms == s.rows[r].terms && Depth(s, c[i]) == i
    {
      if i > 0 {
        ForwardShape(s, r, i - 1);
      }
    }
    assert c[Depth(s, id)] == id;
    forall i, j | 0 <= i < j < |c| ensures c[i] != c[j] {
      assert Depth(s, c[i]) == i && Depth(s, c[j]) == j;
    }
  }

  /**
   In every reachable state the links form disjoint simple chains of at most
   four settlements with one merchant, one asset and the same amounts: a chain
   repeats nothing, two chains that share a settlement are one chain.
   */
  lemma {:induction false} ChainsOfEveryRun(states: seq<State>, events: seq<Event>, i: nat, a: Id, b: Id)
    requires IsRun(states, events) && i < |states|
    requires WellLinked(states[i]) ==> a in states[i].rows && b in states[i].rows
    ensures WellLinked(states[i])
    ensures var s := states[i];
            var c, d := Chain(s, a), Chain(s, b);
            && |c| <= MAX_RETRY_COUNT + 1
            && (forall k, l :: 0 <= k < l < |c| ==> c[k] != c[l])
            && (forall k :: 0 <= k < |c| ==> c[k] in s.rows && s.rows[c[k]].terms == s.rows[a].terms)
            && (forall k, l :: 0 <= k < |c| && 0 <= l < |d| && c[k] == d[l] ==> c == d)
  {
    RunKeeps(states, events, i);
    var s := states[i];
    ChainShape(s, a);
    ChainShape(s, b);
    var c := Chain(s, a);
    assert Depth(s, c[|c| - 1]) == |c| - 1;
  }

  // ---------- retries ----------

  /** A link is only ever written on a failed settlement, which stays failed. */
  ghost predicate SupersededFailed(s: State) {
    forall id :: id in s.rows && s.rows[id].supersededBy.Some? ==> s.rows[id].status == Status.Failed
  }

  lemma {:induction false} StepSuperseded(s: State, e: Event)
    requires WellLinked(s) && Enabled(s, e) && SupersededFailed(s)
    ensures SupersededFailed(Step(s, e))
  {
  }

  /** In every reachable state whatever has been retried is failed. */
  lemma {:induction false} RetriedIsFailed(states: seq<State>, events: seq<Event>, i: nat)
    requires IsRun(states, events) && i < |states|
    ensures SupersededFailed(states[i])
  {
    if i > 0 {
      RetriedIsFailed(states, events, i - 1);
      StepSuperseded(states[i - 1], events[i - 1]);
    }
  }

  /**
   In every reachable state a settlement can be retried exactly when it is
   failed and its whole chain, before and after it, has fewer than four. The
   retry adds a pending clone of its terms with no link, links the settlement
   to it with its version one higher, and changes nothing else; so the clone
   stands right behind it in one chain.
   */
  lemma {:induction false} RetryExactly(states: seq<State>, events: seq<Event>, i: nat, id: Id, newId: Id)
    requires IsRun(states, events) && i < |states|
    ensures WellLinked(states[i])
    ensures var s := states[i];
            Enabled(s, Retry(id, newId)) <==>
            id in s.rows && newId !in s.rows && s.rows[id].status == Status.Failed && |Chain(s, id)| < 4
    ensures var s := states[i];
            Enabled(s, Retry(id, newId)) ==>
              var t := Step(s, Retry(id, newId)).rows;
              && t.Keys == s.rows.Keys + {newId}
              && t[newId].terms == s.rows[id].terms && t[newId].status == Pending
              && t[newId].version == 0 && t[newId].supersededBy == None
              && t[id].terms == s.rows[id].terms && t[id].status == Status.Failed
              && t[id].version == s.rows[id].version + 1 && t[id].supersededBy == Some(newId)
              && forall x :: x in s.rows && x != id ==> t[x] == s.rows[x]
    ensures var s := states[i];
            Enabled(s, Retry(id, newId)) ==>
              var t := Step(s, Retry(id, newId));
              WellLinked(t) && Forward(t, id) == [newId]
  {
    RunKeeps(states, events, i);
    var s := states[i];
    if id in s.rows {
      ChainShape(s, id);
    }
    if Enabled(s, Retry(id, newId)) {
      StepWellLinked(s, Retry(id, newId));
    }
  }

  // ---------- the walks ----------

  /** `findMany({ where: { supersededById: { in: ids } } })`. */
  function Children(s: State, ids: set<Id>): set<Id> {
    set a | a in s.rows && s.rows[a].supersededBy.Some? && s.rows[a].supersededBy.value in ids
  }

  /**
   `getSettlementRetryCount`. The descendant walk keeps no visited set: it ends
   only because links never form a cycle. The count is the length of the
   settlement's chain less one; an unknown id counts nothing.
   */
  method GetSettlementRetryCount(s: State, settlementId: Id) returns (count: nat)
    requires WellLinked(s)
    ensures settlementId !in s.rows ==> count == 0
    ensures settlementId in s.rows ==> count == RetryCount(s, settlementId) == |Chain(s, settlementId)| - 1
  {
    if settlementId in s.rows {
      ChainShape(s, settlementId);
    }
    var visited: set<Id> := {};
    var currentId := settlementId;
    var ancestorCount := 0;
    while currentId !in visited
      invariant settlementId !in s.rows ==> currentId == settlementId && visited == {} && ancestorCount == 0
      invariant settlementId in s.rows ==>
                  && currentId in s.rows
                  && ancestorCount + |Forward(s, currentId)| == |Forward(s, settlementId)|
                  && (forall v :: v in visited ==> v in s.rows && s.rows[v].born < s.rows[currentId].born)
      decreases if currentId in s.rows then s.births - s.rows[currentId].born else 0
    {
      visited := visited + {currentId};
      if currentId !in s.rows || s.rows[currentId].supersededBy.None? {
        break;
      }
      assert Links(s, currentId, s.rows[currentId].supersededBy.value);
      currentId := s.rows[currentId].supersededBy.value;
      ancestorCount := ancestorCount + 1;
    }

    var descendantCount := 0;
    var activeIds := {settlementId};
    ghost var active := settlementId;
    while activeIds != {}
      invariant activeIds == {active}
      invariant settlementId !in s.rows ==> active == settlementId && descendantCount == 0
      invariant settlementId in s.rows ==>
                  active in s.rows && descendantCount + Depth(s, active) == Depth(s, settlementId)
      decreases if active in s.rows then s.rows[active].born else 0
    {
      var children := Children(s, activeIds);
      assert active in s.rows && Predecessor(s, active).Some? ==> Predecessor(s, active).value in children;
      if children == {} {
        break;
      }
      ghost var child :| child in children;
      assert forall c :: c in children ==> Links(s, c, active);
      assert forall c :: c in children ==> c == child;
      assert children == {child};
      descendantCount := descendantCount + |children|;
      activeIds := children;
      active := child;
    }
    count := ancestorCount + descendantCount;
  }

  /** `countRetryChainDepth` counts exactly the settlements that follow. */
  method CountRetryChainDepth(s: State, settlementId: Id) returns (depth: nat)
    requires WellLinked(s)
    ensures depth == if settlementId in s.rows then |Forward(s, settlementId)| else 0
  {
    var current := if settlementId in s.rows then Some(settlementId) else None;
    depth := 0;
    var visited: set<Id> := {};
    while current.Some? && s.rows[current.value].supersededBy.Some? && s.rows[current.value].supersededBy.value !in visited
      invariant current.Some? <==> settlementId in s.rows
      invariant current.Some? ==>
                  && current.value in s.rows
                  && depth + |Forward(s, current.value)| == |Forward(s, settlementId)|
                  && (forall v :: v in visited ==> v in s.rows && s.rows[v].born <= s.rows[current.value].born)
      invariant current.None? ==> depth == 0
      decreases if current.Some? then s.births - s.rows[current.value].born else 0
    {
      var next := s.rows[current.value].supersededBy.value;
      assert Links(s, current.value, next);
      visited := visited + {next};
      depth := depth + 1;
      current := if next in s.rows then Some(next) else None;
      if current.None? {
        break;
      }
    }
    if current.Some? && s.rows[current.value].supersededBy.Some? {
      assert Links(s, current.value, s.rows[current.value].supersededBy.value);
    }
  }
}
