/**
 The per-merchant semaphore: three atomic scripts over one sorted set whose
 key expires. One clock is shared by all callers and by Redis; the key is
 taken to be gone from its deadline on.
 */
module RedisSemaphore {
  import opened Options

  /** The opaque member a caller holds its slot by. */
  type Token = string

  /** Window and limit, the same for every caller of a key. */
  datatype Config = Config(windowMs: nat, maxConcurrent: nat)

  /** The sorted set (token to last heartbeat) and the instant its key expires; an empty set is no key at all. */
  datatype Slots = Slots(scores: map<Token, nat>, deadline: nat)

  const NO_KEY := Slots(map[], 0)

  datatype Event =
    | Acquire(now: nat, token: Token)
    | Renew(now: nat, token: Token)
    | Release(now: nat, token: Token)
    | Count(now: nat)

  /** What a command finds at an instant: nothing when the key has expired. */
  function Live(s: Slots, now: nat): Slots {
    if now >= s.deadline then NO_KEY else s
  }

  /** `ZREMRANGEBYSCORE key 0 (now - window)`. */
  function Prune(scores: map<Token, nat>, now: nat, c: Config): map<Token, nat> {
    map t | t in scores && scores[t] > now - c.windowMs :: scores[t]
  }

  /** The new state and whether the script returned 1. */
  function Step(s: Slots, e: Event, c: Config): (Slots, bool) {
    var live := Live(s, e.now);
    match e
    case Acquire(now, token) =>
      var kept := Prune(live.scores, now, c);
      if |kept| >= c.maxConcurrent then (live.(scores := kept), false)
      else (Slots(kept[token := now], now + c.windowMs), true)
    case Renew(now, token) =>
      if token in live.scores then (Slots(live.scores[token := now], now + c.windowMs), true)
      else (live, false)
    case Release(now, token) => (live.(scores := live.scores - {token}), token in live.scores)
    case Count(now) => (live.(scores := Prune(live.scores, now, c)), true)
  }

  function RunFrom(s: Slots, es: seq<Event>, c: Config): Slots {
    if es == [] then s else Step(RunFrom(s, es[..|es| - 1], c), es[|es| - 1], c).0
  }

  /** The clock does not run backwards from `now` on. */
  predicate After(now: nat, es: seq<Event>) {
    && (forall i :: 0 <= i < |es| ==> now <= es[i].now)
    && (forall i, j :: 0 <= i < j < |es| ==> es[i].now <= es[j].now)
  }

  // ---------- the scripts ----------

  /** The Redis key of one merchant. */
  class Key {
    var scores: map<Token, nat>
    var deadline: nat

    constructor ()
      ensures Contents() == NO_KEY
    {
      scores, deadline := map[], 0;
    }

    function Contents(): Slots
      reads this
    {
      Slots(scores, deadline)
    }

    /** Lazy expiry, applied before every script. */
    method ExpireIfDue(now: nat)
      modifies this
      ensures Contents() == Live(old(Contents()), now)
    {
      if now >= deadline {
        scores, deadline := map[], 0;
      }
    }

    method ZRemRangeByScore(now: nat, c: Config)
      modifies this`scores
      ensures scores == Prune(old(scores), now, c)
    {
      var rest := scores.Keys;
      var kept: map<Token, nat> := map[];
      while rest != {}
        invariant rest <= scores.Keys && scores == old(scores)
        invariant kept == map t | t in scores && t !in rest && scores[t] > now - c.windowMs :: scores[t]
        decreases rest
      {
        var t :| t in rest;
        if scores[t] > now - c.windowMs {
          kept := kept[t := scores[t]];
        }
        rest := rest - {t};
      }
      scores := kept;
    }

    method AcquireScript(now: nat, token: Token, c: Config) returns (acquired: bool)
      modifies this
      ensures (Contents(), acquired) == Step(old(Contents()), Acquire(now, token), c)
      ensures acquired <==>
              |set t | t in old(scores) && now < old(deadline) && now < old(scores)[t] + c.windowMs| < c.maxConcurrent
      ensures acquired ==> token in scores && scores[token] == now && deadline == now + c.windowMs
      ensures !acquired ==> scores.Keys <= old(scores).Keys
    {
      ExpireIfDue(now);
      ZRemRangeByScore(now, c);
      assert scores.Keys == set t | t in old(scores) && now < old(deadline) && now < old(scores)[t] + c.windowMs;
      if |scores| >= c.maxConcurrent {
        return false;
      }
      scores := scores[token := now];
      deadline := now + c.windowMs;
      return true;
    }

    method RenewScript(now: nat, token: Token, c: Config) returns (renewed: bool)
      modifies this
      ensures (Contents(), renewed) == Step(old(Contents()), Renew(now, token), c)
      ensures renewed <==> token in old(scores) && now < old(deadline)
      ensures renewed ==> scores == old(scores)[token := now] && deadline == now + c.windowMs
    {
      ExpireIfDue(now);
      if token !in scores {
        return false;
      }
      scores := scores[token := now];
      deadline := now + c.windowMs;
      return true;
    }

    method ReleaseScript(now: nat, token: Token, c: Config) returns (removed: bool)
      modifies this
      ensures (Contents(), removed) == Step(old(Contents()), Release(now, token), c)
      ensures removed <==> token in old(scores) && now < old(deadline)
      ensures scores == if now < old(deadline) then old(scores) - {token} else map[]
    {
      ExpireIfDue(now);
      removed := token in scores;
      scores := scores - {token};
    }

    /** Scripts of other callers, from `now` on. */
    method Others(now: nat, c: Config) returns (ghost es: seq<Event>)
      modifies this
      ensures After(now, es) && Contents() == RunFrom(old(Contents()), es, c)
    {
      es := [];
    }

    /** Two commands, with the scripts `es` of others in between; `later` is the instant of the second. */
    method GetActiveCount(now: nat, later: nat, c: Config) returns (count: nat, ghost es: seq<Event>)
      modifies this
      ensures After(now, es)
      ensures Contents() == Live(RunFrom(Step(old(Contents()), Event.Count(now), c).0, es, c), later) && count == |scores|
      ensures |old(scores)| <= c.maxConcurrent ==> count <= c.maxConcurrent
    {
      if |scores| <= c.maxConcurrent {
        StepBound(Contents(), Event.Count(now), c);
      }
      ExpireIfDue(now);
      ZRemRangeByScore(now, c);
      ghost var pruned := Contents();
      es := Others(now, c);
      if |pruned.scores| <= c.maxConcurrent {
        RunFromBound(pruned, es, c);
      }
      ExpireIfDue(later);
      count := |scores|;
    }
  }

  // ---------- runs ----------

  /** The clock never runs backwards. */
  predicate Monotone(es: seq<Event>) {
    forall i, j :: 0 <= i < j < |es| ==> es[i].now <= es[j].now
  }

  function Run(es: seq<Event>, c: Config): Slots {
    if es == [] then NO_KEY else Step(Run(es[..|es| - 1], c), es[|es| - 1], c).0
  }

  function Clock(es: seq<Event>): nat {
    if es == [] then 0 else es[|es| - 1].now
  }

  /** From the history alone: the last heartbeat of a slot that was granted and not released since. */
  function LastBeat(es: seq<Event>, token: Token, c: Config): Option<nat> {
    if es == [] then None
    else
      var before, e := es[..|es| - 1], es[|es| - 1];
      if e.Count? || e.token != token then LastBeat(before, token, c)
      else if e.Release? then None
      else if Step(Run(before, c), e, c).1 then Some(e.now)
      else LastBeat(before, token, c)
  }

  /** A job that holds a slot and whose last heartbeat is inside the window at `now`. */
  predicate Fresh(es: seq<Event>, token: Token, now: nat, c: Config) {
    var beat := LastBeat(es, token, c);
    beat.Some? && beat.value > now - c.windowMs
  }

  /**
   For one token: what the set records is its true last heartbeat, never beyond
   the clock; the key outlives that heartbeat by the window; and a fresh job is
   still recorded.
   */
  predicate TracksAt(s: Slots, beat: Option<nat>, clock: nat, t: Token, c: Config) {
    && (t in s.scores ==> beat == Some(s.scores[t]))
    && (t in s.scores ==> s.scores[t] <= clock && s.scores[t] + c.windowMs <= s.deadline)
    && (beat.Some? && beat.value > clock - c.windowMs ==> t in s.scores)
  }

  predicate Tracks(es: seq<Event>, t: Token, c: Config) {
    TracksAt(Run(es, c), LastBeat(es, t, c), Clock(es), t, c)
  }

  ghost predicate Inv(es: seq<Event>, c: Config) {
    |Run(es, c).scores| <= c.maxConcurrent && forall t :: Tracks(es, t, c)
  }

  lemma {:induction false} SmallerMap(small: map<Token, nat>, large: map<Token, nat>)
    requires small.Keys <= large.Keys
    ensures |small| <= |large|
  {
    SmallerSet(small.Keys, large.Keys);
    assert |small| == |small.Keys| && |large| == |large.Keys|;
  }

  lemma {:induction false} SmallerSet<T>(small: set<T>, large: set<T>)
    requires small <= large
    ensures |small| <= |large|
  {
    if small != {} {
      var x :| x in small;
      SmallerSet(small - {x}, large - {x});
    }
  }

  /** Neither the expiry of the whole key nor pruning drops a job that is fresh at that instant. */
  lemma {:induction false} FreshSurvives(es: seq<Event>, now: nat, token: Token, c: Config)
    requires Tracks(es, token, c) && Clock(es) <= now && Fresh(es, token, now, c)
    ensures token in Live(Run(es, c), now).scores
    ensures token in Prune(Live(Run(es, c), now).scores, now, c)
  {
    assert Fresh(es, token, Clock(es), c);
  }

  lemma {:induction false} StepBound(s: Slots, e: Event, c: Config)
    requires |s.scores| <= c.maxConcurrent
    ensures |Step(s, e, c).0.scores| <= c.maxConcurrent
  {
    var live := Live(s, e.now);
    var kept := Prune(live.scores, e.now, c);
    SmallerMap(kept, live.scores);
    match e
    case Acquire(now, token) => assert kept[token := now].Keys == kept.Keys + {token};
    case Renew(now, token) => assert token in live.scores ==> live.scores[token := now].Keys == live.scores.Keys;
    case Release(now, token) => SmallerMap(live.scores - {token}, live.scores);
    case Count(now) =>
  }

  /** The last heartbeat after one more script. */
  function NextBeat(beat: Option<nat>, e: Event, granted: bool, t: Token): Option<nat> {
    if e.Count? || e.token != t then beat
    else if e.Release? then None
    else if granted then Some(e.now)
    else beat
  }

  /** No script takes the set over the limit. */
  lemma {:induction false} RunFromBound(s: Slots, es: seq<Event>, c: Config)
    requires |s.scores| <= c.maxConcurrent
    ensures |RunFrom(s, es, c).scores| <= c.maxConcurrent
  {
    if es != [] {
      RunFromBound(s, es[..|es| - 1], c);
      StepBound(RunFrom(s, es[..|es| - 1], c), es[|es| - 1], c);
    }
  }

  /** What the expiry of the key and pruning leave: the token as it was, unless its heartbeat is outside the window. */
  lemma {:induction false} LivePruned(s: Slots, beat: Option<nat>, clock: nat, now: nat, t: Token, c: Config)
    requires TracksAt(s, beat, clock, t, c) && clock <= now
    ensures var live := Live(s, now);
            && TracksAt(live, beat, now, t, c)
            && TracksAt(Slots(Prune(live.scores, now, c), live.deadline), beat, now, t, c)
  {
  }

  lemma {:induction false} StepTracksAt(s: Slots, beat: Option<nat>, clock: nat, e: Event, t: Token, c: Config)
    requires TracksAt(s, beat, clock, t, c) && clock <= e.now
    ensures TracksAt(Step(s, e, c).0, NextBeat(beat, e, Step(s, e, c).1, t), e.now, t, c)
  {
    LivePruned(s, beat, clock, e.now, t, c);
    match e
    case Acquire(_, _) =>
    case Renew(_, _) =>
    case Release(_, _) =>
    case Count(_) =>
  }

  lemma {:induction false} StepTracks(es: seq<Event>, e: Event, t: Token, c: Config)
    requires Tracks(es, t, c) && Clock(es) <= e.now
    ensures Tracks(es + [e], t, c)
  {
    assert (es + [e])[..|es|] == es;
    StepTracksAt(Run(es, c), LastBeat(es, t, c), Clock(es), e, t, c);
  }

  lemma {:induction false} StepKeeps(es: seq<Event>, e: Event, c: Config)
    requires Inv(es, c) && Clock(es) <= e.now
    ensures Inv(es + [e], c)
  {
    assert (es + [e])[..|es|] == es;
    StepBound(Run(es, c), e, c);
    forall t ensures Tracks(es + [e], t, c) {
      StepTracks(es, e, t, c);
    }
  }

  lemma {:induction false} RunKeeps(es: seq<Event>, c: Config)
    requires Monotone(es)
    ensures Inv(es, c)
  {
    if es != [] {
      var before := es[..|es| - 1];
      RunKeeps(before, c);
      assert es == before + [es[|es| - 1]];
      StepKeeps(before, es[|es| - 1], c);
    }
  }

  /**
   Over every run: the set holds at most `maxConcurrent` slots, and at every
   later instant the jobs whose last heartbeat is inside the window are all
   still in it, so they never outnumber `maxConcurrent` either.
   */
  lemma {:induction false} NeverTooManyJobs(es: seq<Event>, now: nat, jobs: set<Token>, c: Config)
    requires Monotone(es) && Clock(es) <= now
    requires forall t :: t in jobs ==> Fresh(es, t, now, c)
    ensures |Run(es, c).scores| <= c.maxConcurrent
    ensures |jobs| <= c.maxConcurrent
  {
    RunKeeps(es, c);
    forall t | t in jobs ensures t in Run(es, c).scores {
      FreshSurvives(es, now, t, c);
    }
    SmallerSet(jobs, Run(es, c).scores.Keys);
  }

  // ---------- what every call answers, from the history ----------

  function Tokens(es: seq<Event>): set<Token> {
    set i | 0 <= i < |es| && !es[i].Count? :: es[i].token
  }

  /** The tokens whose last heartbeat is inside the window at `now`. */
  function FreshTokens(es: seq<Event>, now: nat, c: Config): set<Token> {
    set t | t in Tokens(es) && LastBeat(es, t, c).Some? && now < LastBeat(es, t, c).value + c.windowMs
  }

  lemma {:induction false} BeatOfToken(es: seq<Event>, t: Token, c: Config)
    ensures LastBeat(es, t, c).Some? ==> t in Tokens(es)
  {
    if es != [] {
      var before, e := es[..|es| - 1], es[|es| - 1];
      BeatOfToken(before, t, c);
      forall x | x in Tokens(before) ensures x in Tokens(es) {
        var i :| 0 <= i < |before| && !before[i].Count? && before[i].token == x;
        assert es[i] == before[i];
      }
      assert !e.Count? ==> e.token in Tokens(es);
    }
  }

  /** What a prune leaves are exactly the fresh tokens, each with its last heartbeat. */
  lemma {:induction false} PrunedIsFresh(es: seq<Event>, now: nat, c: Config)
    requires Monotone(es) && Clock(es) <= now
    ensures var kept := Prune(Live(Run(es, c), now).scores, now, c);
            kept.Keys == FreshTokens(es, now, c) && forall t :: t in kept ==> Some(kept[t]) == LastBeat(es, t, c)
  {
    RunKeeps(es, c);
    var kept := Prune(Live(Run(es, c), now).scores, now, c);
    forall t ensures t in kept <==> t in FreshTokens(es, now, c) {
      assert Tracks(es, t, c);
      BeatOfToken(es, t, c);
      if t in FreshTokens(es, now, c) {
        FreshSurvives(es, now, t, c);
      }
    }
    forall t | t in kept ensures Some(kept[t]) == LastBeat(es, t, c) {
      assert Tracks(es, t, c);
    }
  }

  /**
   In every run an acquire is granted exactly when fewer than `maxConcurrent`
   tokens are fresh at that instant. Granted, it leaves the fresh tokens and its
   own with this instant as heartbeat; refused, the fresh tokens and no other.
   */
  lemma {:induction false} AcquireExactly(es: seq<Event>, now: nat, token: Token, c: Config)
    requires Monotone(es) && Clock(es) <= now
    ensures var answer := Step(Run(es, c), Acquire(now, token), c);
            && (answer.1 <==> |FreshTokens(es, now, c)| < c.maxConcurrent)
            && (answer.1 ==> answer.0.scores.Keys == FreshTokens(es, now, c) + {token} && answer.0.scores[token] == now)
            && (answer.1 ==> answer.0.deadline == now + c.windowMs)
            && (!answer.1 ==> answer.0.scores.Keys == FreshTokens(es, now, c))
            && forall t :: t in answer.0.scores && (t != token || !answer.1) ==> Some(answer.0.scores[t]) == LastBeat(es, t, c)
  {
    PrunedIsFresh(es, now, c);
    var kept := Prune(Live(Run(es, c), now).scores, now, c);
    assert |kept| == |kept.Keys|;
  }

  /** Counting sees exactly the fresh tokens. */
  lemma {:induction false} CountExactly(es: seq<Event>, now: nat, c: Config)
    requires Monotone(es) && Clock(es) <= now
    ensures Step(Run(es, c), Event.Count(now), c).0.scores.Keys == FreshTokens(es, now, c)
  {
    PrunedIsFresh(es, now, c);
  }

  /** A script and its answer. */
  datatype Call = Call(e: Event, answer: bool)

  function Log(es: seq<Event>, c: Config): (log: seq<Call>)
    ensures |log| == |es| && forall i :: 0 <= i < |es| ==> log[i].e == es[i]
  {
    if es == [] then []
    else
      var before, e := es[..|es| - 1], es[|es| - 1];
      Log(before, c) + [Call(e, Step(Run(before, c), e, c).1)]
  }

  predicate Ordered(log: seq<Call>) {
    forall i, j :: 0 <= i < j < |log| ==> log[i].e.now <= log[j].e.now
  }

  predicate Grants(x: Call) {
    (x.e.Acquire? || x.e.Renew?) && x.answer
  }

  predicate Names(e: Event, t: Token) {
    !e.Count? && e.token == t
  }

  /** Some grant from the i-th call up to the j-th keeps the key alive at an instant. */
  ghost predicate KeyAlive(log: seq<Call>, i: nat, j: nat, at: nat, c: Config)
    requires j <= |log|
  {
    exists k: nat :: i <= k < j && Grants(log[k]) && at < log[k].e.now + c.windowMs
  }

  /**
   The i-th call gave `t` its heartbeat and it is still recorded after the log:
   no grant or release of `t` since, no pruning call at an instant at which it
   was stale, and no call at an instant at which the key had expired.
   */
  ghost predicate HeldSince(log: seq<Call>, i: nat, t: Token, c: Config) {
    && i < |log| && Grants(log[i]) && log[i].e.token == t
    && forall j :: i < j < |log| ==> Spares(log, i, j, t, c)
  }

  ghost predicate Spares(log: seq<Call>, i: nat, j: nat, t: Token, c: Config)
    requires i < j < |log|
  {
    && (Names(log[j].e, t) ==> !log[j].e.Release? && !Grants(log[j]))
    && (log[j].e.Acquire? || log[j].e.Count? ==> log[j].e.now < log[i].e.now + c.windowMs)
    && KeyAlive(log, i, j, log[j].e.now, c)
  }

  lemma {:induction false} AliveBefore(log: seq<Call>, x: Call, i: nat, j: nat, at: nat, c: Config)
    requires j <= |log|
    ensures KeyAlive(log + [x], i, j, at, c) <==> KeyAlive(log, i, j, at, c)
  {
    if k: nat :| i <= k < j && Grants(log[k]) && at < log[k].e.now + c.windowMs {
      assert Grants((log + [x])[k]);
    }
    if k: nat :| i <= k < j && Grants((log + [x])[k]) && at < (log + [x])[k].e.now + c.windowMs {
      assert Grants(log[k]);
    }
  }

  lemma {:induction false} SparesBefore(log: seq<Call>, x: Call, i: nat, j: nat, t: Token, c: Config)
    requires i < j < |log|
    ensures Spares(log + [x], i, j, t, c) <==> Spares(log, i, j, t, c)
  {
    AliveBefore(log, x, i, j, log[j].e.now, c);
  }

  lemma {:induction false} HeldBefore(log: seq<Call>, x: Call, i: nat, t: Token, c: Config)
    requires i < |log|
    ensures HeldSince(log + [x], i, t, c) <==> HeldSince(log, i, t, c) && Spares(log + [x], i, |log|, t, c)
  {
    var all := log + [x];
    forall j | i < j < |log| ensures Spares(all, i, j, t, c) <==> Spares(log, i, j, t, c) {
      SparesBefore(log, x, i, j, t, c);
    }
    if HeldSince(log, i, t, c) && Spares(all, i, |log|, t, c) {
      forall j | i < j < |all| ensures Spares(all, i, j, t, c) {
        assert j < |log| || j == |log|;
      }
    }
    if HeldSince(all, i, t, c) {
      forall j | i < j < |log| ensures Spares(log, i, j, t, c) {
        assert Spares(all, i, j, t, c);
      }
    }
  }

  /** While anything is recorded, the key expires one window after the last grant. */
  ghost predicate LastGrant(log: seq<Call>, k: nat) {
    k < |log| && Grants(log[k]) && forall j :: k < j < |log| ==> !Grants(log[j])
  }

  ghost predicate DeadlineTold(s: Slots, log: seq<Call>, c: Config) {
    s.scores.Keys != {} ==> exists k: nat :: LastGrant(log, k) && s.deadline == log[k].e.now + c.windowMs
  }

  lemma {:induction false} DeadlineStep(s: Slots, log: seq<Call>, e: Event, c: Config)
    requires DeadlineTold(s, log, c)
    ensures DeadlineTold(Step(s, e, c).0, log + [Call(e, Step(s, e, c).1)], c)
  {
    var (after, answer) := Step(s, e, c);
    var all := log + [Call(e, answer)];
    if Grants(Call(e, answer)) {
      assert LastGrant(all, |log|);
    } else if after.scores.Keys != {} {
      assert s.scores.Keys != {} && after.deadline == s.deadline;
      var k: nat :| LastGrant(log, k) && s.deadline == log[k].e.now + c.windowMs;
      assert LastGrant(all, k) && all[k] == log[k];
    }
  }

  lemma {:induction false} RunDeadline(es: seq<Event>, c: Config)
    ensures DeadlineTold(Run(es, c), Log(es, c), c)
  {
    if es != [] {
      RunDeadline(es[..|es| - 1], c);
      DeadlineStep(Run(es[..|es| - 1], c), Log(es[..|es| - 1], c), es[|es| - 1], c);
    }
  }

  /** The key is alive at an instant exactly when some grant since any given grant reaches beyond it. */
  lemma {:induction false} AliveExactly(s: Slots, log: seq<Call>, i: nat, at: nat, c: Config)
    requires Ordered(log) && i < |log| && Grants(log[i]) && s.scores.Keys != {} && DeadlineTold(s, log, c)
    ensures KeyAlive(log, i, |log|, at, c) <==> at < s.deadline
  {
    var k: nat :| LastGrant(log, k) && s.deadline == log[k].e.now + c.windowMs;
    assert i <= k;
    if g: nat :| i <= g < |log| && Grants(log[g]) && at < log[g].e.now + c.windowMs {
      assert g <= k;
    }
  }

  /** One more script, for a slot recorded before it. */
  lemma {:induction false} HeldStep(s: Slots, log: seq<Call>, e: Event, i: nat, t: Token, c: Config)
    requires Ordered(log) && HeldSince(log, i, t, c) && DeadlineTold(s, log, c)
    requires t in s.scores && s.scores[t] == log[i].e.now
    ensures var (after, answer) := Step(s, e, c);
            var all := log + [Call(e, answer)];
            (HeldSince(all, i, t, c) ==> t in after.scores && after.scores[t] == log[i].e.now) &&
            (t in after.scores && !(Names(e, t) && Grants(Call(e, answer))) ==>
              HeldSince(all, i, t, c) && after.scores[t] == log[i].e.now)
  {
    var answer := Step(s, e, c).1;
    var all := log + [Call(e, answer)];
    assert t in s.scores.Keys;
    HeldBefore(log, Call(e, answer), i, t, c);
    AliveExactly(s, log, i, e.now, c);
    AliveBefore(log, Call(e, answer), i, |log|, e.now, c);
    assert all[|log|] == Call(e, answer) && all[i] == log[i];
  }

  lemma {:induction false} LogOrdered(es: seq<Event>, c: Config)
    requires Monotone(es)
    ensures Ordered(Log(es, c))
  {
  }

  lemma {:induction false} HeldIsRecorded(es: seq<Event>, i: nat, t: Token, c: Config)
    requires Monotone(es) && HeldSince(Log(es, c), i, t, c)
    ensures t in Run(es, c).scores && Run(es, c).scores[t] == es[i].now
  {
    var before, e := es[..|es| - 1], es[|es| - 1];
    if i < |before| {
      var s, log := Run(before, c), Log(before, c);
      HeldBefore(log, Call(e, Step(s, e, c).1), i, t, c);
      HeldIsRecorded(before, i, t, c);
      LogOrdered(before, c);
      RunDeadline(before, c);
      HeldStep(s, log, e, i, t, c);
    }
  }

  lemma {:induction false} RecordedIsHeld(es: seq<Event>, t: Token, c: Config) returns (i: nat)
    requires Monotone(es) && t in Run(es, c).scores
    ensures HeldSince(Log(es, c), i, t, c) && Run(es, c).scores[t] == es[i].now
  {
    var before, e := es[..|es| - 1], es[|es| - 1];
    var s, log := Run(before, c), Log(before, c);
    if Names(e, t) && Grants(Call(e, Step(s, e, c).1)) {
      i := |before|;
    } else {
      i := RecordedIsHeld(before, t, c);
      LogOrdered(before, c);
      RunDeadline(before, c);
      HeldStep(s, log, e, i, t, c);
    }
  }

  /** After a log, at an instant: some call gave `t` a heartbeat that is still recorded, and the key is alive. */
  ghost predicate Holds(log: seq<Call>, t: Token, now: nat, c: Config) {
    exists i: nat :: HeldSince(log, i, t, c) && KeyAlive(log, i, |log|, now, c)
  }

  lemma {:induction false} HoldsExactly(es: seq<Event>, now: nat, t: Token, c: Config)
    requires Monotone(es) && Clock(es) <= now
    ensures t in Live(Run(es, c), now).scores <==> Holds(Log(es, c), t, now, c)
  {
    var s, log := Run(es, c), Log(es, c);
    LogOrdered(es, c);
    RunDeadline(es, c);
    if t in Live(s, now).scores {
      var i := RecordedIsHeld(es, t, c);
      assert t in s.scores.Keys;
      AliveExactly(s, log, i, now, c);
    }
    if Holds(log, t, now, c) {
      var i: nat :| HeldSince(log, i, t, c) && KeyAlive(log, i, |log|, now, c);
      HeldIsRecorded(es, i, t, c);
      assert t in s.scores.Keys;
      AliveExactly(s, log, i, now, c);
    }
  }

  /**
   In every run a renewal, like a release, is answered true exactly while the
   slot is still recorded and the key alive. A stale slot that nobody has
   pruned yet can still be renewed.
   */
  lemma {:induction false} RenewAndReleaseExactly(es: seq<Event>, now: nat, t: Token, c: Config)
    requires Monotone(es) && Clock(es) <= now
    ensures Step(Run(es, c), Renew(now, t), c).1 <==> Holds(Log(es, c), t, now, c)
    ensures Step(Run(es, c), Release(now, t), c).1 <==> Holds(Log(es, c), t, now, c)
  {
    HoldsExactly(es, now, t, c);
  }

  /** A renewal sent while the last heartbeat is inside the window always succeeds, whatever others did. */
  lemma {:induction false} RenewalInTimeSucceeds(es: seq<Event>, now: nat, token: Token, c: Config)
    requires Monotone(es) && Clock(es) <= now && Fresh(es, token, now, c)
    ensures Step(Run(es, c), Renew(now, token), c).1
    ensures LastBeat(es + [Renew(now, token)], token, c) == Some(now)
  {
    RunKeeps(es, c);
    FreshSurvives(es, now, token, c);
    assert (es + [Renew(now, token)])[..|es|] == es;
  }

  /** A script of one caller never touches a slot of another that is fresh: it keeps its place and its heartbeat. */
  lemma {:induction false} OthersUntouched(es: seq<Event>, e: Event, token: Token, c: Config)
    requires Monotone(es + [e]) && (e.Count? || e.token != token)
    requires Fresh(es, token, e.now, c)
    ensures var after := Run(es + [e], c);
            token in after.scores && Some(after.scores[token]) == LastBeat(es, token, c) == LastBeat(es + [e], token, c)
  {
    var all := es + [e];
    assert all[..|es|] == es;
    assert forall i :: 0 <= i < |es| ==> es[i] == all[i];
    assert es != [] ==> all[|es| - 1].now <= all[|es|].now;
    RunKeeps(es, c);
    RunKeeps(all, c);
    assert Tracks(es, token, c) && Tracks(all, token, c);
    assert LastBeat(all, token, c) == LastBeat(es, token, c);
  }

  /** Releasing twice is releasing once: the second call removes nothing and changes nothing. */
  lemma {:induction false} DoubleReleaseIsNoOp(s: Slots, first: nat, second: nat, token: Token, c: Config)
    requires first <= second
    ensures var once := Step(s, Release(first, token), c).0;
            var again := Step(once, Release(second, token), c);
            !again.1 && again.0 == Live(once, second)
  {
    var once := Step(s, Release(first, token), c).0;
    var live := Live(once, second);
    assert live.scores - {token} == live.scores;
  }

  // ---------- the heartbeat ----------

  /** `Math.max(1000, Math.floor(ttlSeconds * 1000 / 3))`. */
  function IntervalMs(ttlSeconds: nat): nat {
    var third := ttlSeconds * 1000 / 3;
    if third < 1000 then 1000 else third
  }

  /** Whether a slot is still inside the window when the next renewal comes after `missed` missed ones. */
  predicate Tolerates(ttlSeconds: nat, missed: nat) {
    (missed + 1) * IntervalMs(ttlSeconds) < ttlSeconds * 1000
  }

  /**
   The documentation lets two renewals be missed. One always may from a TTL of
   three seconds on, three never; two may exactly when the TTL is not a
   multiple of three. With the default of 60 seconds the third renewal comes in
   the very millisecond the slot becomes stale.
   */
  lemma {:induction false} MissedRenewals(ttlSeconds: nat)
    requires ttlSeconds >= 3
    ensures Tolerates(ttlSeconds, 1)
    ensures Tolerates(ttlSeconds, 2) <==> ttlSeconds % 3 != 0
    ensures !Tolerates(ttlSeconds, 3)
    ensures 3 * IntervalMs(60) == 60 * 1000
  {
    assert ttlSeconds * 1000 % 3 == ttlSeconds % 3;
  }

  /** Below three seconds even fewer: none at two seconds, and at one second the renewal itself is too late. */
  lemma {:induction false} MissedRenewalsShort()
    ensures Tolerates(2, 0) && !Tolerates(2, 1) && !Tolerates(1, 0)
  {
  }
}
