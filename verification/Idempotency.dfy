/**
 `withIdempotency`: lookup, Redis claim, unique-guarded create. All calls here
 carry one live key; each store call is one step, and any number of calls
 interleave while Redis loses claims and any store call may throw.
 */
module Idempotency {
  import opened Options

  /** The row a caller's `create` would insert is named by the caller's index. */
  type Row = nat

  /** Which callbacks a caller passes; `value` is `claimValue ?? payloadHash ?? key`. */
  datatype Settings = Settings(hasLookup: bool, hasRedis: bool, hasResolve: bool, value: string, hash: Option<string>)

  datatype Source = Created | LookupHit | RedisRace | P2002Winner

  /** Where a call stands: before which store call, or finished. A conflict is the helper's own error. */
  datatype Pc =
    | LookingUp
    | Claiming
    | ReadingClaim
    | Resolving(stored: string)
    | LookingUpWinner
    | Creating
    | Rescuing
    | Returned(row: Row, source: Source)
    | Threw(conflict: bool)

  /** How a store call turns out. A resolver may miss; a failing write may or may not have taken effect. */
  datatype Reply = Answers | Misses | Fails | FailsAfterEffect

  datatype Caller = Caller(settings: Settings, pc: Pc)

  /** The unique row, the Redis claim, every call, and the calls that ran `create`, in order. */
  datatype State = State(db: Option<Row>, claim: Option<string>, callers: seq<Caller>, creates: seq<nat>)

  datatype Event = Step(caller: nat, reply: Reply) | ClaimLost

  predicate IsError(r: Reply) {
    r.Fails? || r.FailsAfterEffect?
  }

  predicate IsDone(pc: Pc) {
    pc.Returned? || pc.Threw?
  }

  // ---------- one caller's control flow ----------

  function Begin(o: Settings): Pc {
    if o.hasLookup then LookingUp else AfterLookup(o)
  }

  function AfterLookup(o: Settings): Pc {
    if o.hasRedis then Claiming else Creating
  }

  /** The claim is lost and nothing has resolved the winner yet. */
  function AfterLoss(o: Settings): Pc {
    if o.hasLookup then LookingUpWinner else Threw(true)
  }

  function AfterRead(o: Settings, stored: Option<string>): Pc {
    if stored.None? then AfterLoss(o)
    else if o.hash.Some? && o.hash.value != stored.value then Threw(true)
    else if o.hasResolve then Resolving(stored.value)
    else AfterLoss(o)
  }

  /** The same calls with the same settings. */
  predicate SameCalls(s: State, t: State) {
    |t.callers| == |s.callers| &&
    forall k :: 0 <= k < |s.callers| ==> t.callers[k].settings == s.callers[k].settings
  }

  function Goto(s: State, i: nat, pc: Pc): (t: State)
    requires i < |s.callers|
    ensures SameCalls(s, t)
  {
    s.(callers := s.callers[i := s.callers[i].(pc := pc)])
  }

  /** One store call of one caller; a finished caller does nothing. */
  function StepCaller(s: State, i: nat, r: Reply): (t: State)
    requires i < |s.callers|
    ensures SameCalls(s, t)
  {
    var o := s.callers[i].settings;
    match s.callers[i].pc
    case LookingUp =>
      if IsError(r) then Goto(s, i, Threw(false))
      else if s.db.Some? then Goto(s, i, Returned(s.db.value, LookupHit))
      else Goto(s, i, AfterLookup(o))
    case Claiming =>
      if r.Fails? then Goto(s, i, Creating)
      else if s.claim.None? then Goto(s.(claim := Some(o.value)), i, Creating)
      else if r.FailsAfterEffect? then Goto(s, i, Creating)
      else Goto(s, i, ReadingClaim)
    case ReadingClaim => Goto(s, i, AfterRead(o, if IsError(r) then None else s.claim))
    case Resolving(_) =>
      if IsError(r) then Goto(s, i, Creating)
      else if r.Answers? && s.db.Some? then Goto(s, i, Returned(s.db.value, RedisRace))
      else Goto(s, i, AfterLoss(o))
    case LookingUpWinner =>
      if IsError(r) then Goto(s, i, Creating)
      else if s.db.Some? then Goto(s, i, Returned(s.db.value, RedisRace))
      else Goto(s, i, Threw(true))
    case Creating =>
      var s := s.(creates := s.creates + [i]);
      if r.Fails? then Goto(s, i, Threw(false))
      else if s.db.None? then
        Goto(s.(db := Some(i)), i, if r.FailsAfterEffect? then Threw(false) else Returned(i, Created))
      else if r.FailsAfterEffect? then Goto(s, i, Threw(false))
      else Goto(s, i, if o.hasLookup then Rescuing else Threw(false))
    case Rescuing =>
      if IsError(r) then Goto(s, i, Threw(false))
      else if s.db.Some? then Goto(s, i, Returned(s.db.value, P2002Winner))
      else Goto(s, i, Threw(false))
    case _ => s
  }

  function Next(s: State, e: Event): (t: State)
    ensures SameCalls(s, t)
  {
    match e
    case Step(i, r) => if i < |s.callers| then StepCaller(s, i, r) else s
    case ClaimLost => s.(claim := None)
  }

  function Run(s: State, es: seq<Event>): (t: State)
    ensures SameCalls(s, t)
  {
    if es == [] then s else Next(Run(s, es[..|es| - 1]), es[|es| - 1])
  }

  /** Any number of calls about to begin; the row may exist already, inserted by none of them. */
  predicate Initial(s: State) {
    && s.creates == []
    && (s.db.Some? ==> s.db.value >= |s.callers|)
    && forall i :: 0 <= i < |s.callers| ==> s.callers[i].pc == Begin(s.callers[i].settings)
  }

  // ---------- agreement ----------

  /**
   Every call that returned gave the row that is in the database. A call that
   reports `created` inserted it; one that reports anything else did not.
   */
  predicate Agrees(s: State, i: nat)
    requires i < |s.callers|
  {
    match s.callers[i].pc
    case Returned(row, source) => s.db == Some(row) && (source.Created? <==> row == i)
    case Threw(_) => true
    case Rescuing => s.db.Some? && s.db.value != i
    case _ => s.db != Some(i)
  }

  lemma {:induction false} StepAgrees(s: State, e: Event, i: nat)
    requires i < |s.callers| && Agrees(s, i)
    ensures Agrees(Next(s, e), i)
    ensures s.db.Some? ==> Next(s, e).db == s.db
  {
  }

  /**
   Agreement, whatever fails and whoever interleaves: every call that returns
   gives the one row in the database, and only the call that inserted it
   reports `created`.
   */
  lemma {:induction false} Agreement(s: State, es: seq<Event>, i: nat)
    requires Initial(s) && i < |s.callers|
    ensures Agrees(Run(s, es), i)
  {
    if es != [] {
      Agreement(s, es[..|es| - 1], i);
      StepAgrees(Run(s, es[..|es| - 1]), es[|es| - 1], i);
    }
  }

  /** Hence any two calls that return give the same row, and at most one of them reports `created`. */
  lemma {:induction false} SameRowForAll(s: State, es: seq<Event>, i: nat, j: nat)
    requires Initial(s) && i < j < |s.callers|
    ensures var t := Run(s, es);
            t.callers[i].pc.Returned? && t.callers[j].pc.Returned? ==>
              && t.callers[i].pc.row == t.callers[j].pc.row
              && !(t.callers[i].pc.source.Created? && t.callers[j].pc.source.Created?)
  {
    Agreement(s, es, i);
    Agreement(s, es, j);
  }

  // ---------- exclusive create ----------

  /** No store call throws and the claim stays: resolvers may still miss. */
  predicate Calm(es: seq<Event>) {
    forall k :: 0 <= k < |es| ==> es[k].Step? && !IsError(es[k].reply)
  }

  /** Callers that have won the claim but not yet run `create`. */
  function Winners(cs: seq<Caller>): nat {
    if cs == [] then 0 else Winners(cs[..|cs| - 1]) + if cs[|cs| - 1].pc.Creating? then 1 else 0
  }

  lemma {:induction false} WinnersUpdate(cs: seq<Caller>, i: nat, c: Caller)
    requires i < |cs|
    ensures Winners(cs[i := c]) - Winners(cs) == (if c.pc.Creating? then 1 else 0) - (if cs[i].pc.Creating? then 1 else 0)
  {
    var n := |cs| - 1;
    if i == n {
      assert cs[i := c][..n] == cs[..n];
    } else {
      WinnersUpdate(cs[..n], i, c);
      assert cs[i := c][..n] == cs[..n][i := c];
    }
  }

  predicate HasRedis(s: State) {
    forall i :: 0 <= i < |s.callers| ==> s.callers[i].settings.hasRedis
  }

  lemma {:induction false} CalmStep(s: State, i: nat, r: Reply)
    requires i < |s.callers| && HasRedis(s) && !IsError(r)
    ensures var t := StepCaller(s, i, r);
            && HasRedis(t) && (s.claim.Some? ==> t.claim.Some?)
            && |t.creates| + Winners(t.callers)
               <= |s.creates| + Winners(s.callers) + if s.claim.None? && t.claim.Some? then 1 else 0
  {
    var t := StepCaller(s, i, r);
    WinnersUpdate(s.callers, i, t.callers[i]);
    assert t.callers == s.callers[i := t.callers[i]];
  }

  lemma {:induction false} NoWinners(cs: seq<Caller>)
    requires forall i :: 0 <= i < |cs| ==> !cs[i].pc.Creating?
    ensures Winners(cs) == 0
  {
    if cs != [] {
      NoWinners(cs[..|cs| - 1]);
    }
  }

  /**
   While Redis and the database answer and the claim does not expire, at most
   one call ever runs `create`, and none does when the key was claimed before.
   */
  lemma {:induction false} CreateRunsOnce(s: State, es: seq<Event>)
    requires Initial(s) && HasRedis(s) && Calm(es)
    ensures |Run(s, es).creates| <= if s.claim.None? then 1 else 0
    ensures HasRedis(Run(s, es))
    ensures |Run(s, es).creates| + Winners(Run(s, es).callers) <= if s.claim.None? && Run(s, es).claim.Some? then 1 else 0
    ensures s.claim.Some? ==> Run(s, es).claim.Some?
  {
    if es == [] {
      NoWinners(s.callers);
    } else {
      var before, e := Run(s, es[..|es| - 1]), es[|es| - 1];
      CreateRunsOnce(s, es[..|es| - 1]);
      if e.caller < |before.callers| {
        CalmStep(before, e.caller, e.reply);
      }
    }
  }

  lemma {:induction false} RunAppend(s: State, es: seq<Event>, e: Event, all: seq<Event>)
    requires all == es + [e]
    ensures Run(s, all) == Next(Run(s, es), e)
  {
    assert all[..|all| - 1] == es;
  }

  /** Two calls about to begin, with nothing stored. */
  function TwoCalls(o: Settings): State {
    State(None, None, [Caller(o, Begin(o)), Caller(o, Begin(o))], [])
  }

  const BOTH_AT_CREATE := [Step(0, Answers), Step(1, Answers), Step(0, Answers), ClaimLost, Step(1, Answers)]

  /** The second call claims the key after the first call's claim expires. */
  lemma {:induction false} ReachBothAtCreate(o: Settings)
    requires o.hasLookup && o.hasRedis
    ensures Run(TwoCalls(o), BOTH_AT_CREATE) == State(None, Some(o.value), [Caller(o, Creating), Caller(o, Creating)], [])
  {
    var s := TwoCalls(o);
    RunAppend(s, [], Step(0, Answers), [Step(0, Answers)]);
    RunAppend(s, [Step(0, Answers)], Step(1, Answers), [Step(0, Answers), Step(1, Answers)]);
    RunAppend(s, [Step(0, Answers), Step(1, Answers)], Step(0, Answers), [Step(0, Answers), Step(1, Answers), Step(0, Answers)]);
    RunAppend(s, [Step(0, Answers), Step(1, Answers), Step(0, Answers)], ClaimLost,
              [Step(0, Answers), Step(1, Answers), Step(0, Answers), ClaimLost]);
    assert Run(s, [Step(0, Answers), Step(1, Answers), Step(0, Answers), ClaimLost])
        == State(None, None, [Caller(o, Creating), Caller(o, Claiming)], []);
    RunAppend(s, [Step(0, Answers), Step(1, Answers), Step(0, Answers), ClaimLost], Step(1, Answers), BOTH_AT_CREATE);
  }

  /**
   One expired claim is enough for two calls to run `create`; the unique row
   still decides, and the second call returns the first one's row.
   */
  lemma {:induction false} ExpiredClaimRunsCreateTwice(o: Settings)
    requires o.hasLookup && o.hasRedis
    ensures Initial(TwoCalls(o)) && HasRedis(TwoCalls(o)) && TwoCalls(o).claim.None?
    ensures var t := Run(TwoCalls(o), BOTH_AT_CREATE + [Step(0, Answers)] + [Step(1, Answers)] + [Step(1, Answers)]);
            && t.creates == [0, 1]
            && t.callers[0].pc == Returned(0, Created)
            && t.callers[1].pc == Returned(0, P2002Winner)
  {
    var s := TwoCalls(o);
    ReachBothAtCreate(o);
    var es := BOTH_AT_CREATE + [Step(0, Answers)];
    RunAppend(s, BOTH_AT_CREATE, Step(0, Answers), es);
    RunAppend(s, es, Step(1, Answers), es + [Step(1, Answers)]);
    RunAppend(s, es + [Step(1, Answers)], Step(1, Answers), es + [Step(1, Answers)] + [Step(1, Answers)]);
  }

  // ---------- a cache outage never blocks writes ----------

  /** Redis is down and the database answers: exactly the claims fail. */
  predicate DownAt(s: State, e: Event) {
    e.Step? && e.caller < |s.callers| ==> (s.callers[e.caller].pc.Claiming? <==> IsError(e.reply))
  }

  predicate RedisDown(s: State, es: seq<Event>) {
    es == [] || (RedisDown(s, es[..|es| - 1]) && DownAt(Run(s, es[..|es| - 1]), es[|es| - 1]))
  }

  predicate OnItsWay(pc: Pc) {
    pc.LookingUp? || pc.Claiming? || pc.Creating? || pc.Rescuing? || pc.Returned?
  }

  lemma {:induction false} OutageStep(s: State, e: Event, i: nat)
    requires i < |s.callers| && s.callers[i].settings.hasLookup
    requires DownAt(s, e) && Agrees(s, i) && OnItsWay(s.callers[i].pc)
    ensures OnItsWay(Next(s, e).callers[i].pc)
  {
  }

  /** With Redis down throughout, no call that can look up the winner ever throws: it can only end by returning the row. */
  lemma {:induction false} OutageNeverBlocks(s: State, es: seq<Event>, i: nat)
    requires Initial(s) && i < |s.callers| && s.callers[i].settings.hasLookup && RedisDown(s, es)
    ensures OnItsWay(Run(s, es).callers[i].pc)
  {
    if es != [] {
      var before := es[..|es| - 1];
      OutageNeverBlocks(s, before, i);
      Agreement(s, before, i);
      OutageStep(Run(s, before), es[|es| - 1], i);
    }
  }

  // ---------- progress ----------

  /** How many store calls a caller can still make. */
  function Remaining(pc: Pc): nat {
    match pc
    case LookingUp => 7
    case Claiming => 6
    case ReadingClaim => 5
    case Resolving(_) => 4
    case LookingUpWinner => 3
    case Creating => 2
    case Rescuing => 1
    case _ => 0
  }

  /** Each step of a call brings it nearer to its end and nobody else's step moves it, so it makes at most seven store calls. */
  lemma {:induction false} EveryStepProgresses(s: State, e: Event, i: nat)
    requires i < |s.callers|
    ensures e.Step? && e.caller == i && !IsDone(s.callers[i].pc) ==>
              Remaining(Next(s, e).callers[i].pc) < Remaining(s.callers[i].pc)
    ensures !(e.Step? && e.caller == i) ==> Next(s, e).callers[i] == s.callers[i]
  {
  }

  // ---------- one call by itself ----------

  /** The next `n` store calls of one caller, all answered, with nobody in between. */
  function Alone(s: State, i: nat, n: nat): (t: State)
    requires i < |s.callers|
    ensures SameCalls(s, t)
    decreases n
  {
    if n == 0 then s else Alone(StepCaller(s, i, Answers), i, n - 1)
  }

  /** Nothing more happens once a call has ended. */
  lemma {:induction false} AloneDone(s: State, i: nat, n: nat)
    requires i < |s.callers| && IsDone(s.callers[i].pc)
    ensures Alone(s, i, n) == s
  {
    if n > 0 {
      AloneDone(s, i, n - 1);
    }
  }

  lemma {:induction false} AloneMore(s: State, i: nat, n: nat)
    requires i < |s.callers| && n > 0
    ensures Alone(s, i, n) == Alone(StepCaller(s, i, Answers), i, n - 1)
  {
  }

  /** How a create by itself ends: in its own row, in the row that was there before, or in the unique violation. */
  lemma {:induction false} AloneCreates(s: State, i: nat, n: nat)
    requires i < |s.callers| && s.callers[i].pc.Creating? && n >= 2
    ensures var t, o := Alone(s, i, n), s.callers[i].settings;
            && t.creates == s.creates + [i] && t.claim == s.claim
            && t.db == (if s.db.Some? then s.db else Some(i))
            && t.callers[i].pc == (if s.db.None? then Returned(i, Created)
                                   else if o.hasLookup then Returned(s.db.value, P2002Winner) else Threw(false))
  {
    var u := StepCaller(s, i, Answers);
    AloneMore(s, i, n);
    AloneMore(u, i, n - 1);
    AloneDone(StepCaller(u, i, Answers), i, n - 2);
  }

  lemma {:induction false} AloneLosesClaim(s: State, i: nat, n: nat)
    requires i < |s.callers| && s.callers[i].pc.ReadingClaim? && s.claim.Some? && n >= 3
    ensures var t, o := Alone(s, i, n), s.callers[i].settings;
            && t.creates == s.creates && t.claim == s.claim && t.db == s.db
            && t.callers[i].pc == (if o.hash.Some? && o.hash != s.claim then Threw(true)
                                   else if s.db.Some? && (o.hasResolve || o.hasLookup) then Returned(s.db.value, RedisRace)
                                   else Threw(true))
  {
    var u := StepCaller(s, i, Answers);
    var v := StepCaller(u, i, Answers);
    AloneMore(s, i, n);
    AloneMore(u, i, n - 1);
    AloneMore(v, i, n - 2);
    AloneDone(StepCaller(v, i, Answers), i, n - 3);
  }

  lemma {:induction false} AloneClaims(s: State, i: nat, n: nat)
    requires i < |s.callers| && s.callers[i].pc.Claiming? && n >= 4
    ensures var t, o := Alone(s, i, n), s.callers[i].settings;
            && (s.claim.None? ==> t.claim == Some(o.value) && t.creates == s.creates + [i])
            && (s.claim.None? && s.db.None? ==> t.callers[i].pc == Returned(i, Created) && t.db == Some(i))
            && (s.claim.Some? ==> t.claim == s.claim && t.creates == s.creates && t.db == s.db)
            && (s.claim.Some? ==>
                  t.callers[i].pc == if o.hash.Some? && o.hash != s.claim then Threw(true)
                                     else if s.db.Some? && (o.hasResolve || o.hasLookup) then Returned(s.db.value, RedisRace)
                                     else Threw(true))
  {
    var u := StepCaller(s, i, Answers);
    AloneMore(s, i, n);
    if s.claim.None? {
      AloneCreates(u, i, n - 1);
    } else {
      AloneLosesClaim(u, i, n - 1);
    }
  }

  /**
   A call by itself, every store answering. The first of its key creates,
   leaving its claim value; a replay returns the row as a lookup hit where the
   caller can look it up; where it cannot, a claim already held is answered by
   the resolver, unless the payload hash differs from what the claim says or
   there is nothing to resolve it by, which is a conflict; and no replay under
   a claim or a lookup ever runs `create`.
   */
  lemma {:induction false} AloneEnds(s: State, i: nat)
    requires i < |s.callers| && s.callers[i].pc == Begin(s.callers[i].settings)
    ensures var t, o := Alone(s, i, 5), s.callers[i].settings;
            && (s.db.None? && (s.claim.None? || !o.hasRedis) ==>
                  && t.callers[i].pc == Returned(i, Created) && t.db == Some(i) && t.creates == s.creates + [i]
                  && t.claim == if o.hasRedis then Some(o.value) else s.claim)
            && (s.db.Some? && o.hasLookup ==>
                  t.callers[i].pc == Returned(s.db.value, LookupHit) && t.creates == s.creates && t.claim == s.claim)
            && (!(s.db.Some? && o.hasLookup) && o.hasRedis && s.claim.Some? ==>
                  && t.creates == s.creates && t.db == s.db && t.claim == s.claim
                  && t.callers[i].pc == if s.db.Some? && o.hasResolve && (o.hash.None? || o.hash == s.claim)
                                        then Returned(s.db.value, RedisRace) else Threw(true))
            && (s.db.Some? && !o.hasLookup && (!o.hasRedis || s.claim.None?) ==>
                  t.callers[i].pc == Threw(false) && t.db == s.db && t.creates == s.creates + [i])
  {
    var o := s.callers[i].settings;
    if o.hasLookup {
      var u := StepCaller(s, i, Answers);
      AloneMore(s, i, 5);
      if s.db.Some? {
        AloneDone(u, i, 4);
      } else if o.hasRedis {
        AloneClaims(u, i, 4);
      } else {
        AloneCreates(u, i, 4);
      }
    } else if o.hasRedis {
      AloneStartsAtClaim(s, i);
    } else {
      AloneCreates(s, i, 5);
    }
  }

  lemma {:induction false} AloneStartsAtClaim(s: State, i: nat)
    requires i < |s.callers| && s.callers[i].pc.Claiming? && !s.callers[i].settings.hasLookup
    ensures var t, o := Alone(s, i, 5), s.callers[i].settings;
            && (s.claim.None? ==> t.claim == Some(o.value) && t.creates == s.creates + [i])
            && (s.claim.None? ==> t.db == if s.db.Some? then s.db else Some(i))
            && (s.claim.None? ==> t.callers[i].pc == if s.db.None? then Returned(i, Created) else Threw(false))
            && (s.claim.Some? ==> t.claim == s.claim && t.creates == s.creates && t.db == s.db)
            && (s.claim.Some? ==>
                  t.callers[i].pc == if s.db.Some? && o.hasResolve && (o.hash.None? || o.hash == s.claim)
                                     then Returned(s.db.value, RedisRace) else Threw(true))
  {
    var u := StepCaller(s, i, Answers);
    AloneMore(s, i, 5);
    AloneClaims(s, i, 5);
    if s.claim.None? {
      AloneCreates(u, i, 4);
    }
  }

  /**
   Which failures reach the caller: those of the first lookup, of the create
   and of the lookup after a unique violation. An error of the claim, the
   resolver or the lookup that follows leads on to the guarded create, and an
   error in reading the claim counts as a missing one.
   */
  lemma {:induction false} ErrorsReachTheCaller(s: State, i: nat, r: Reply)
    requires i < |s.callers| && IsError(r)
    ensures var before, after, o := s.callers[i].pc, StepCaller(s, i, r).callers[i].pc, s.callers[i].settings;
            && (before in {LookingUp, Creating, Rescuing} ==> after == Threw(false))
            && (before in {Claiming, LookingUpWinner} || before.Resolving? ==> after == Creating)
            && (before == ReadingClaim ==> after == if o.hasLookup then LookingUpWinner else Threw(true))
  {
  }

  // ---------- the helper itself ----------

  /** What one call hands back to its route. */
  datatype Outcome = Result(row: Row, deduped: bool, source: Source) | Exception(conflict: bool)

  /** The stores as one caller sees them while other calls run between its own store calls. */
  class Stores {
    ghost const initial: State
    ghost var log: seq<Event>
    var state: State

    ghost predicate Valid()
      reads this
    {
      Initial(initial) && state == Run(initial, log)
    }

    constructor (s: State)
      requires Initial(s)
      ensures Valid() && initial == s && state == s && log == []
    {
      initial, log, state := s, [], s;
    }

    /** One step of the machine, recorded. */
    method Take(e: Event)
      requires Valid()
      modifies this
      ensures Valid() && state == Next(old(state), e)
    {
      RunAppend(initial, log, e, log + [e]);
      log, state := log + [e], Next(state, e);
    }

    /** Any step of another call, or the loss of the claim. */
    method OneOther(i: nat)
      requires Valid() && i < |state.callers|
      modifies this
      ensures Valid() && SameCalls(old(state), state) && state.callers[i] == old(state.callers[i])
    {
      var e: Event := *;
      if !(e.Step? && e.caller == i) {
        EveryStepProgresses(state, e, i);
        Take(e);
      }
    }

    /** Any number of them. */
    method Others(i: nat)
      requires Valid() && i < |state.callers|
      modifies this
      ensures Valid() && SameCalls(old(state), state) && state.callers[i] == old(state.callers[i])
    {
      var n := *;
      for k := 0 to if n < 0 then 0 else n
        invariant Valid() && SameCalls(old(state), state) && state.callers[i] == old(state.callers[i])
      {
        OneOther(i);
      }
    }

    /** The store call at which caller `i` stands. Other calls may run first; it may throw. */
    method StoreCall(i: nat) returns (r: Reply, before: State)
      requires Valid() && i < |state.callers|
      modifies this
      ensures Valid() && SameCalls(old(state), state)
      ensures SameCalls(old(state), before) && before.callers[i] == old(state.callers[i])
      ensures state == StepCaller(before, i, r)
    {
      Others(i);
      before := state;
      r := *;
      Take(Step(i, r));
    }

    /** `lookupExisting(key)`. */
    method LookupExisting(i: nat) returns (thrown: bool, found: Option<Row>, ghost before: State)
      requires Valid() && i < |state.callers|
      requires state.callers[i].pc in {LookingUp, LookingUpWinner, Rescuing}
      modifies this
      ensures Valid() && SameCalls(old(state), state)
      ensures SameCalls(old(state), before) && before.callers[i] == old(state.callers[i])
      ensures state == StepCaller(before, i, if thrown then Fails else Answers)
      ensures !thrown ==> found == before.db
    {
      var r, b := StoreCall(i);
      thrown, found, before := IsError(r), b.db, b;
    }

    /** `SET claimKey value EX ttl NX`. */
    method SetIfAbsent(i: nat) returns (thrown: bool, claimed: bool)
      requires Valid() && i < |state.callers| && state.callers[i].pc.Claiming?
      modifies this
      ensures Valid() && SameCalls(old(state), state)
      ensures state.callers[i].pc == if thrown || claimed then Creating else ReadingClaim
    {
      var r, b := StoreCall(i);
      thrown, claimed := IsError(r), b.claim.None?;
    }

    /** `GET claimKey`, an error read as a missing value. */
    method ReadClaim(i: nat) returns (stored: Option<string>)
      requires Valid() && i < |state.callers| && state.callers[i].pc.ReadingClaim?
      modifies this
      ensures Valid() && SameCalls(old(state), state)
      ensures state.callers[i].pc == AfterRead(state.callers[i].settings, stored)
    {
      var r, b := StoreCall(i);
      stored := if IsError(r) then None else b.claim;
    }

    /** `resolveClaim(stored)`. */
    method ResolveClaim(i: nat) returns (thrown: bool, winner: Option<Row>)
      requires Valid() && i < |state.callers| && state.callers[i].pc.Resolving?
      modifies this
      ensures Valid() && SameCalls(old(state), state)
      ensures state.callers[i].pc ==
              if thrown then Creating
              else if winner.Some? then Returned(winner.value, RedisRace)
              else AfterLoss(state.callers[i].settings)
    {
      var r, b := StoreCall(i);
      thrown, winner := IsError(r), if r.Answers? then b.db else None;
    }

    /** `create()`: the inserted row, or an error that may be the unique violation. */
    method Create(i: nat) returns (created: Option<Row>, uniqueViolation: bool)
      requires Valid() && i < |state.callers| && state.callers[i].pc.Creating?
      modifies this
      ensures Valid() && SameCalls(old(state), state)
      ensures state.callers[i].pc ==
              if created.Some? then Returned(created.value, Created)
              else if uniqueViolation && state.callers[i].settings.hasLookup then Rescuing
              else Threw(false)
    {
      var r, b := StoreCall(i);
      created := if !IsError(r) && b.db.None? then Some(i) else None;
      uniqueViolation := !IsError(r) && b.db.Some?;
    }

    /** Stage 3: create, or return the winner of a unique violation. */
    method GuardedCreate(i: nat) returns (outcome: Outcome)
      requires Valid() && i < |state.callers| && state.callers[i].pc.Creating?
      modifies this
      ensures Valid() && SameCalls(old(state), state) && Ended(i, outcome)
    {
      var created, uniqueViolation := Create(i);
      if created.Some? {
        return Result(created.value, false, Created);
      }
      if uniqueViolation && state.callers[i].settings.hasLookup {
        var thrown, winner, before := LookupExisting(i);
        if !thrown && winner.Some? {
          return Result(winner.value, true, P2002Winner);
        }
      }
      return Exception(false);
    }

    /**
     Stage 2's `try` block after the claim is lost. `None` says that a store
     threw and the helper falls through to the create.
     */
    method ResolveWinner(i: nat) returns (outcome: Option<Outcome>)
      requires Valid() && i < |state.callers| && state.callers[i].pc.ReadingClaim?
      modifies this
      ensures Valid() && SameCalls(old(state), state)
      ensures if outcome.Some? then Ended(i, outcome.value) else state.callers[i].pc.Creating?
    {
      var o := state.callers[i].settings;
      var stored := ReadClaim(i);
      if o.hash.Some? && stored.Some? && stored.value != o.hash.value {
        return Some(Exception(true));
      }
      if stored.Some? && o.hasResolve {
        var thrown, winner := ResolveClaim(i);
        if thrown {
          return None;
        }
        if winner.Some? {
          return Some(Result(winner.value, true, RedisRace));
        }
      }
      if o.hasLookup {
        var thrown, winner, before := LookupExisting(i);
        if thrown {
          return None;
        }
        if winner.Some? {
          return Some(Result(winner.value, true, RedisRace));
        }
      }
      return Some(Exception(true));
    }

    /** The machine has the call ended with this outcome. */
    ghost predicate Ended(i: nat, outcome: Outcome)
      requires i < |state.callers|
      reads this
    {
      match outcome
      case Result(row, deduped, source) =>
        state.callers[i].pc == Returned(row, source) && (deduped <==> !source.Created?)
      case Exception(conflict) => state.callers[i].pc == Threw(conflict)
    }

    /**
     The helper's control flow ends as the machine's does, whatever the other
     calls do between its store calls; and a call that returns hands back the
     row in the database, reporting `created` only for its own row.
     */
    method WithIdempotency(i: nat) returns (outcome: Outcome)
      requires Valid() && i < |state.callers| && state.callers[i].pc == Begin(state.callers[i].settings)
      modifies this
      ensures Valid() && SameCalls(old(state), state) && Ended(i, outcome)
      ensures outcome.Result? ==> state.db == Some(outcome.row) && (outcome.deduped <==> outcome.row != i)
    {
      var o := state.callers[i].settings;
      var decided: Option<Outcome> := None;
      if o.hasLookup {
        var thrown, existing, before := LookupExisting(i);
        if thrown {
          decided := Some(Exception(false));
        } else if existing.Some? {
          decided := Some(Result(existing.value, true, LookupHit));
        }
      }
      if decided.None? && o.hasRedis {
        var thrown, claimed := SetIfAbsent(i);
        if !thrown && !claimed {
          decided := ResolveWinner(i);
        }
      }
      if decided.Some? {
        outcome := decided.value;
      } else {
        outcome := GuardedCreate(i);
      }
      Agreement(initial, log, i);
    }
  }
}
