/** The per-route circuit-breaker registry, as a function of the calls made on it. */
module CircuitBreaker {
  import opened Options

  datatype Phase = CLOSED | OPEN | HALF_OPEN

  datatype Breaker = Breaker(phase: Phase, consecutiveFailures: nat, openedAt: Option<int>, lastTransitionAt: int)

  type Breakers = map<string, Breaker>

  /** The clock readings one call may take: when it creates a breaker, and the two after that. */
  datatype Readings = Readings(created: int, first: int, second: int)

  datatype Action = Snapshot | GetState(cooldownMs: int) | RecordSuccess | RecordFailure

  datatype Call = Call(route: string, action: Action, clock: Readings)

  // ---------- one call ----------

  function Fresh(at: int): Breaker {
    Breaker(CLOSED, 0, None, at)
  }

  /** `get`: a route's breaker, created on first use. */
  function Get(m: Breakers, route: string, at: int): Breaker {
    if route in m then m[route] else Fresh(at)
  }

  predicate CooledDown(b: Breaker, cooldownMs: int, now: int) {
    b.openedAt.Some? && now - b.openedAt.value >= cooldownMs
  }

  predicate Trips(b: Breaker, threshold: int) {
    b.phase == HALF_OPEN || (b.phase == CLOSED && b.consecutiveFailures + 1 >= threshold)
  }

  function Act(b: Breaker, threshold: int, action: Action, clock: Readings): Breaker {
    match action
    case Snapshot => b
    case GetState(cooldownMs) =>
      if b.phase == OPEN && CooledDown(b, cooldownMs, clock.first)
      then b.(phase := HALF_OPEN, lastTransitionAt := clock.second) else b
    case RecordSuccess =>
      if b.phase == CLOSED then b.(consecutiveFailures := 0) else Breaker(CLOSED, 0, None, clock.first)
    case RecordFailure =>
      if Trips(b, threshold) then Breaker(OPEN, b.consecutiveFailures + 1, Some(clock.second), clock.first)
      else b.(consecutiveFailures := b.consecutiveFailures + 1)
  }

  function Next(m: Breakers, threshold: int, c: Call): Breakers {
    m[c.route := Act(Get(m, c.route, c.clock.created), threshold, c.action, c.clock)]
  }

  /** The registry after a history of calls. */
  function After(threshold: int, h: seq<Call>): Breakers {
    if h == [] then map[] else Next(After(threshold, h[..|h| - 1]), threshold, h[|h| - 1])
  }

  // ---------- the history alone ----------

  /** Failures of a route since its last success. */
  function TrailingFailures(h: seq<Call>, route: string): nat {
    if h == [] then 0
    else
      var c, before := h[|h| - 1], TrailingFailures(h[..|h| - 1], route);
      if c.route != route then before
      else if c.action.RecordFailure? then before + 1
      else if c.action.RecordSuccess? then 0
      else before
  }

  /** Since the route's last failure or success, some `getState` found the cooldown over. */
  predicate Probed(h: seq<Call>, route: string, openedAt: int) {
    h != [] &&
    var c := h[|h| - 1];
    if c.route != route then Probed(h[..|h| - 1], route, openedAt)
    else
      match c.action
      case Snapshot => Probed(h[..|h| - 1], route, openedAt)
      case GetState(cooldownMs) => c.clock.first - openedAt >= cooldownMs || Probed(h[..|h| - 1], route, openedAt)
      case RecordSuccess => false
      case RecordFailure => false
  }

  /** When the route's current opening began: the reading of the failure that opened it, or none while it is closed. */
  function OpenedAt(threshold: int, h: seq<Call>, route: string): Option<int> {
    if h == [] then None
    else
      var c, before := h[|h| - 1], OpenedAt(threshold, h[..|h| - 1], route);
      if c.route != route then before
      else
        match c.action
        case Snapshot => before
        case GetState(_) => before
        case RecordSuccess => None
        case RecordFailure =>
          if TrailingFailures(h, route) < threshold then None
          else if before.None? || Probed(h[..|h| - 1], route, before.value) then Some(c.clock.second)
          else before
  }

  /** The phase, told from the history. */
  function PhaseOf(threshold: int, h: seq<Call>, route: string): Phase {
    var since := OpenedAt(threshold, h, route);
    if since.None? then CLOSED else if Probed(h, route, since.value) then HALF_OPEN else OPEN
  }

  /** The reading of the call that last changed the phase, or of the one that created the breaker; `at` before any call. */
  function ChangedAt(threshold: int, h: seq<Call>, route: string, at: int): int {
    if h == [] then at
    else
      var c, before := h[|h| - 1], h[..|h| - 1];
      if c.route != route then ChangedAt(threshold, before, route, at)
      else if PhaseOf(threshold, h, route) == PhaseOf(threshold, before, route)
      then ChangedAt(threshold, before, route, c.clock.created)
      else if c.action.GetState? then c.clock.second
      else c.clock.first
  }

  /** The breaker a route must have, told from the history alone. */
  function Told(threshold: int, h: seq<Call>, route: string, at: int): Breaker {
    Breaker(PhaseOf(threshold, h, route), TrailingFailures(h, route), OpenedAt(threshold, h, route), ChangedAt(threshold, h, route, at))
  }

  /** A route is closed exactly below the threshold, and `openedAt` is null exactly then. */
  lemma {:induction false} ClosedBelowThreshold(threshold: int, h: seq<Call>, route: string)
    requires threshold >= 1
    ensures PhaseOf(threshold, h, route) == CLOSED <==> TrailingFailures(h, route) < threshold
    ensures OpenedAt(threshold, h, route).None? <==> TrailingFailures(h, route) < threshold
  {
    if h != [] {
      ClosedBelowThreshold(threshold, h[..|h| - 1], route);
    }
  }

  lemma {:induction false} CallTold(threshold: int, h: seq<Call>, c: Call)
    requires threshold >= 1
    ensures Act(Told(threshold, h, c.route, c.clock.created), threshold, c.action, c.clock)
         == Told(threshold, h + [c], c.route, c.clock.created)
  {
    var h1 := h + [c];
    assert h1[..|h1| - 1] == h && h1[|h1| - 1] == c;
    ClosedBelowThreshold(threshold, h, c.route);
  }

  lemma {:induction false} OthersTold(threshold: int, h: seq<Call>, c: Call, route: string, at: int)
    requires c.route != route
    ensures Told(threshold, h + [c], route, at) == Told(threshold, h, route, at)
  {
    var h1 := h + [c];
    assert h1[..|h1| - 1] == h && h1[|h1| - 1] == c;
  }

  /** The reading with which a breaker is looked up matters only before the first call on its route. */
  lemma {:induction false} ToldAfterFirst(threshold: int, h: seq<Call>, c: Call, at: int)
    ensures Told(threshold, h + [c], c.route, at) == Told(threshold, h + [c], c.route, c.clock.created)
  {
    var h1 := h + [c];
    assert h1[..|h1| - 1] == h && h1[|h1| - 1] == c;
  }

  /**
   The breaker is a function of its route's history. It counts the trailing
   failures; `openedAt` is the reading of the failure that began the current
   opening, a failed probe beginning a new one; it is half open exactly when,
   since that failure, a `getState` found the cooldown over; and
   `lastTransitionAt` is the reading of the call that last changed the phase.
   */
  lemma {:induction false} FunctionOfHistory(threshold: int, h: seq<Call>, route: string, at: int)
    requires threshold >= 1
    ensures Get(After(threshold, h), route, at) == Told(threshold, h, route, at)
  {
    if h != [] {
      var before, c := h[..|h| - 1], h[|h| - 1];
      assert h == before + [c];
      if c.route == route {
        FunctionOfHistory(threshold, before, route, c.clock.created);
        CallTold(threshold, before, c);
        ToldAfterFirst(threshold, before, c, at);
      } else {
        FunctionOfHistory(threshold, before, route, at);
        OthersTold(threshold, before, c, route, at);
      }
    }
  }

  function OnRoute(h: seq<Call>, route: string): seq<Call> {
    if h == [] then []
    else OnRoute(h[..|h| - 1], route) + if h[|h| - 1].route == route then [h[|h| - 1]] else []
  }

  /** Calls on other routes are as if they had never been made. */
  lemma {:induction false} RoutesAreIndependent(threshold: int, h: seq<Call>, route: string)
    ensures (route in After(threshold, h)) == (route in After(threshold, OnRoute(h, route)))
    ensures route in After(threshold, h) ==> After(threshold, h)[route] == After(threshold, OnRoute(h, route))[route]
  {
    if h != [] {
      var before, c := h[..|h| - 1], h[|h| - 1];
      RoutesAreIndependent(threshold, before, route);
      if c.route == route {
        var mine := OnRoute(before, route) + [c];
        assert mine[..|mine| - 1] == OnRoute(before, route);
      } else {
        assert OnRoute(h, route) == OnRoute(before, route);
      }
    }
  }

  lemma {:induction false} NextIs(threshold: int, h: seq<Call>, c: Call)
    ensures After(threshold, h + [c]) == Next(After(threshold, h), threshold, c)
  {
    assert (h + [c])[..|h|] == h;
  }

  /** An open route becomes half open exactly in a `getState` whose cooldown has elapsed since the current opening began. */
  lemma {:induction false} HalfOpensAfterCooldown(threshold: int, h: seq<Call>, c: Call)
    requires threshold >= 1 && PhaseOf(threshold, h, c.route) == OPEN
    ensures OpenedAt(threshold, h, c.route).Some?
    ensures After(threshold, h + [c])[c.route].phase == HALF_OPEN <==>
            c.action.GetState? && c.clock.first - OpenedAt(threshold, h, c.route).value >= c.action.cooldownMs
  {
    FunctionOfHistory(threshold, h, c.route, c.clock.created);
    NextIs(threshold, h, c);
  }

  // ---------- probes ----------

  predicate IsOutcome(c: Call, route: string) {
    c.route == route && (c.action.RecordSuccess? || c.action.RecordFailure?)
  }

  predicate IsAsked(c: Call, route: string) {
    c.route == route && c.action.GetState?
  }

  predicate HasOutcome(cs: seq<Call>, route: string) {
    exists i :: 0 <= i < |cs| && IsOutcome(cs[i], route)
  }

  lemma {:induction false} ProbeStep(threshold: int, h: seq<Call>, c: Call, route: string)
    requires threshold >= 1
    ensures PhaseOf(threshold, h, route) == HALF_OPEN && !IsOutcome(c, route) ==>
              PhaseOf(threshold, h + [c], route) == HALF_OPEN && OpenedAt(threshold, h + [c], route) == OpenedAt(threshold, h, route)
    ensures PhaseOf(threshold, h, route) == HALF_OPEN && IsOutcome(c, route) ==>
              PhaseOf(threshold, h + [c], route) ==
                (if c.action.RecordSuccess? || TrailingFailures(h, route) + 1 < threshold then CLOSED else OPEN)
    ensures PhaseOf(threshold, h, route) != HALF_OPEN && !IsAsked(c, route) ==> PhaseOf(threshold, h + [c], route) != HALF_OPEN
  {
    var h1 := h + [c];
    assert h1[..|h1| - 1] == h && h1[|h1| - 1] == c;
    ClosedBelowThreshold(threshold, h, route);
    ClosedBelowThreshold(threshold, h1, route);
  }

  /**
   A half-open route stays so until an outcome is recorded: whatever else is
   called, on it or on others, in any number, every `getState` answers
   HALF_OPEN. The registry does not count the probes it lets through.
   */
  lemma {:induction false} HalfOpenUntilOutcome(threshold: int, h: seq<Call>, cs: seq<Call>, route: string)
    requires threshold >= 1 && PhaseOf(threshold, h, route) == HALF_OPEN && !HasOutcome(cs, route)
    ensures PhaseOf(threshold, h + cs, route) == HALF_OPEN
  {
    if cs == [] {
      assert h + cs == h;
    } else {
      var n := |cs| - 1;
      assert forall i :: 0 <= i < n ==> cs[..n][i] == cs[i];
      HalfOpenUntilOutcome(threshold, h, cs[..n], route);
      ProbeStep(threshold, h + cs[..n], cs[n], route);
      assert h + cs == h + cs[..n] + [cs[n]];
    }
  }

  lemma {:induction false} OutcomeEndsProbing(threshold: int, h: seq<Call>, cs: seq<Call>, route: string)
    requires threshold >= 1 && PhaseOf(threshold, h, route) == HALF_OPEN && HasOutcome(cs, route)
    requires forall i :: 0 <= i < |cs| ==> !IsAsked(cs[i], route)
    ensures PhaseOf(threshold, h + cs, route) != HALF_OPEN
  {
    var n := |cs| - 1;
    assert h + cs == h + cs[..n] + [cs[n]];
    assert forall i :: 0 <= i < n ==> cs[..n][i] == cs[i];
    if HasOutcome(cs[..n], route) {
      OutcomeEndsProbing(threshold, h, cs[..n], route);
    } else {
      assert IsOutcome(cs[n], route);
      HalfOpenUntilOutcome(threshold, h, cs[..n], route);
    }
    ProbeStep(threshold, h + cs[..n], cs[n], route);
  }

  /**
   After a probe the next `getState` of the route answers HALF_OPEN again
   exactly when no outcome was recorded in between, or when the outcomes have
   reopened the route and the cooldown of that opening is over too. So a
   caller that records each probe's outcome before it asks again gets one
   probe an opening, and only such a caller does.
   */
  lemma {:induction false} NextProbe(threshold: int, h: seq<Call>, cs: seq<Call>, c: Call)
    requires threshold >= 1 && PhaseOf(threshold, h, c.route) == HALF_OPEN && c.action.GetState?
    requires forall i :: 0 <= i < |cs| ==> !IsAsked(cs[i], c.route)
    ensures After(threshold, h + cs + [c])[c.route].phase == HALF_OPEN <==>
            || !HasOutcome(cs, c.route)
            || (OpenedAt(threshold, h + cs, c.route).Some?
                && c.clock.first - OpenedAt(threshold, h + cs, c.route).value >= c.action.cooldownMs)
  {
    FunctionOfHistory(threshold, h + cs, c.route, c.clock.created);
    NextIs(threshold, h + cs, c);
    if HasOutcome(cs, c.route) {
      OutcomeEndsProbing(threshold, h, cs, c.route);
    } else {
      HalfOpenUntilOutcome(threshold, h, cs, c.route);
    }
  }

  function Failing(route: string, n: nat, at: int): seq<Call> {
    if n == 0 then [] else Failing(route, n - 1, at) + [Call(route, RecordFailure, Readings(at, at, at))]
  }

  lemma {:induction false} FailingOpens(threshold: int, route: string, n: nat, at: int)
    requires threshold >= 1
    ensures TrailingFailures(Failing(route, n, at), route) == n
    ensures OpenedAt(threshold, Failing(route, n, at), route) == if n < threshold then None else Some(at)
    ensures n > 0 ==> !Probed(Failing(route, n, at), route, at)
  {
    if n > 0 {
      FailingOpens(threshold, route, n - 1, at);
      var h := Failing(route, n, at);
      assert h[..|h| - 1] == Failing(route, n - 1, at);
    }
  }

  /** Two probes of one opening, at any threshold: the failures, then two `getState`s in a row. */
  lemma {:induction false} TwoProbesAtOnce(threshold: nat, route: string, cooldownMs: int, at: int)
    requires threshold >= 1
    ensures var ask := Call(route, GetState(cooldownMs), Readings(at, at + cooldownMs, at + cooldownMs));
            var h := Failing(route, threshold, at);
            && PhaseOf(threshold, h, route) == OPEN
            && After(threshold, h + [ask])[route].phase == HALF_OPEN
            && After(threshold, h + [ask] + [] + [ask])[route].phase == HALF_OPEN
  {
    var ask := Call(route, GetState(cooldownMs), Readings(at, at + cooldownMs, at + cooldownMs));
    var h := Failing(route, threshold, at);
    FailingOpens(threshold, route, threshold, at);
    HalfOpensAfterCooldown(threshold, h, ask);
    FunctionOfHistory(threshold, h + [ask], route, at);
    NextIs(threshold, h, ask);
    NextProbe(threshold, h + [ask], [], ask);
  }

  // ---------- the registry ----------

  lemma {:induction false} Overwritten(m: Breakers, route: string, a: Breaker, b: Breaker, c: Breaker)
    ensures m[route := a][route := b][route := c] == m[route := c] && m[route := a][route := b] == m[route := b]
  {
  }

  class Registry {
    const failureThreshold: int
    var breakers: Breakers
    ghost var history: seq<Call>

    ghost predicate Valid()
      reads this
    {
      breakers == After(failureThreshold, history)
    }

    constructor (threshold: int)
      ensures Valid() && failureThreshold == threshold && history == [] && breakers == map[]
    {
      failureThreshold, breakers, history := threshold, map[], [];
    }

    ghost predicate Called(before: Breakers, h: seq<Call>, c: Call)
      reads this
    {
      && history == h + [c]
      && breakers == Next(before, failureThreshold, c)
    }

    lemma {:induction false} Extends(h: seq<Call>, c: Call)
      ensures After(failureThreshold, h + [c]) == Next(After(failureThreshold, h), failureThreshold, c)
    {
      assert (h + [c])[..|h|] == h;
    }

    method Ensure(route: string, at: int) returns (b: Breaker)
      modifies `breakers
      ensures b == Get(old(breakers), route, at) && breakers == old(breakers)[route := b]
    {
      if route !in breakers {
        breakers := breakers[route := Breaker(CLOSED, 0, None, at)];
      }
      b := breakers[route];
    }

    /** `transition`, for a route whose breaker exists; a transition to the same phase does nothing. */
    method Transition(route: string, to: Phase, clock: Readings)
      requires route in breakers
      modifies `breakers
      ensures breakers == old(breakers)[route :=
                var b := old(breakers)[route];
                if b.phase == to then b
                else match to
                  case OPEN => Breaker(OPEN, b.consecutiveFailures, Some(clock.second), clock.first)
                  case CLOSED => Breaker(CLOSED, 0, None, clock.first)
                  case HALF_OPEN => b.(phase := HALF_OPEN, lastTransitionAt := clock.first)]
    {
      var b := breakers[route];
      if b.phase != to {
        b := b.(phase := to, lastTransitionAt := clock.first);
        if to == OPEN {
          b := b.(openedAt := Some(clock.second));
        } else if to == CLOSED {
          b := b.(consecutiveFailures := 0, openedAt := None);
        }
        breakers := breakers[route := b];
      }
    }

    /** A copy of the breaker; never advances it. */
    method TakeSnapshot(route: string, clock: Readings) returns (b: Breaker)
      requires Valid()
      modifies this
      ensures Valid() && Called(old(breakers), old(history), Call(route, Snapshot, clock))
      ensures route in breakers && b == breakers[route]
    {
      Extends(history, Call(route, Snapshot, clock));
      b := Ensure(route, clock.created);
      history := history + [Call(route, Snapshot, clock)];
    }

    method State(route: string, cooldownMs: int, clock: Readings) returns (phase: Phase)
      requires Valid()
      modifies this
      ensures Valid() && Called(old(breakers), old(history), Call(route, GetState(cooldownMs), clock))
      ensures route in breakers && phase == breakers[route].phase
      ensures failureThreshold >= 1 ==> (phase == CLOSED <==> TrailingFailures(history, route) < failureThreshold)
    {
      Extends(history, Call(route, GetState(cooldownMs), clock));
      var b := Ensure(route, clock.created);
      if b.phase == OPEN && b.openedAt.Some? && clock.first - b.openedAt.value >= cooldownMs {
        b := b.(phase := HALF_OPEN, lastTransitionAt := clock.second);
        breakers := breakers[route := b];
      }
      history := history + [Call(route, GetState(cooldownMs), clock)];
      if failureThreshold >= 1 {
        FunctionOfHistory(failureThreshold, history, route, 0);
        ClosedBelowThreshold(failureThreshold, history, route);
      }
      phase := b.phase;
    }

    method Success(route: string, clock: Readings)
      requires Valid()
      modifies this
      ensures Valid() && Called(old(breakers), old(history), Call(route, RecordSuccess, clock))
    {
      Extends(history, Call(route, RecordSuccess, clock));
      var b := Ensure(route, clock.created);
      breakers := breakers[route := b.(consecutiveFailures := 0)];
      if b.phase != CLOSED {
        Transition(route, CLOSED, clock);
      }
      Overwritten(old(breakers), route, b, b.(consecutiveFailures := 0), breakers[route]);
      history := history + [Call(route, RecordSuccess, clock)];
    }

    method Failure(route: string, clock: Readings)
      requires Valid()
      modifies this
      ensures Valid() && Called(old(breakers), old(history), Call(route, RecordFailure, clock))
    {
      Extends(history, Call(route, RecordFailure, clock));
      var b := Ensure(route, clock.created);
      b := b.(consecutiveFailures := b.consecutiveFailures + 1);
      breakers := breakers[route := b];
      if b.phase == HALF_OPEN || (b.phase == CLOSED && b.consecutiveFailures >= failureThreshold) {
        Transition(route, OPEN, clock);
      }
      Overwritten(old(breakers), route, old(Get(breakers, route, clock.created)), b, breakers[route]);
      history := history + [Call(route, RecordFailure, clock)];
    }
  }
}
