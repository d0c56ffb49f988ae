/** Pair-rate cache keys: the two names joined by an underscore. */
module PairKeys {

  function Key(from: string, to: string): string {
    from + "_" + to
  }

  predicate Plain(name: string) {
    '_' !in name
  }

  /** The pairs `(f, t)` and `(g, u)` overlap when `f` ends inside `g` at an underscore. */
  ghost predicate Overlap(f: string, t: string, g: string, u: string) {
    exists mid: string :: g == f + "_" + mid && t == mid + "_" + u
  }

  lemma {:induction false} KeyPrefix(f: string, t: string, g: string, u: string)
    requires Key(f, t) == Key(g, u) && |f| < |g|
    ensures Overlap(f, t, g, u)
  {
    var mid := g[|f| + 1..];
    var k := Key(f, t);
    assert k == Key(g, u);
    assert f == k[..|f|] == g[..|f|];
    assert k[|f|] == '_' && k[|f|] == g[|f|];
    assert g == Key(f, mid);
    assert t == k[|f| + 1..] == Key(mid, u);
  }

  lemma {:induction false} OverlapShares(f: string, t: string, g: string, u: string)
    ensures Overlap(f, t, g, u) ==> Key(f, t) == Key(g, u)
  {
    if Overlap(f, t, g, u) {
      var mid: string :| g == f + "_" + mid && t == mid + "_" + u;
      assert Key(f, t) == f + "_" + mid + "_" + u == Key(g, u);
    }
  }

  /** Two pairs share a key exactly when they are the same pair or one's first name runs over the other's underscore. */
  lemma {:induction false} SameKey(f: string, t: string, g: string, u: string)
    ensures Key(f, t) == Key(g, u) <==> (f == g && t == u) || Overlap(f, t, g, u) || Overlap(g, u, f, t)
  {
    OverlapShares(f, t, g, u);
    OverlapShares(g, u, f, t);
    if Key(f, t) == Key(g, u) {
      if |f| < |g| {
        KeyPrefix(f, t, g, u);
      } else if |g| < |f| {
        KeyPrefix(g, u, f, t);
      } else {
        assert f == Key(f, t)[..|f|] == g;
        assert t == Key(f, t)[|f| + 1..] == u;
      }
    }
  }

  /** So the keys of pairs whose first names have no underscore never collide. */
  lemma {:induction false} PlainKeysDiffer(f: string, t: string, g: string, u: string)
    requires Plain(f) && Plain(g)
    ensures Key(f, t) == Key(g, u) <==> f == g && t == u
  {
    SameKey(f, t, g, u);
  }
}

/**
 The FX engine: base rates against NGN, refreshed under a deviation guard or
 overridden, and a cache of computed pair rates. Rates are exact reals.
 */
module FxRates {
  import opened Options
  import opened PairKeys

  const RATE_TTL_MS := 60_000

  const BASE := "NGN"

  const SUPPORTED: set<string> := {"USDC", "EURT", "NGN"}

  type Rates = map<string, real>

  datatype Entry = Entry(rate: real, computedAt: int)

  datatype Engine = Engine(
    rates: Rates,
    batchIds: map<string, string>,
    rateCachedAt: map<string, int>,
    cachedAt: int,
    computed: map<string, Entry>)

  datatype RateSource = FromCache | Live

  /** A resolved rate, the thrown error for an asset without a batch, or a quotient that is not a number. */
  datatype Answer = Rate(rate: real, source: RateSource) | NoBatch(asset: string) | NotFinite

  predicate Positive(m: Rates) {
    forall a :: a in m ==> m[a] > 0.0
  }

  // ---------- one resolution ----------

  function HasBatch(e: Engine, a: string): bool {
    a in e.batchIds && e.batchIds[a] != ""
  }

  /** `computeLive`. */
  function ComputeLive(e: Engine, from: string, to: string): Answer {
    if !HasBatch(e, from) then NoBatch(from)
    else if !HasBatch(e, to) then NoBatch(to)
    else if from !in e.rates || to !in e.rates || e.rates[to] == 0.0 then NotFinite
    else Rate(e.rates[from] / e.rates[to], Live)
  }

  predicate Usable(e: Engine, key: string, now: int) {
    key in e.computed && now - e.computed[key].computedAt < RATE_TTL_MS
  }

  /** `resolvePairRate`: the answer, and the engine with the cache written. */
  function Resolve(e: Engine, from: string, to: string, now: int): (Engine, Answer) {
    var key := Key(from, to);
    if Usable(e, key, now) then (e, Rate(e.computed[key].rate, FromCache))
    else
      var live := ComputeLive(e, from, to);
      if live.Rate? then (e.(computed := e.computed[key := Entry(live.rate, now)]), live) else (e, live)
  }

  function Pruned(e: Engine, now: int): Engine {
    e.(computed := map k | k in e.computed && now - e.computed[k].computedAt < RATE_TTL_MS :: e.computed[k])
  }

  function Batches(ids: map<string, string>, updated: Rates, batchId: string): map<string, string> {
    ids + map a | a in updated :: batchId
  }

  function Times(times: map<string, int>, updated: Rates, newlyFetched: Option<set<string>>, now: int): map<string, int> {
    times + map a | a in updated && IsNew(a, newlyFetched) :: now
  }

  /** Without a list every updated asset counts as newly fetched. */
  predicate IsNew(a: string, newlyFetched: Option<set<string>>) {
    newlyFetched.None? || a in newlyFetched.value || a == BASE
  }

  /** `updateBaseRates`. */
  function Updated(e: Engine, updated: Rates, batchId: string, newlyFetched: Option<set<string>>, now: int): Engine {
    Engine(e.rates + updated, Batches(e.batchIds, updated, batchId), Times(e.rateCachedAt, updated, newlyFetched, now), now, map[])
  }

  // ---------- the deviation guard ----------

  function Abs(x: real): real {
    if x < 0.0 then -x else x
  }

  /** `applyDeviationGuard`'s decision for one fetched asset. */
  predicate Accepts(base: Rates, asset: string, newRate: real, maxBps: int) {
    asset !in base || base[asset] <= 0.0 || Abs(newRate - base[asset]) / base[asset] * 10000.0 <= maxBps as real
  }

  function AcceptedNames(fetched: Rates, base: Rates, maxBps: int): set<string> {
    set a | a in fetched && Accepts(base, a, fetched[a], maxBps)
  }

  function Guarded(fetched: Rates, base: Rates, maxBps: int): Rates {
    base + map a | a in fetched && Accepts(base, a, fetched[a], maxBps) :: fetched[a]
  }

  function Refreshed(e: Engine, fetched: Rates, batchId: string, maxBps: int, now: int): Engine {
    Updated(e, Guarded(fetched, e.rates, maxBps), batchId, Some(AcceptedNames(fetched, e.rates, maxBps)), now)
  }

  // ---------- runs ----------

  /** Each event is one synchronous stretch of the service: nothing interleaves inside it. */
  datatype Event =
    | Quote(from: string, to: string, at: int)
    | Prune(at: int)
    | Refresh(fetched: Rates, batchId: string, maxBps: int, at: int)
    | Override(forced: Rates, batchId: string, at: int)
    | Warmup(snapshot: Rates, batchId: string, at: int)

  /** What the callers check: quoted names are supported ones, rates positive numbers, batch ids fresh UUIDs. */
  predicate Admitted(ev: Event) {
    match ev
    case Quote(from, to, _) => Plain(from)
    case Prune(_) => true
    case Refresh(fetched, batchId, _, _) => Positive(fetched) && batchId != ""
    case Override(forced, batchId, _) => Positive(forced) && batchId != ""
    case Warmup(snapshot, batchId, _) => Positive(snapshot) && batchId != ""
  }

  function Next(e: Engine, ev: Event): Engine {
    match ev
    case Quote(from, to, at) => Resolve(e, from, to, at).0
    case Prune(at) => Pruned(e, at)
    case Refresh(fetched, batchId, maxBps, at) => Refreshed(e, fetched, batchId, maxBps, at)
    case Override(forced, batchId, at) => Updated(e, e.rates + forced, batchId, None, at)
    case Warmup(snapshot, batchId, at) => Updated(e, snapshot, batchId, None, at)
  }

  function Run(e: Engine, es: seq<Event>): Engine {
    if es == [] then e else Next(Run(e, es[..|es| - 1]), es[|es| - 1])
  }

  predicate AllAdmitted(es: seq<Event>) {
    forall k :: 0 <= k < |es| ==> Admitted(es[k])
  }

  // ---------- the cache is invisible ----------

  /** Every asset with a rate has a positive one and a batch. */
  predicate Sound(e: Engine) {
    && Positive(e.rates)
    && e.batchIds.Keys == e.rates.Keys
    && (forall a :: a in e.batchIds ==> e.batchIds[a] != "")
    && SUPPORTED <= e.rates.Keys
  }

  /** Each cached rate is the one the current base rates give. */
  ghost predicate CacheAgrees(e: Engine) {
    forall f, t | Plain(f) && Key(f, t) in e.computed ::
      f in e.rates && t in e.rates && e.rates[t] != 0.0 && e.computed[Key(f, t)].rate == e.rates[f] / e.rates[t]
  }

  lemma {:induction false} QuoteKeepsCache(e: Engine, from: string, to: string, at: int)
    requires Sound(e) && CacheAgrees(e) && Plain(from)
    ensures CacheAgrees(Resolve(e, from, to, at).0)
  {
    var d := Resolve(e, from, to, at).0;
    forall f, t | Plain(f) && Key(f, t) in d.computed
      ensures f in d.rates && t in d.rates && d.rates[t] != 0.0 && d.computed[Key(f, t)].rate == d.rates[f] / d.rates[t]
    {
      PlainKeysDiffer(f, t, from, to);
    }
  }

  lemma {:induction false} UpdateKeepsSound(e: Engine, updated: Rates, batchId: string, newly: Option<set<string>>, at: int)
    requires Sound(e) && Positive(updated) && batchId != ""
    ensures Sound(Updated(e, updated, batchId, newly, at)) && CacheAgrees(Updated(e, updated, batchId, newly, at))
  {
  }

  lemma {:induction false} GuardedPositive(fetched: Rates, base: Rates, maxBps: int)
    requires Positive(fetched) && Positive(base)
    ensures Positive(Guarded(fetched, base, maxBps))
  {
  }

  lemma {:induction false} NextKeeps(e: Engine, ev: Event)
    requires Sound(e) && CacheAgrees(e) && Admitted(ev)
    ensures Sound(Next(e, ev)) && CacheAgrees(Next(e, ev))
  {
    match ev
    case Quote(from, to, at) => QuoteKeepsCache(e, from, to, at);
    case Prune(_) =>
    case Refresh(fetched, batchId, maxBps, at) =>
      GuardedPositive(fetched, e.rates, maxBps);
      UpdateKeepsSound(e, Guarded(fetched, e.rates, maxBps), batchId, Some(AcceptedNames(fetched, e.rates, maxBps)), at);
    case Override(forced, batchId, at) => UpdateKeepsSound(e, e.rates + forced, batchId, None, at);
    case Warmup(snapshot, batchId, at) => UpdateKeepsSound(e, snapshot, batchId, None, at);
  }

  lemma {:induction false} RunKeeps(e: Engine, es: seq<Event>)
    requires Sound(e) && CacheAgrees(e) && AllAdmitted(es)
    ensures Sound(Run(e, es)) && CacheAgrees(Run(e, es))
  {
    if es != [] {
      RunKeeps(e, es[..|es| - 1]);
      NextKeeps(Run(e, es[..|es| - 1]), es[|es| - 1]);
    }
  }

  /** The base rates after a run, from the refreshes, overrides and warm-ups alone: no clock and no cache. */
  function NextRates(rates: Rates, ev: Event): Rates {
    match ev
    case Quote(_, _, _) => rates
    case Prune(_) => rates
    case Refresh(fetched, _, maxBps, _) => Guarded(fetched, rates, maxBps)
    case Override(forced, _, _) => rates + forced
    case Warmup(snapshot, _, _) => rates + snapshot
  }

  function RatesAfter(rates: Rates, es: seq<Event>): Rates {
    if es == [] then rates else NextRates(RatesAfter(rates, es[..|es| - 1]), es[|es| - 1])
  }

  lemma {:induction false} RatesIgnoreQuotes(e: Engine, es: seq<Event>)
    ensures Run(e, es).rates == RatesAfter(e.rates, es)
  {
    if es != [] {
      RatesIgnoreQuotes(e, es[..|es| - 1]);
      var d, ev := Run(e, es[..|es| - 1]), es[|es| - 1];
      match ev
      case Refresh(fetched, _, maxBps, _) =>
        assert d.rates + Guarded(fetched, d.rates, maxBps) == Guarded(fetched, d.rates, maxBps);
      case Override(forced, _, _) => assert d.rates + (d.rates + forced) == d.rates + forced;
      case _ =>
    }
  }

  /**
   The cache refines live computation. After any run of quotes, prunes,
   refreshes, overrides and warm-ups, at any clock reading, resolving a pair
   gives the quotient of the base rates that the updates alone produce, and
   an error exactly when one of them has no rate.
   */
  lemma {:induction false} CacheIsInvisible(e: Engine, es: seq<Event>, from: string, to: string, now: int)
    requires Sound(e) && CacheAgrees(e) && AllAdmitted(es) && Plain(from)
    ensures var rates := RatesAfter(e.rates, es);
            var a := Resolve(Run(e, es), from, to, now).1;
            match a
            case Rate(rate, _) => from in rates && to in rates && rates[to] != 0.0 && rate == rates[from] / rates[to]
            case NoBatch(asset) => asset !in rates && asset == if from in rates then to else from
            case NotFinite => false
  {
    RunKeeps(e, es);
    RatesIgnoreQuotes(e, es);
  }

  /** A supported pair is always answered. */
  lemma {:induction false} SupportedAlwaysAnswered(e: Engine, es: seq<Event>, from: string, to: string, now: int)
    requires Sound(e) && CacheAgrees(e) && AllAdmitted(es) && from in SUPPORTED && to in SUPPORTED
    ensures Resolve(Run(e, es), from, to, now).1.Rate?
  {
    RunKeeps(e, es);
    RatesIgnoreQuotes(e, es);
    CacheIsInvisible(e, es, from, to, now);
  }

  /**
   A remark for future asset names, as no supported one has an underscore: of
   two pairs that overlap at an underscore, quoting one would make the other be
   served its rate.
   */
  lemma {:induction false} OverlapServesTheOtherRate(e: Engine, f: string, t: string, g: string, u: string, now: int)
    requires Sound(e) && e.computed == map[] && f in e.rates && t in e.rates && e.rates[t] != 0.0
    requires Overlap(f, t, g, u) || Overlap(g, u, f, t)
    ensures Resolve(Resolve(e, f, t, now).0, g, u, now).1 == Rate(e.rates[f] / e.rates[t], FromCache)
  {
    SameKey(f, t, g, u);
  }

  // ---------- batches and ages ----------

  /** Every asset is in one batch. */
  predicate OneBatch(e: Engine, batchId: string) {
    forall a :: a in e.batchIds ==> e.batchIds[a] == batchId
  }

  /**
   A refresh puts even rejected and unfetched assets in the new batch, as the
   guard's result holds every base rate; only their timestamps stay. So after
   a refresh or an override no pair is reported as mixing fetch cycles.
   */
  lemma {:induction false} RefreshJoinsBatches(e: Engine, fetched: Rates, batchId: string, maxBps: int, now: int)
    requires Sound(e)
    ensures var d := Refreshed(e, fetched, batchId, maxBps, now);
            && OneBatch(d, batchId) && d.cachedAt == now && d.computed == map[]
            && (forall a :: a in e.rates && a !in AcceptedNames(fetched, e.rates, maxBps) ==> d.rates[a] == e.rates[a])
            && (forall a :: a in e.rateCachedAt && a !in AcceptedNames(fetched, e.rates, maxBps) && a != BASE ==>
                  a in d.rateCachedAt && d.rateCachedAt[a] == e.rateCachedAt[a])
            && (forall a :: a in AcceptedNames(fetched, e.rates, maxBps) ==>
                  a in d.rateCachedAt && d.rateCachedAt[a] == now && d.rates[a] == fetched[a])
  {
  }

  lemma {:induction false} OverrideJoinsBatches(e: Engine, forced: Rates, batchId: string, now: int)
    requires Sound(e)
    ensures OneBatch(Next(e, Override(forced, batchId, now)), batchId)
  {
  }

  /** After a prune every entry is younger than the TTL, and the younger entries are all still there. */
  lemma {:induction false} PruneBoundsAges(e: Engine, now: int, key: string)
    ensures key in Pruned(e, now).computed <==> Usable(e, key, now)
    ensures key in Pruned(e, now).computed ==> Pruned(e, now).computed[key] == e.computed[key]
  {
  }

  /** The cache entry of a key was written by a quote of the run. */
  predicate Quoted(es: seq<Event>, key: string, at: int) {
    exists i :: 0 <= i < |es| && es[i].Quote? && Key(es[i].from, es[i].to) == key && es[i].at == at
  }

  lemma {:induction false} QuotedBefore(es: seq<Event>, ev: Event, key: string, at: int)
    ensures Quoted(es, key, at) ==> Quoted(es + [ev], key, at)
    ensures ev.Quote? ==> Quoted(es + [ev], Key(ev.from, ev.to), ev.at)
  {
    assert (es + [ev])[|es|] == ev;
    if i :| 0 <= i < |es| && es[i].Quote? && Key(es[i].from, es[i].to) == key && es[i].at == at {
      assert (es + [ev])[i] == es[i];
    }
  }

  lemma {:induction false} EntriesAreQuoted(e: Engine, es: seq<Event>, key: string)
    requires e.computed == map[] && key in Run(e, es).computed
    ensures Quoted(es, key, Run(e, es).computed[key].computedAt)
  {
    if es != [] {
      var before, ev := es[..|es| - 1], es[|es| - 1];
      assert es == before + [ev];
      var at := Run(e, es).computed[key].computedAt;
      if key in Run(e, before).computed {
        EntriesAreQuoted(e, before, key);
      }
      QuotedBefore(before, ev, key, at);
    }
  }

  /**
   However long the upstream is out, a prune leaves only pairs that were quoted
   within the last TTL: what was ever asked for before does not pile up.
   */
  lemma {:induction false} OutageKeepsOnlyRecentPairs(e: Engine, es: seq<Event>, at: int, key: string)
    requires e.computed == map[] && key in Run(e, es + [Prune(at)]).computed
    ensures exists asked :: Quoted(es, key, asked) && at - asked < 60_000
  {
    assert (es + [Prune(at)])[..|es|] == es;
    PruneBoundsAges(Run(e, es), at, key);
    EntriesAreQuoted(e, es, key);
  }

  // ---------- cached or live ----------

  predicate Asks(ev: Event, from: string, to: string) {
    ev.Quote? && ev.from == from && ev.to == to
  }

  predicate IsUpdate(ev: Event) {
    ev.Refresh? || ev.Override? || ev.Warmup?
  }

  /**
   From the history alone, when the rate now cached for a pair was computed: at
   the last quote of it that no earlier computation less than a minute old
   served, unless the base rates have been updated since or a prune found it a
   minute old.
   */
  function ComputedAt(rates: Rates, es: seq<Event>, from: string, to: string): Option<int> {
    if es == [] then None
    else
      var ev, known := es[|es| - 1], ComputedAt(rates, es[..|es| - 1], from, to);
      if IsUpdate(ev) then None
      else if Asks(ev, from, to) then
        if known.Some? && ev.at - known.value < 60_000 then known
        else if BothKnown(RatesAfter(rates, es[..|es| - 1]), from, to) then Some(ev.at)
        else known
      else if ev.Prune? && known.Some? && ev.at - known.value >= 60_000 then None
      else known
  }

  predicate BothKnown(rates: Rates, from: string, to: string) {
    from in rates && to in rates
  }

  /** What the cache holds for a pair. */
  function CachedTime(e: Engine, from: string, to: string): Option<int> {
    if Key(from, to) in e.computed then Some(e.computed[Key(from, to)].computedAt) else None
  }

  lemma {:induction false} QuoteTime(e: Engine, f: string, t: string, at: int, from: string, to: string)
    requires Sound(e) && Plain(f) && Plain(from)
    ensures CachedTime(Resolve(e, f, t, at).0, from, to) ==
            if !(f == from && t == to) then CachedTime(e, from, to)
            else if CachedTime(e, from, to).Some? && at - CachedTime(e, from, to).value < 60_000 then CachedTime(e, from, to)
            else if BothKnown(e.rates, from, to) then Some(at)
            else CachedTime(e, from, to)
  {
    PlainKeysDiffer(f, t, from, to);
  }

  lemma {:induction false} CachedSince(e: Engine, es: seq<Event>, from: string, to: string)
    requires Sound(e) && CacheAgrees(e) && e.computed == map[] && AllAdmitted(es) && Plain(from)
    ensures CachedTime(Run(e, es), from, to) == ComputedAt(e.rates, es, from, to)
  {
    if es != [] {
      var before, ev := es[..|es| - 1], es[|es| - 1];
      CachedSince(e, before, from, to);
      RunKeeps(e, before);
      RatesIgnoreQuotes(e, before);
      if ev.Quote? {
        QuoteTime(Run(e, before), ev.from, ev.to, ev.at, from, to);
      }
    }
  }

  /**
   In every run from start-up, a pair is served from the cache exactly when it
   was computed less than a minute ago and no base rate was updated since.
   */
  lemma {:induction false} ServedFromCacheExactly(e: Engine, es: seq<Event>, from: string, to: string, now: int)
    requires Sound(e) && CacheAgrees(e) && e.computed == map[] && AllAdmitted(es) && Plain(from)
    ensures var answer := Resolve(Run(e, es), from, to, now).1;
            (answer.Rate? && answer.source == FromCache) <==>
            ComputedAt(e.rates, es, from, to).Some? && now - ComputedAt(e.rates, es, from, to).value < 60_000
  {
    CachedSince(e, es, from, to);
  }

  // ---------- bounded drift ----------

  function Pow(x: real, k: nat): real {
    if k == 0 then 1.0 else x * Pow(x, k - 1)
  }

  /** The largest factors one accepted refresh can apply. */
  function Down(maxBps: int): real {
    1.0 - maxBps as real / 10000.0
  }

  function Up(maxBps: int): real {
    1.0 + maxBps as real / 10000.0
  }

  lemma {:induction false} TimesBound(q: real, o: real, p: real)
    requires o > 0.0
    ensures q <= p <==> q * o <= o * p
  {
    assert (p - q) * o == o * p - q * o;
    assert p - q < 0.0 ==> (p - q) * o < 0.0;
    assert p - q >= 0.0 ==> (p - q) * o >= 0.0;
  }

  lemma {:induction false} RatioBound(d: real, o: real, p: real)
    requires o > 0.0
    ensures d / o <= p <==> d <= o * p
  {
    TimesBound(d / o, o, p);
    assert d / o * o == d;
  }

  lemma {:induction false} Deviation(old_: real, new_: real, b: real)
    requires old_ > 0.0
    ensures Abs(new_ - old_) / old_ * 10000.0 <= b <==>
            old_ * (1.0 - b / 10000.0) <= new_ <= old_ * (1.0 + b / 10000.0)
  {
    var p := b / 10000.0;
    RatioBound(Abs(new_ - old_), old_, p);
    assert old_ * (1.0 - p) == old_ - old_ * p && old_ * (1.0 + p) == old_ + old_ * p;
  }

  /**
   The guard accepts a rate exactly when there is no old one, or none above
   zero, or the new one lies within the band around it.
   */
  lemma {:induction false} AcceptedBand(base: Rates, asset: string, newRate: real, maxBps: int)
    ensures Accepts(base, asset, newRate, maxBps) <==>
            || asset !in base
            || base[asset] <= 0.0
            || base[asset] * (1.0 - maxBps as real / 10000.0) <= newRate <= base[asset] * (1.0 + maxBps as real / 10000.0)
  {
    if asset in base && base[asset] > 0.0 {
      Deviation(base[asset], newRate, maxBps as real);
    }
  }

  predicate InBand(old_: real, new_: real, maxBps: int) {
    old_ * (1.0 - maxBps as real / 10000.0) <= new_ <= old_ * (1.0 + maxBps as real / 10000.0)
  }

  /**
   One refresh, asset by asset: a known rate is replaced exactly when the
   fetched one lies in the band; a new asset is taken as fetched; everything is
   in the new batch; and the replaced, the new and NGN are stamped.
   */
  lemma {:induction false} RefreshExactly(e: Engine, fetched: Rates, batchId: string, maxBps: int, now: int, a: string)
    requires Sound(e)
    ensures var d := Refreshed(e, fetched, batchId, maxBps, now);
            && d.computed == map[] && d.cachedAt == now
            && (a in d.rates <==> a in e.rates || a in fetched)
            && (a in d.rates ==> a in d.batchIds && d.batchIds[a] == batchId)
            && (a in fetched && (a !in e.rates || InBand(e.rates[a], fetched[a], maxBps)) ==>
                  d.rates[a] == fetched[a] && a in d.rateCachedAt && d.rateCachedAt[a] == now)
            && (a in e.rates && (a !in fetched || !InBand(e.rates[a], fetched[a], maxBps)) ==>
                  && d.rates[a] == e.rates[a]
                  && (a == "NGN" ==> a in d.rateCachedAt && d.rateCachedAt[a] == now)
                  && (a != "NGN" && a in e.rateCachedAt ==> a in d.rateCachedAt && d.rateCachedAt[a] == e.rateCachedAt[a]))
  {
    TakenExactly(e, fetched, maxBps, a);
    RefreshAsset(e, fetched, batchId, maxBps, now, a, a in AcceptedNames(fetched, e.rates, maxBps));
  }

  lemma {:induction false} TakenExactly(e: Engine, fetched: Rates, maxBps: int, a: string)
    requires Sound(e)
    ensures a in AcceptedNames(fetched, e.rates, maxBps) <==>
            a in fetched && (a !in e.rates || InBand(e.rates[a], fetched[a], maxBps))
  {
    if a in fetched {
      AcceptedBand(e.rates, a, fetched[a], maxBps);
    }
  }

  lemma {:induction false} RefreshAsset(e: Engine, fetched: Rates, batchId: string, maxBps: int, now: int, a: string, taken: bool)
    requires Sound(e) && (taken <==> a in AcceptedNames(fetched, e.rates, maxBps))
    ensures var d := Refreshed(e, fetched, batchId, maxBps, now);
            && d.computed == map[] && d.cachedAt == now
            && (a in d.rates <==> a in e.rates || taken)
            && (a in d.rates ==> a in d.batchIds && d.batchIds[a] == batchId)
            && (taken ==> a in fetched && d.rates[a] == fetched[a] && a in d.rateCachedAt && d.rateCachedAt[a] == now)
            && (a in e.rates && !taken ==>
                  && d.rates[a] == e.rates[a]
                  && (a == "NGN" ==> a in d.rateCachedAt && d.rateCachedAt[a] == now)
                  && (a != "NGN" && a in e.rateCachedAt ==> a in d.rateCachedAt && d.rateCachedAt[a] == e.rateCachedAt[a]))
  {
  }

  /** An override sets the named rates and leaves the others, stamps every asset and puts it in the new batch. */
  lemma {:induction false} OverrideExactly(e: Engine, forced: Rates, batchId: string, now: int, a: string)
    requires Sound(e)
    ensures var d := Next(e, Override(forced, batchId, now));
            && d.computed == map[] && d.cachedAt == now
            && (a in d.rates <==> a in e.rates || a in forced)
            && (a in forced ==> d.rates[a] == forced[a])
            && (a in e.rates && a !in forced ==> d.rates[a] == e.rates[a])
            && (a in d.rates ==> a in d.batchIds && d.batchIds[a] == batchId && a in d.rateCachedAt && d.rateCachedAt[a] == now)
  {
  }

  /** A warm-up writes the snapshot's assets and touches no other. */
  lemma {:induction false} WarmupExactly(e: Engine, snapshot: Rates, batchId: string, now: int, a: string)
    requires Sound(e)
    ensures var d := Next(e, Warmup(snapshot, batchId, now));
            && d.computed == map[] && d.cachedAt == now
            && (a in snapshot ==> a in d.rates && d.rates[a] == snapshot[a] && a in d.batchIds && d.batchIds[a] == batchId
                                  && a in d.rateCachedAt && d.rateCachedAt[a] == now)
            && (a !in snapshot ==> (a in d.rates <==> a in e.rates) && (a in e.rates ==> d.rates[a] == e.rates[a] && d.batchIds[a] == e.batchIds[a]))
            && (a !in snapshot && a in e.rateCachedAt ==> a in d.rateCachedAt && d.rateCachedAt[a] == e.rateCachedAt[a])
  {
  }

  lemma {:induction false} BandAround(r: real, q: real)
    requires r > 0.0 && 0.0 <= q < 1.0
    ensures r * (1.0 - q) <= r <= r * (1.0 + q) && r * (1.0 - q) > 0.0
  {
    assert r * q >= 0.0;
  }

  lemma {:induction false} BandWidth(r: real, maxBps: int)
    requires r > 0.0 && 0 <= maxBps < 10000
    ensures r * Down(maxBps) <= r <= r * Up(maxBps) && r * Down(maxBps) > 0.0
  {
    BandAround(r, maxBps as real / 10000.0);
  }

  lemma {:induction false} GuardedAt(base: Rates, fetched: Rates, maxBps: int, asset: string)
    requires asset in base
    ensures var after := Guarded(fetched, base, maxBps);
            asset in after &&
            after[asset] == if asset in fetched && Accepts(base, asset, fetched[asset], maxBps) then fetched[asset] else base[asset]
  {
  }

  /** One guarded refresh keeps a positive rate positive and inside the band, whatever was fetched. */
  lemma {:induction false} GuardBand(base: Rates, fetched: Rates, maxBps: int, asset: string)
    requires 0 <= maxBps < 10000 && asset in base && base[asset] > 0.0
    ensures var after := Guarded(fetched, base, maxBps);
            asset in after && after[asset] > 0.0 && base[asset] * Down(maxBps) <= after[asset] <= base[asset] * Up(maxBps)
  {
    BandWidth(base[asset], maxBps);
    GuardedAt(base, fetched, maxBps, asset);
    if asset in fetched {
      AcceptedBand(base, asset, fetched[asset], maxBps);
    }
  }

  function AfterFetches(base: Rates, fetches: seq<Rates>, maxBps: int): Rates {
    if fetches == [] then base
    else Guarded(fetches[|fetches| - 1], AfterFetches(base, fetches[..|fetches| - 1], maxBps), maxBps)
  }

  lemma {:induction false} MulKeeps(a: real, b: real, q: real)
    requires a <= b && q >= 0.0
    ensures a * q <= b * q
  {
  }

  lemma {:induction false} BandStep(r0: real, lo: real, hi: real, r: real, s: real, down: real, up: real)
    requires down > 0.0 && up > 0.0 && r0 * lo <= r <= r0 * hi
    requires r * down <= s <= r * up
    ensures r0 * (down * lo) <= s <= r0 * (up * hi)
  {
    MulKeeps(r0 * lo, r, down);
    MulKeeps(r, r0 * hi, up);
    assert r0 * (down * lo) == r0 * lo * down;
    assert r0 * (up * hi) == r0 * hi * up;
  }

  /** Within `k` compounded bands of the starting rate. */
  predicate Drifted(r0: real, down: real, up: real, k: nat, r: real) {
    r0 * Pow(down, k) <= r <= r0 * Pow(up, k)
  }

  lemma {:induction false} DriftedStep(r0: real, down: real, up: real, k: nat, r: real, s: real)
    requires down > 0.0 && up > 0.0 && Drifted(r0, down, up, k, r)
    requires r * down <= s <= r * up
    ensures Drifted(r0, down, up, k + 1, s)
  {
    BandStep(r0, Pow(down, k), Pow(up, k), r, s, down, up);
  }

  predicate DriftsWithin(base: Rates, end: Rates, maxBps: int, k: nat, asset: string) {
    asset in base && asset in end && end[asset] > 0.0 && Drifted(base[asset], Down(maxBps), Up(maxBps), k, end[asset])
  }

  lemma {:induction false} RefreshDrifts(base: Rates, before: Rates, fetched: Rates, maxBps: int, k: nat, asset: string)
    requires 0 <= maxBps < 10000 && DriftsWithin(base, before, maxBps, k, asset)
    ensures DriftsWithin(base, Guarded(fetched, before, maxBps), maxBps, k + 1, asset)
  {
    GuardBand(before, fetched, maxBps, asset);
    DriftedStep(base[asset], Down(maxBps), Up(maxBps), k, before[asset], Guarded(fetched, before, maxBps)[asset]);
  }

  /** However many refreshes are guarded, `k` of them move a rate by at most `k` bands, compounded. */
  lemma {:induction false} BoundedDrift(base: Rates, fetches: seq<Rates>, maxBps: int, asset: string)
    requires 0 <= maxBps < 10000 && asset in base && base[asset] > 0.0
    ensures DriftsWithin(base, AfterFetches(base, fetches, maxBps), maxBps, |fetches|, asset)
  {
    if fetches != [] {
      var n := |fetches| - 1;
      BoundedDrift(base, fetches[..n], maxBps, asset);
      RefreshDrifts(base, AfterFetches(base, fetches[..n], maxBps), fetches[n], maxBps, n, asset);
    }
  }

  /** The refreshes of a run. */
  function Refreshes(es: seq<Event>): nat {
    if es == [] then 0 else Refreshes(es[..|es| - 1]) + if es[|es| - 1].Refresh? then 1 else 0
  }

  /**
   The same over whole runs of the service: between overrides and warm-ups,
   with any quotes and prunes in between, a rate drifts by at most one band for
   each refresh, compounded, whatever was fetched.
   */
  lemma {:induction false} DriftOverRuns(e: Engine, es: seq<Event>, maxBps: int, asset: string)
    requires 0 <= maxBps < 10000 && asset in e.rates && e.rates[asset] > 0.0
    requires forall i :: 0 <= i < |es| ==>
               es[i].Quote? || es[i].Prune? || (es[i].Refresh? && es[i].maxBps == maxBps)
    ensures DriftsWithin(e.rates, Run(e, es).rates, maxBps, Refreshes(es), asset)
  {
    RatesIgnoreQuotes(e, es);
    DriftOfRates(e.rates, es, maxBps, asset);
  }

  lemma {:induction false} DriftOfRates(rates: Rates, es: seq<Event>, maxBps: int, asset: string)
    requires 0 <= maxBps < 10000 && asset in rates && rates[asset] > 0.0
    requires forall i :: 0 <= i < |es| ==>
               es[i].Quote? || es[i].Prune? || (es[i].Refresh? && es[i].maxBps == maxBps)
    ensures DriftsWithin(rates, RatesAfter(rates, es), maxBps, Refreshes(es), asset)
  {
    if es != [] {
      var before, ev := es[..|es| - 1], es[|es| - 1];
      DriftOfRates(rates, before, maxBps, asset);
      if ev.Refresh? {
        RefreshDrifts(rates, RatesAfter(rates, before), ev.fetched, maxBps, Refreshes(before), asset);
      }
    }
  }

  // ---------- the service's own objects ----------

  /** A plain object as its entries, in order. */
  predicate Distinct(entries: seq<(string, real)>) {
    forall i, j :: 0 <= i < j < |entries| ==> entries[i].0 != entries[j].0
  }

  function ObjectOf(entries: seq<(string, real)>): Rates {
    if entries == [] then map[]
    else ObjectOf(entries[..|entries| - 1])[entries[|entries| - 1].0 := entries[|entries| - 1].1]
  }

  /** The names the guard accepts, or rejects, in entry order. */
  function Sorted(entries: seq<(string, real)>, base: Rates, maxBps: int, accepted: bool): seq<string> {
    if entries == [] then []
    else
      var last := entries[|entries| - 1];
      Sorted(entries[..|entries| - 1], base, maxBps, accepted)
      + if Accepts(base, last.0, last.1, maxBps) == accepted then [last.0] else []
  }

  lemma {:induction false} ObjectKeys(entries: seq<(string, real)>, a: string)
    ensures a in ObjectOf(entries) <==> exists i :: 0 <= i < |entries| && entries[i].0 == a
  {
    if entries != [] {
      var n := |entries| - 1;
      ObjectKeys(entries[..n], a);
      if a in ObjectOf(entries[..n]) {
        var i :| 0 <= i < n && entries[..n][i].0 == a;
        assert entries[i].0 == a;
      }
      if i :| 0 <= i < |entries| && entries[i].0 == a {
        assert i < n ==> entries[..n][i].0 == a;
      }
    }
  }

  /** Every fetched asset is either accepted or rejected, exactly as the guard decides on its rate, and never both. */
  lemma {:induction false} GuardPartitions(entries: seq<(string, real)>, base: Rates, maxBps: int, a: string)
    requires Distinct(entries)
    ensures var fetched := ObjectOf(entries);
            && (a in Sorted(entries, base, maxBps, true) <==> a in fetched && Accepts(base, a, fetched[a], maxBps))
            && (a in Sorted(entries, base, maxBps, false) <==> a in fetched && !Accepts(base, a, fetched[a], maxBps))
            && |Sorted(entries, base, maxBps, true)| + |Sorted(entries, base, maxBps, false)| == |entries|
  {
    if entries != [] {
      var n := |entries| - 1;
      var before := entries[..n];
      GuardPartitions(before, base, maxBps, a);
      ObjectKeys(before, entries[n].0);
      assert entries[n].0 !in ObjectOf(before);
    }
  }

  lemma {:induction false} AcceptedAsSet(entries: seq<(string, real)>, base: Rates, maxBps: int)
    requires Distinct(entries)
    ensures (set a | a in Sorted(entries, base, maxBps, true)) == AcceptedNames(ObjectOf(entries), base, maxBps)
  {
    forall a {
      GuardPartitions(entries, base, maxBps, a);
    }
  }

  lemma {:induction false} GuardedEntry(fetched: Rates, base: Rates, maxBps: int, a: string, r: real)
    requires a !in fetched
    ensures Guarded(fetched[a := r], base, maxBps)
         == if Accepts(base, a, r, maxBps) then Guarded(fetched, base, maxBps)[a := r] else Guarded(fetched, base, maxBps)
  {
  }

  /** The guard's lists and merged rates with one more entry. */
  lemma {:induction false} GuardMore(entries: seq<(string, real)>, i: nat, base: Rates, maxBps: int)
    requires Distinct(entries) && i < |entries|
    ensures var (a, r) := entries[i];
            var accepted := Accepts(base, a, r, maxBps);
            var merged := Guarded(ObjectOf(entries[..i]), base, maxBps);
            && Guarded(ObjectOf(entries[..i + 1]), base, maxBps) == (if accepted then merged[a := r] else merged)
            && Sorted(entries[..i + 1], base, maxBps, true)
               == Sorted(entries[..i], base, maxBps, true) + (if accepted then [a] else [])
            && Sorted(entries[..i + 1], base, maxBps, false)
               == Sorted(entries[..i], base, maxBps, false) + (if accepted then [] else [a])
  {
    var (a, r) := entries[i];
    assert entries[..i + 1][..i] == entries[..i];
    ObjectKeys(entries[..i], a);
    GuardedEntry(ObjectOf(entries[..i]), base, maxBps, a, r);
  }

  /** The guard's test: accept without a check, or compare the deviation with the limit. */
  method WithinGuard(baseRates: Rates, asset: string, newRate: real, maxDeviationBps: int) returns (accepted: bool)
    ensures accepted == Accepts(baseRates, asset, newRate, maxDeviationBps)
  {
    if asset !in baseRates || baseRates[asset] <= 0.0 {
      return true;
    }
    var deviationBps := Abs(newRate - baseRates[asset]) / baseRates[asset] * 10000.0;
    return deviationBps <= maxDeviationBps as real;
  }

  /** `applyDeviationGuard`, with `rejected` holding the names alone. */
  method ApplyDeviationGuard(fetched: seq<(string, real)>, baseRates: Rates, maxDeviationBps: int)
    returns (merged: Rates, newlyFetched: seq<string>, rejected: seq<string>)
    requires Distinct(fetched)
    ensures merged == Guarded(ObjectOf(fetched), baseRates, maxDeviationBps)
    ensures newlyFetched == Sorted(fetched, baseRates, maxDeviationBps, true)
    ensures rejected == Sorted(fetched, baseRates, maxDeviationBps, false)
  {
    merged, newlyFetched, rejected := baseRates, [], [];
    for i := 0 to |fetched|
      invariant merged == Guarded(ObjectOf(fetched[..i]), baseRates, maxDeviationBps)
      invariant newlyFetched == Sorted(fetched[..i], baseRates, maxDeviationBps, true)
      invariant rejected == Sorted(fetched[..i], baseRates, maxDeviationBps, false)
    {
      var (asset, newRate) := fetched[i];
      GuardMore(fetched, i, baseRates, maxDeviationBps);
      var accepted := WithinGuard(baseRates, asset, newRate, maxDeviationBps);
      if accepted {
        merged, newlyFetched := merged[asset := newRate], newlyFetched + [asset];
      } else {
        rejected := rejected + [asset];
      }
    }
    assert fetched[..|fetched|] == fetched;
  }

  function AsSet(names: Option<seq<string>>): Option<set<string>> {
    if names.None? then None else Some(set a | a in names.value)
  }

  /** The cache's maps with the entries of `done` written over the old ones. */
  ghost predicate Written(rates0: Rates, ids0: map<string, string>, times0: map<string, int>,
                          rates: Rates, ids: map<string, string>, times: map<string, int>,
                          done: Rates, batchId: string, newly: Option<set<string>>, now: int)
  {
    rates == rates0 + done && ids == Batches(ids0, done, batchId) && times == Times(times0, done, newly, now)
  }

  lemma {:induction false} OneMoreBatch(ids: map<string, string>, done: Rates, batchId: string, c: string, r: real)
    ensures Batches(ids, done[c := r], batchId) == Batches(ids, done, batchId)[c := batchId]
  {
  }

  lemma {:induction false} OneMoreTime(times: map<string, int>, done: Rates, newly: Option<set<string>>, now: int, c: string, r: real)
    ensures Times(times, done[c := r], newly, now)
         == if IsNew(c, newly) then Times(times, done, newly, now)[c := now] else Times(times, done, newly, now)
  {
  }

  lemma {:induction false} OneMoreRate(rates: Rates, done: Rates, c: string, r: real)
    ensures rates + done[c := r] == (rates + done)[c := r]
  {
  }

  lemma {:induction false} WriteOneMore(rates0: Rates, ids0: map<string, string>, times0: map<string, int>,
                     rates: Rates, ids: map<string, string>, times: map<string, int>,
                     done: Rates, batchId: string, newly: Option<set<string>>, now: int, c: string, r: real)
    requires Written(rates0, ids0, times0, rates, ids, times, done, batchId, newly, now)
    ensures Written(rates0, ids0, times0, rates[c := r], ids[c := batchId], if IsNew(c, newly) then times[c := now] else times,
                    done[c := r], batchId, newly, now)
  {
    OneMoreBatch(ids0, done, batchId, c, r);
    OneMoreTime(times0, done, newly, now, c, r);
    OneMoreRate(rates0, done, c, r);
  }

  /** The in-memory cache and the computed-pair cache, changed in place. */
  class FxEngine {
    var rates: Rates
    var batchIds: map<string, string>
    var rateCachedAt: map<string, int>
    var cachedAt: int
    var computedRateCache: map<string, Entry>

    ghost function Contents(): Engine
      reads this
    {
      Engine(rates, batchIds, rateCachedAt, cachedAt, computedRateCache)
    }

    /** What every reachable state has: positive rates in batches, and a cache that agrees with them. */
    ghost predicate Valid()
      reads this
    {
      Sound(Contents()) && CacheAgrees(Contents())
    }

    /** Start-up: the fallback rates, one batch, nothing computed. */
    constructor (initialBatchId: string, now: int)
      requires initialBatchId != ""
      ensures Valid() && computedRateCache == map[] && OneBatch(Contents(), initialBatchId) && cachedAt == now
      ensures rates == map["USDC" := 1545.5, "EURT" := 1680.2, "NGN" := 1.0]
      ensures rateCachedAt == map["USDC" := now, "EURT" := now, "NGN" := now]
    {
      rates := map["USDC" := 1545.5, "EURT" := 1680.2, "NGN" := 1.0];
      batchIds := map["USDC" := initialBatchId, "EURT" := initialBatchId, "NGN" := initialBatchId];
      rateCachedAt := map["USDC" := now, "EURT" := now, "NGN" := now];
      cachedAt, computedRateCache := now, map[];
    }

    /** `resolvePairRate`: whatever the cache holds, the answer is the live quotient or the missing asset. */
    method ResolvePairRate(from: string, to: string, now: int) returns (answer: Answer)
      requires Valid() && Plain(from)
      modifies `computedRateCache
      ensures Valid() && (Contents(), answer) == Resolve(old(Contents()), from, to, now)
      ensures answer.Rate? ==> from in rates && to in rates && rates[to] != 0.0 && answer.rate == rates[from] / rates[to]
      ensures !answer.Rate? ==> answer == NoBatch(if from in rates then to else from) && !(from in rates && to in rates)
    {
      QuoteKeepsCache(Contents(), from, to, now);
      var key := Key(from, to);
      if key in computedRateCache && now - computedRateCache[key].computedAt < RATE_TTL_MS {
        return Rate(computedRateCache[key].rate, FromCache);
      }
      if from !in batchIds || batchIds[from] == "" {
        return NoBatch(from);
      }
      if to !in batchIds || batchIds[to] == "" {
        return NoBatch(to);
      }
      var rate := rates[from] / rates[to];
      computedRateCache := computedRateCache[key := Entry(rate, now)];
      return Rate(rate, Live);
    }

    /** `pruneExpiredComputedRates`. */
    method PruneExpiredComputedRates(now: int)
      requires Valid()
      modifies `computedRateCache
      ensures Valid() && Contents() == Pruned(old(Contents()), now)
      ensures forall k :: k in computedRateCache <==> k in old(computedRateCache) && now - old(computedRateCache)[k].computedAt < 60_000
    {
      var todo := computedRateCache.Keys;
      while todo != {}
        invariant todo <= computedRateCache.Keys <= old(computedRateCache).Keys
        invariant forall k :: k in computedRateCache ==> computedRateCache[k] == old(computedRateCache)[k]
        invariant forall k :: k in computedRateCache && k !in todo ==> now - computedRateCache[k].computedAt < RATE_TTL_MS
        invariant forall k :: k in old(computedRateCache) && k !in computedRateCache ==>
                    now - old(computedRateCache)[k].computedAt >= RATE_TTL_MS
        decreases todo
      {
        var key :| key in todo;
        if now - computedRateCache[key].computedAt >= RATE_TTL_MS {
          computedRateCache := computedRateCache - {key};
        }
        todo := todo - {key};
      }
    }

    method WriteEntry(currency: string, value: real, batchId: string, newlyFetched: Option<seq<string>>, now: int)
      modifies `rates, `batchIds, `rateCachedAt
      ensures rates == old(rates)[currency := value] && batchIds == old(batchIds)[currency := batchId]
      ensures rateCachedAt == if IsNew(currency, AsSet(newlyFetched)) then old(rateCachedAt)[currency := now] else old(rateCachedAt)
    {
      rates := rates[currency := value];
      batchIds := batchIds[currency := batchId];
      if newlyFetched.None? || currency in newlyFetched.value || currency == BASE {
        rateCachedAt := rateCachedAt[currency := now];
      }
    }

    /** The loop of `updateBaseRates`. */
    method WriteEntries(updated: Rates, batchId: string, newlyFetched: Option<seq<string>>, now: int)
      modifies `rates, `batchIds, `rateCachedAt
      ensures Written(old(rates), old(batchIds), old(rateCachedAt), rates, batchIds, rateCachedAt,
                      updated, batchId, AsSet(newlyFetched), now)
    {
      ghost var done: Rates := map[];
      var todo := updated.Keys;
      while todo != {}
        invariant todo <= updated.Keys && done.Keys == updated.Keys - todo
        invariant forall a :: a in done ==> done[a] == updated[a]
        invariant Written(old(rates), old(batchIds), old(rateCachedAt), rates, batchIds, rateCachedAt,
                          done, batchId, AsSet(newlyFetched), now)
        decreases todo
      {
        var currency :| currency in todo;
        WriteOneMore(old(rates), old(batchIds), old(rateCachedAt), rates, batchIds, rateCachedAt,
                     done, batchId, AsSet(newlyFetched), now, currency, updated[currency]);
        WriteEntry(currency, updated[currency], batchId, newlyFetched, now);
        todo, done := todo - {currency}, done[currency := updated[currency]];
      }
      assert done == updated;
    }

    /** `updateBaseRates`, with one clock reading; storing the snapshot is not modelled. */
    method UpdateBaseRates(updated: Rates, batchId: string, newlyFetched: Option<seq<string>>, now: int)
      requires Valid() && Positive(updated) && batchId != ""
      modifies this
      ensures Valid()
      ensures Contents() == Updated(old(Contents()), updated, batchId, AsSet(newlyFetched), now)
    {
      UpdateKeepsSound(Contents(), updated, batchId, AsSet(newlyFetched), now);
      WriteEntries(updated, batchId, newlyFetched, now);
      cachedAt, computedRateCache := now, map[];
    }

    /** The refresh tick once `fetchBaseRates` has answered. */
    method Refresh(fetched: seq<(string, real)>, batchId: string, maxDeviationBps: int, now: int)
      requires Valid() && Distinct(fetched) && Positive(ObjectOf(fetched)) && batchId != ""
      modifies this
      ensures Valid() && Contents() == Refreshed(old(Contents()), ObjectOf(fetched), batchId, maxDeviationBps, now)
    {
      var merged, newlyFetched, rejected := ApplyDeviationGuard(fetched, rates, maxDeviationBps);
      GuardedPositive(ObjectOf(fetched), rates, maxDeviationBps);
      AcceptedAsSet(fetched, rates, maxDeviationBps);
      UpdateBaseRates(merged, batchId, Some(newlyFetched), now);
    }

    /** The admin override. */
    method Override(forced: Rates, batchId: string, now: int)
      requires Valid() && Positive(forced) && batchId != ""
      modifies this
      ensures Valid() && Contents() == Updated(old(Contents()), old(rates) + forced, batchId, None, now)
    {
      UpdateBaseRates(rates + forced, batchId, None, now);
    }
  }
}
