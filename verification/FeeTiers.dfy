/** Volume discount tiers; a configured discount may be fractional. */
module FeeTiers {

  datatype Tier = Tier(volumeUsd: real, discountBps: real)

  /** Stable insertion into a list sorted by falling threshold. */
  function InsertTier(t: Tier, ts: seq<Tier>): (r: seq<Tier>) {
    if ts == [] || ts[0].volumeUsd <= t.volumeUsd then [t] + ts
    else [ts[0]] + InsertTier(t, ts[1..])
  }

  /** `[...tiers].sort((a, b) => b.volumeUsd - a.volumeUsd)`, a stable sort. */
  function SortTiers(ts: seq<Tier>): seq<Tier> {
    if ts == [] then [] else InsertTier(ts[0], SortTiers(ts[1..]))
  }

  function FirstReached(volume: real, ts: seq<Tier>): real {
    if ts == [] then 0.0
    else if volume >= ts[0].volumeUsd then ts[0].discountBps
    else FirstReached(volume, ts[1..])
  }

  function ResolveVolumeDiscount(volume: real, tiers: seq<Tier>): real {
    if tiers == [] || volume <= 0.0 then 0.0 else FirstReached(volume, SortTiers(tiers))
  }

  predicate ValidTiers(tiers: seq<Tier>) {
    forall i :: 0 <= i < |tiers| ==> tiers[i].discountBps >= 0.0
  }

  lemma {:induction false} InsertTierValid(t: Tier, ts: seq<Tier>)
    requires ValidTiers(ts) && t.discountBps >= 0.0
    ensures ValidTiers(InsertTier(t, ts))
  {
    if ts != [] && ts[0].volumeUsd > t.volumeUsd {
      InsertTierValid(t, ts[1..]);
    }
  }

  lemma {:induction false} SortTiersValid(ts: seq<Tier>)
    requires ValidTiers(ts)
    ensures ValidTiers(SortTiers(ts))
  {
    if ts != [] {
      SortTiersValid(ts[1..]);
      InsertTierValid(ts[0], SortTiers(ts[1..]));
    }
  }

  lemma {:induction false} FirstReachedValid(volume: real, ts: seq<Tier>)
    requires ValidTiers(ts)
    ensures FirstReached(volume, ts) >= 0.0
  {
    if ts != [] {
      FirstReachedValid(volume, ts[1..]);
    }
  }

  /** Tier i wins: its threshold is reached, none reached is higher, and none as high stands before it. */
  predicate Wins(volume: real, tiers: seq<Tier>, i: nat)
    requires i < |tiers|
  {
    && volume >= tiers[i].volumeUsd
    && (forall j :: 0 <= j < |tiers| && volume >= tiers[j].volumeUsd ==> tiers[j].volumeUsd <= tiers[i].volumeUsd)
    && (forall j :: 0 <= j < i ==> tiers[j].volumeUsd != tiers[i].volumeUsd)
  }

  predicate Falling(ts: seq<Tier>) {
    forall i, j :: 0 <= i < j < |ts| ==> ts[i].volumeUsd >= ts[j].volumeUsd
  }

  lemma {:induction false} InsertTierFalling(t: Tier, ts: seq<Tier>)
    requires Falling(ts)
    ensures Falling(InsertTier(t, ts))
  {
    if ts != [] && ts[0].volumeUsd > t.volumeUsd {
      InsertTierFalling(t, ts[1..]);
      var r := InsertTier(t, ts[1..]);
      forall i | 0 <= i < |r| ensures ts[0].volumeUsd >= r[i].volumeUsd {
        InsertTierMember(t, ts[1..], r[i]);
      }
    }
  }

  lemma {:induction false} InsertTierMember(t: Tier, ts: seq<Tier>, x: Tier)
    ensures x in InsertTier(t, ts) <==> x == t || x in ts
  {
    if ts != [] && ts[0].volumeUsd > t.volumeUsd {
      InsertTierMember(t, ts[1..], x);
      assert x in ts <==> x == ts[0] || x in ts[1..];
    }
  }

  lemma {:induction false} SortTiersFalling(ts: seq<Tier>)
    ensures Falling(SortTiers(ts))
    ensures forall x :: x in SortTiers(ts) <==> x in ts
  {
    if ts != [] {
      SortTiersFalling(ts[1..]);
      InsertTierFalling(ts[0], SortTiers(ts[1..]));
      forall x ensures x in SortTiers(ts) <==> x in ts {
        InsertTierMember(ts[0], SortTiers(ts[1..]), x);
        assert x in ts <==> x == ts[0] || x in ts[1..];
      }
    }
  }

  /** Putting a tier in front of a sorted list changes the winner exactly when its threshold is reached and is not below the old winner's. */
  lemma {:induction false} FirstReachedInsert(volume: real, t: Tier, ts: seq<Tier>)
    requires Falling(ts)
    ensures volume < t.volumeUsd ==> FirstReached(volume, InsertTier(t, ts)) == FirstReached(volume, ts)
    ensures volume >= t.volumeUsd && (forall i :: 0 <= i < |ts| && volume >= ts[i].volumeUsd ==> ts[i].volumeUsd <= t.volumeUsd) ==>
              FirstReached(volume, InsertTier(t, ts)) == t.discountBps
    ensures volume >= t.volumeUsd && (exists i :: 0 <= i < |ts| && volume >= ts[i].volumeUsd && ts[i].volumeUsd > t.volumeUsd) ==>
              FirstReached(volume, InsertTier(t, ts)) == FirstReached(volume, ts)
  {
    if ts != [] && ts[0].volumeUsd > t.volumeUsd {
      FirstReachedInsert(volume, t, ts[1..]);
    }
  }

  /** The discount is that of the winning tier: sorting and scanning find the highest reached threshold, the earliest one on a tie. */
  lemma {:induction false} DiscountOfWinner(volume: real, tiers: seq<Tier>, i: nat)
    requires volume > 0.0 && i < |tiers| && Wins(volume, tiers, i)
    ensures ResolveVolumeDiscount(volume, tiers) == tiers[i].discountBps
  {
    var rest := tiers[1..];
    var sorted := SortTiers(rest);
    SortTiersFalling(rest);
    FirstReachedInsert(volume, tiers[0], sorted);
    if i == 0 {
      forall j | 0 <= j < |sorted| && volume >= sorted[j].volumeUsd ensures sorted[j].volumeUsd <= tiers[0].volumeUsd {
        assert sorted[j] in rest;
      }
    } else {
      assert Wins(volume, rest, i - 1);
      DiscountOfWinner(volume, rest, i - 1);
      assert rest[i - 1] in sorted;
      var k :| 0 <= k < |sorted| && sorted[k] == rest[i - 1];
      assert volume >= tiers[0].volumeUsd ==> sorted[k].volumeUsd > tiers[0].volumeUsd;
    }
  }

  /** No volume or no tier reached, no discount. */
  lemma {:induction false} NoDiscount(volume: real, tiers: seq<Tier>)
    requires volume <= 0.0 || forall i :: 0 <= i < |tiers| ==> volume < tiers[i].volumeUsd
    ensures ResolveVolumeDiscount(volume, tiers) == 0.0
  {
    if volume > 0.0 {
      SortTiersFalling(tiers);
      var sorted := SortTiers(tiers);
      forall j | 0 <= j < |sorted| ensures volume < sorted[j].volumeUsd {
        assert sorted[j] in tiers;
      }
      NoneReached(volume, sorted);
    }
  }

  lemma {:induction false} NoneReached(volume: real, ts: seq<Tier>)
    requires forall i :: 0 <= i < |ts| ==> volume < ts[i].volumeUsd
    ensures FirstReached(volume, ts) == 0.0
  {
    if ts != [] {
      NoneReached(volume, ts[1..]);
    }
  }

  predicate DistinctThresholds(ts: seq<Tier>) {
    forall i, j :: 0 <= i < j < |ts| ==> ts[i].volumeUsd != ts[j].volumeUsd
  }

  /** Some tier wins as soon as one is reached. */
  lemma {:induction false} WinnerExists(volume: real, tiers: seq<Tier>, k: nat) returns (w: nat)
    requires k < |tiers| && volume >= tiers[k].volumeUsd
    ensures w < |tiers| && Wins(volume, tiers, w)
  {
    w := k;
    for j := 0 to |tiers|
      invariant w < |tiers| && volume >= tiers[w].volumeUsd
      invariant forall i :: 0 <= i < j && volume >= tiers[i].volumeUsd ==> tiers[i].volumeUsd <= tiers[w].volumeUsd
      invariant forall i :: 0 <= i < j && i < w ==> tiers[i].volumeUsd != tiers[w].volumeUsd
    {
      if volume >= tiers[j].volumeUsd &&
         (tiers[j].volumeUsd > tiers[w].volumeUsd || (tiers[j].volumeUsd == tiers[w].volumeUsd && j < w)) {
        w := j;
      }
    }
  }

  /** With different thresholds the order in which tiers are configured is irrelevant. */
  lemma {:induction false} TierOrderIrrelevant(volume: real, a: seq<Tier>, b: seq<Tier>)
    requires multiset(a) == multiset(b) && DistinctThresholds(a) && DistinctThresholds(b)
    ensures ResolveVolumeDiscount(volume, a) == ResolveVolumeDiscount(volume, b)
  {
    forall t: Tier ensures t in a <==> t in b {
      assert t in multiset(a) <==> t in multiset(b);
    }
    if volume > 0.0 {
      if k :| 0 <= k < |a| && volume >= a[k].volumeUsd {
        var w := WinnerExists(volume, a, k);
        assert a[w] in b;
        var v :| 0 <= v < |b| && b[v] == a[w];
        forall j | 0 <= j < |b| && volume >= b[j].volumeUsd ensures b[j].volumeUsd <= b[v].volumeUsd {
          assert b[j] in a;
        }
        DiscountOfWinner(volume, a, w);
        DiscountOfWinner(volume, b, v);
      } else {
        forall j | 0 <= j < |b| ensures volume < b[j].volumeUsd {
          assert b[j] in a;
        }
        NoDiscount(volume, a);
        NoDiscount(volume, b);
      }
    } else {
      assert a == [] || volume <= 0.0;
    }
  }
}
