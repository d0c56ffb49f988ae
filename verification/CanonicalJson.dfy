/** `canonicalize` of shared/webhook-delivery: deterministic JSON with sorted keys. */
module CanonicalJson {
  import opened Options
  import opened Text
  import opened JsonStrings
  import opened JsonNumbers
  import opened Json

  // ---------- the serializer ----------

  /** Values `JSON.stringify` would keep. */
  predicate IsJsonValue(v: Value) {
    !v.Dropped?
  }

  function Kept(ms: seq<Member>): (r: seq<Member>)
    ensures forall m :: m in r ==> m in ms && IsJsonValue(m.value)
  {
    if ms == [] then []
    else if IsJsonValue(ms[0].value) then [ms[0]] + Kept(ms[1..])
    else Kept(ms[1..])
  }

  function InsertByKey(m: Member, ms: seq<Member>): (r: seq<Member>)
    ensures forall x :: x in r <==> x == m || x in ms
  {
    if ms == [] || !Before(ms[0].key, m.key) then [m] + ms
    else [ms[0]] + InsertByKey(m, ms[1..])
  }

  function SortByKey(ms: seq<Member>): (r: seq<Member>)
    ensures forall x :: x in r <==> x in ms
  {
    if ms == [] then [] else InsertByKey(ms[0], SortByKey(ms[1..]))
  }

  /** `serializeCanonical`; the source never calls it on a value JSON drops. */
  function Serialize(v: Value): Text
    requires IsJsonValue(v)
    decreases v, 1, 0
  {
    match v
    case Null => NULL_WORD
    case Arr(items) => [OPEN_BRACKET] + SerializeItems(items) + [CLOSE_BRACKET]
    case Obj(ms) => [OPEN_BRACE] + SerializeMembers(v, SortByKey(Kept(ms))) + [CLOSE_BRACE]
    case Num(t) => t
    case NonFinite => NULL_WORD
    case Bool(b) => if b then TRUE_WORD else FALSE_WORD
    case Str(t) => Quote(t)
  }

  function SerializeItem(v: Value): Text
    decreases v, 2, 0
  {
    if IsJsonValue(v) then Serialize(v) else NULL_WORD
  }

  /** The items joined by commas. */
  function SerializeItems(items: seq<Value>): Text
    decreases items, 0, 0
  {
    if items == [] then []
    else if |items| == 1 then SerializeItem(items[0])
    else SerializeItem(items[0]) + [COMMA] + SerializeItems(items[1..])
  }

  /** Members of `parent`, joined by commas. */
  function SerializeMembers(parent: Value, ms: seq<Member>): Text
    requires forall m :: m in ms ==> m.value < parent && IsJsonValue(m.value)
    decreases parent, 0, |ms|
  {
    if ms == [] then []
    else
      var first := Quote(ms[0].key) + [COLON] + Serialize(ms[0].value);
      if |ms| == 1 then first else first + [COMMA] + SerializeMembers(parent, ms[1..])
  }

  /** `canonicalize`; for a dropped value `JSON.stringify` yields no string at all. */
  function Canonicalize(v: Value): Option<Text> {
    if IsJsonValue(v) then Some(Serialize(v)) else None
  }

  // ---------- meaning ----------

  /** The value a member name denotes; a dropped member denotes nothing. */
  function Lookup(ms: seq<Member>, key: Text): (r: Option<Value>)
    ensures r.Some? ==> exists i :: 0 <= i < |ms| && ms[i] == Member(key, r.value)
    ensures r.Some? ==> IsJsonValue(r.value)
  {
    if ms == [] then None
    else if ms[0].key == key && IsJsonValue(ms[0].value) then
      assert ms[0] == Member(key, ms[0].value);
      Some(ms[0].value)
    else
      Lookup(ms[1..], key)
  }

  /** Values every JSON text can only say as null. */
  predicate NullLike(v: Value) {
    v.Null? || v.NonFinite? || v.Dropped?
  }

  /**
   Semantic equality, defined without any order on keys: objects agree when
   every name denotes the same value in both, arrays agree item by item.
   */
  ghost predicate SameJson(v: Value, w: Value)
    decreases v
  {
    if NullLike(v) || NullLike(w) then NullLike(v) && NullLike(w)
    else
      match v
      case Bool(b) => w == v
      case Num(t) => w == v
      case Str(t) => w == v
      case Arr(items) =>
        w.Arr? && |items| == |w.items| && forall i :: 0 <= i < |items| ==> SameJson(items[i], w.items[i])
      case Obj(ms) =>
        w.Obj? && forall key: Text :: SameEntry(v, Lookup(ms, key), Lookup(w.members, key))
  }

  ghost predicate SameEntry(parent: Value, a: Option<Value>, b: Option<Value>)
    requires a.Some? ==> a.value < parent
    decreases parent, 0
  {
    (a.Some? <==> b.Some?) && (a.Some? ==> SameJson(a.value, b.value))
  }

  // ---------- the normal form ----------

  /** The value the canonical text denotes: dropped members gone, keys sorted, null for what JSON cannot say. */
  function Normalize(v: Value): (r: Value)
    ensures IsJsonValue(r)
  {
    match v
    case Arr(items) => Arr(NormalizeItems(items))
    case Obj(ms) => Obj(NormalizeMembers(ms))
    case NonFinite => Null
    case Dropped => Null
    case _ => v
  }

  function NormalizeItems(items: seq<Value>): (r: seq<Value>)
    ensures |r| == |items| && forall i :: 0 <= i < |items| ==> r[i] == Normalize(items[i])
  {
    if items == [] then [] else [Normalize(items[0])] + NormalizeItems(items[1..])
  }

  function NormalizeMembers(ms: seq<Member>): seq<Member> {
    if ms == [] then []
    else if IsJsonValue(ms[0].value) then
      InsertByKey(Member(ms[0].key, Normalize(ms[0].value)), NormalizeMembers(ms[1..]))
    else NormalizeMembers(ms[1..])
  }

  predicate Sorted(ms: seq<Member>) {
    forall i, j :: 0 <= i < j < |ms| ==> Before(ms[i].key, ms[j].key)
  }

  // ---------- the serializer prints the normal form ----------

  /** The members as they are, each value normalized. */
  function NormalizeEach(ms: seq<Member>): (r: seq<Member>)
    ensures |r| == |ms|
  {
    if ms == [] then [] else [Member(ms[0].key, Normalize(ms[0].value))] + NormalizeEach(ms[1..])
  }

  lemma {:induction false} NormalizeEachInsert(m: Member, ms: seq<Member>)
    ensures NormalizeEach(InsertByKey(m, ms)) == InsertByKey(Member(m.key, Normalize(m.value)), NormalizeEach(ms))
  {
    if ms == [] || !Before(ms[0].key, m.key) {
      assert ([m] + ms)[1..] == ms;
    } else {
      NormalizeEachInsert(m, ms[1..]);
      assert ([ms[0]] + InsertByKey(m, ms[1..]))[1..] == InsertByKey(m, ms[1..]);
    }
  }

  lemma {:induction false} NormalizeEachSorted(ms: seq<Member>)
    ensures NormalizeEach(SortByKey(Kept(ms))) == NormalizeMembers(ms)
  {
    if ms != [] {
      NormalizeEachSorted(ms[1..]);
      if IsJsonValue(ms[0].value) {
        assert Kept(ms)[1..] == Kept(ms[1..]);
        NormalizeEachInsert(ms[0], SortByKey(Kept(ms[1..])));
      }
    }
  }

  lemma {:induction false} SerializePrints(v: Value)
    requires IsJsonValue(v)
    ensures Serialize(v) == Print(Normalize(v))
    decreases v, 1, 0
  {
    match v
    case Arr(items) => SerializeItemsPrints(items);
    case Obj(ms) =>
      SerializeMembersPrints(v, SortByKey(Kept(ms)));
      NormalizeEachSorted(ms);
    case _ =>
  }

  lemma {:induction false} SerializeItemsPrints(items: seq<Value>)
    ensures SerializeItems(items) == PrintItems(NormalizeItems(items))
    decreases items, 0, 0
  {
    if items != [] {
      if IsJsonValue(items[0]) {
        SerializePrints(items[0]);
      }
      assert SerializeItem(items[0]) == Print(Normalize(items[0]));
      assert NormalizeItems(items)[1..] == NormalizeItems(items[1..]);
      SerializeItemsPrints(items[1..]);
    }
  }

  lemma {:induction false} SerializeMembersPrints(parent: Value, ms: seq<Member>)
    requires forall m :: m in ms ==> m.value < parent && IsJsonValue(m.value)
    ensures SerializeMembers(parent, ms) == PrintMembers(NormalizeEach(ms))
    decreases parent, 0, |ms|
  {
    if ms != [] {
      SerializePrints(ms[0].value);
      assert NormalizeEach(ms)[1..] == NormalizeEach(ms[1..]);
      SerializeMembersPrints(parent, ms[1..]);
    }
  }

  // ---------- the normal form is plain and sorted ----------

  lemma {:induction false} InsertFresh(m: Member, ms: seq<Member>, key: Text)
    requires FreshKey(ms, key) && m.key != key
    ensures FreshKey(InsertByKey(m, ms), key)
  {
    var r := InsertByKey(m, ms);
    forall i | 0 <= i < |r| ensures r[i].key != key {
      assert r[i] in r;
    }
  }

  lemma {:induction false} NormalizeFresh(ms: seq<Member>, key: Text)
    requires FreshKey(ms, key)
    ensures FreshKey(NormalizeMembers(ms), key)
  {
    if ms != [] {
      NormalizeFresh(ms[1..], key);
      if IsJsonValue(ms[0].value) {
        InsertFresh(Member(ms[0].key, Normalize(ms[0].value)), NormalizeMembers(ms[1..]), key);
      }
    }
  }

  lemma {:induction false} InsertSorted(m: Member, ms: seq<Member>)
    requires Sorted(ms) && FreshKey(ms, m.key)
    ensures Sorted(InsertByKey(m, ms))
  {
    if ms != [] {
      BeforeTotal(ms[0].key, m.key);
      if Before(ms[0].key, m.key) {
        InsertSorted(m, ms[1..]);
        var r := InsertByKey(m, ms[1..]);
        forall i | 0 <= i < |r| ensures Before(ms[0].key, r[i].key) {
          assert r[i] in r;
        }
      } else {
        forall i | 0 <= i < |ms| ensures Before(m.key, ms[i].key) {
          if i > 0 {
            BeforeTransitive(m.key, ms[0].key, ms[i].key);
          }
        }
      }
    }
  }

  lemma {:induction false} SortedDistinct(ms: seq<Member>)
    requires Sorted(ms)
    ensures DistinctKeys(ms)
  {
    forall i, j | 0 <= i < j < |ms| ensures ms[i].key != ms[j].key {
      BeforeTotal(ms[i].key, ms[j].key);
      BeforeTotal(ms[i].key, ms[i].key);
    }
  }

  predicate WellFormedMembers(ms: seq<Member>) {
    DistinctKeys(ms) && forall i :: 0 <= i < |ms| ==> WellFormed(ms[i].value)
  }

  lemma {:induction false} NormalizePlain(v: Value)
    requires WellFormed(v)
    ensures Plain(Normalize(v))
    decreases v, 1
  {
    match v
    case Arr(items) =>
      forall i | 0 <= i < |items| ensures Plain(Normalize(items[i])) { NormalizePlain(items[i]); }
    case Obj(ms) =>
      NormalizeMembersPlain(ms);
      SortedDistinct(NormalizeMembers(ms));
    case _ =>
  }

  lemma {:induction false} NormalizeMembersPlain(ms: seq<Member>)
    requires WellFormedMembers(ms)
    ensures Sorted(NormalizeMembers(ms)) && PlainMembers(NormalizeMembers(ms))
    decreases ms, 0
  {
    if ms != [] {
      NormalizeMembersPlain(ms[1..]);
      if IsJsonValue(ms[0].value) {
        NormalizePlain(ms[0].value);
        NormalizeFresh(ms[1..], ms[0].key);
        var m, rest := Member(ms[0].key, Normalize(ms[0].value)), NormalizeMembers(ms[1..]);
        InsertSorted(m, rest);
        var r := InsertByKey(m, rest);
        forall i | 0 <= i < |r| ensures Plain(r[i].value) {
          assert r[i] in r;
        }
      }
    }
  }

  // ---------- the normal form decides semantic equality ----------

  lemma {:induction false} LookupInsert(m: Member, ms: seq<Member>, key: Text)
    requires IsJsonValue(m.value) && FreshKey(ms, m.key)
    ensures Lookup(InsertByKey(m, ms), key) == if key == m.key then Some(m.value) else Lookup(ms, key)
  {
    if ms == [] || !Before(ms[0].key, m.key) {
      assert ([m] + ms)[1..] == ms;
    } else {
      LookupInsert(m, ms[1..], key);
      assert ([ms[0]] + InsertByKey(m, ms[1..]))[1..] == InsertByKey(m, ms[1..]);
    }
  }

  /** Normalizing the members normalizes what each name denotes. */
  lemma {:induction false} LookupNormalized(ms: seq<Member>, key: Text)
    requires DistinctKeys(ms)
    ensures Lookup(NormalizeMembers(ms), key) ==
            match Lookup(ms, key) case None => None case Some(x) => Some(Normalize(x))
  {
    if ms != [] {
      LookupNormalized(ms[1..], key);
      if IsJsonValue(ms[0].value) {
        NormalizeFresh(ms[1..], ms[0].key);
        LookupInsert(Member(ms[0].key, Normalize(ms[0].value)), NormalizeMembers(ms[1..]), key);
      } else if key == ms[0].key {
        LookupFresh(ms[1..], key);
      }
    }
  }

  lemma {:induction false} LookupFresh(ms: seq<Member>, key: Text)
    requires FreshKey(ms, key)
    ensures Lookup(ms, key) == None
  {
    if ms != [] {
      LookupFresh(ms[1..], key);
    }
  }

  predicate AllKept(ms: seq<Member>) {
    forall i :: 0 <= i < |ms| ==> IsJsonValue(ms[i].value)
  }

  /** Two sorted member lists in which every name denotes the same value are one list. */
  lemma {:induction false} SortedUnique(a: seq<Member>, b: seq<Member>)
    requires Sorted(a) && Sorted(b) && AllKept(a) && AllKept(b)
    requires forall key: Text :: Lookup(a, key) == Lookup(b, key)
    ensures a == b
  {
    assert a != [] ==> Lookup(a, a[0].key) == Some(a[0].value);
    assert b != [] ==> Lookup(b, b[0].key) == Some(b[0].value);
    if a != [] && b != [] {
      BeforeTotal(a[0].key, b[0].key);
      HeadIsLeast(b, a[0].key);
      HeadIsLeast(a, b[0].key);
      assert a[0].key == b[0].key;
      assert Lookup(a, a[0].key) == Some(a[0].value) && Lookup(b, a[0].key) == Some(b[0].value);
      TailFresh(a);
      TailFresh(b);
      LookupFresh(a[1..], a[0].key);
      LookupFresh(b[1..], a[0].key);
      forall key: Text ensures Lookup(a[1..], key) == Lookup(b[1..], key) {
        assert Lookup(a, key) == Lookup(b, key);
      }
      SortedUnique(a[1..], b[1..]);
    }
  }

  lemma {:induction false} TailFresh(ms: seq<Member>)
    requires Sorted(ms) && ms != []
    ensures FreshKey(ms[1..], ms[0].key)
  {
    SortedDistinct(ms);
  }

  lemma {:induction false} HeadIsLeast(ms: seq<Member>, key: Text)
    requires Sorted(ms) && ms != []
    ensures Before(key, ms[0].key) ==> Lookup(ms, key) == None
  {
    if Before(key, ms[0].key) {
      forall i | 0 <= i < |ms| ensures ms[i].key != key {
        BeforeTotal(key, key);
        if i > 0 {
          BeforeTransitive(key, ms[0].key, ms[i].key);
        }
      }
      LookupFresh(ms, key);
    }
  }

  lemma {:induction false} NormalizeKept(ms: seq<Member>)
    requires WellFormedMembers(ms)
    ensures Sorted(NormalizeMembers(ms)) && AllKept(NormalizeMembers(ms))
  {
    NormalizeMembersPlain(ms);
  }

  /** Semantically equal values have one normal form, and values with one normal form are semantically equal. */
  lemma {:induction false} NormalFormDecides(v: Value, w: Value)
    requires WellFormed(v) && WellFormed(w)
    ensures SameJson(v, w) <==> Normalize(v) == Normalize(w)
    decreases v, 1
  {
    if !NullLike(v) && !NullLike(w) {
      match v
      case Arr(items) =>
        if w.Arr? && |items| == |w.items| {
          forall i | 0 <= i < |items| ensures SameJson(items[i], w.items[i]) <==> Normalize(items[i]) == Normalize(w.items[i]) {
            NormalFormDecides(items[i], w.items[i]);
          }
          if Normalize(v) == Normalize(w) {
            forall i | 0 <= i < |items| ensures SameJson(items[i], w.items[i]) {
              assert NormalizeItems(items)[i] == NormalizeItems(w.items)[i];
            }
          }
        } else if w.Arr? {
          assert |NormalizeItems(items)| != |NormalizeItems(w.items)|;
        }
      case Obj(ms) =>
        if w.Obj? {
          NormalFormDecidesMembers(v, w);
        }
      case _ =>
    }
  }

  lemma {:induction false} NormalFormDecidesMembers(v: Value, w: Value)
    requires WellFormed(v) && WellFormed(w) && v.Obj? && w.Obj?
    ensures SameJson(v, w) <==> NormalizeMembers(v.members) == NormalizeMembers(w.members)
    decreases v, 0
  {
    var ms, ns := v.members, w.members;
    forall key: Text
      ensures SameEntry(v, Lookup(ms, key), Lookup(ns, key)) <==>
              Lookup(NormalizeMembers(ms), key) == Lookup(NormalizeMembers(ns), key)
    {
      LookupNormalized(ms, key);
      LookupNormalized(ns, key);
      if Lookup(ms, key).Some? && Lookup(ns, key).Some? {
        NormalFormDecides(Lookup(ms, key).value, Lookup(ns, key).value);
      }
    }
    if SameJson(v, w) {
      NormalizeKept(ms);
      NormalizeKept(ns);
      SortedUnique(NormalizeMembers(ms), NormalizeMembers(ns));
    }
  }

  lemma {:induction false} NormalizeIdempotent(v: Value)
    requires WellFormed(v)
    ensures Normalize(Normalize(v)) == Normalize(v)
    decreases v, 1
  {
    match v
    case Arr(items) =>
      forall i | 0 <= i < |items| ensures Normalize(Normalize(items[i])) == Normalize(items[i]) {
        NormalizeIdempotent(items[i]);
      }
      assert NormalizeItems(NormalizeItems(items)) == NormalizeItems(items);
    case Obj(ms) => NormalizeMembersIdempotent(ms);
    case _ =>
  }

  /** Each name denotes an already normalized value, so sorting and normalizing again changes nothing. */
  lemma {:induction false} NormalizeMembersIdempotent(ms: seq<Member>)
    requires WellFormedMembers(ms)
    ensures NormalizeMembers(NormalizeMembers(ms)) == NormalizeMembers(ms)
    decreases ms, 0
  {
    var ns := NormalizeMembers(ms);
    NormalizeMembersPlain(ms);
    SortedDistinct(ns);
    forall i | 0 <= i < |ns| ensures WellFormed(ns[i].value) {
      PlainWellFormed(ns[i].value);
    }
    NormalizeMembersPlain(ns);
    forall key: Text ensures Lookup(NormalizeMembers(ns), key) == Lookup(ns, key) {
      LookupNormalized(ns, key);
      LookupNormalized(ms, key);
      if Lookup(ms, key).Some? {
        NormalizeIdempotent(Lookup(ms, key).value);
      }
    }
    SortedUnique(NormalizeMembers(ns), ns);
  }

  // ---------- main results ----------

  /** Parsing the canonical text gives the normal form, which means the same as the value printed. */
  lemma {:induction false} CanonicalRoundTrip(v: Value)
    requires WellFormed(v) && IsJsonValue(v)
    ensures Parse(Serialize(v)) == Some(Normalize(v))
    ensures Plain(Normalize(v)) && SameJson(v, Normalize(v))
  {
    SerializePrints(v);
    NormalizePlain(v);
    ParsePrint(Normalize(v));
    NormalizeIdempotent(v);
    PlainWellFormed(Normalize(v));
    NormalFormDecides(v, Normalize(v));
  }

  lemma {:induction false} TwoMembers(parent: Value, a: Member, b: Member)
    requires a.value < parent && b.value < parent && IsJsonValue(a.value) && IsJsonValue(b.value)
    ensures SerializeMembers(parent, [a, b]) ==
            Quote(a.key) + [58] + Serialize(a.value) + [44] + (Quote(b.key) + [58] + Serialize(b.value))
  {
    assert [a, b][1..] == [b];
  }

  lemma {:induction false} TwoItems(v: Value, w: Value)
    requires IsJsonValue(v) && IsJsonValue(w)
    ensures SerializeItems([v, w]) == Serialize(v) + [44] + Serialize(w)
  {
    assert [v, w][1..] == [w];
    assert SerializeItems([w]) == SerializeItem(w) == Serialize(w);
    assert SerializeItem(v) == Serialize(v);
  }

  /** How canonical text is spelled, unit by unit: brackets, braces, commas, colons, quotes, words and escapes. */
  lemma {:induction false} CanonicalSpelling(v: Value, w: Value, k: Text, l: Text)
    requires IsJsonValue(v) && IsJsonValue(w) && Before(k, l)
    ensures Serialize(Null) == Serialize(NonFinite) == [110, 117, 108, 108]
    ensures Serialize(Bool(true)) == [116, 114, 117, 101] && Serialize(Bool(false)) == [102, 97, 108, 115, 101]
    ensures Serialize(Arr([])) == [91, 93] && Serialize(Obj([])) == [123, 125]
    ensures Serialize(Arr([v, w])) == [91] + (Serialize(v) + [44] + Serialize(w)) + [93]
    ensures Serialize(Obj([Member(l, w), Member(k, v)])) ==
            [123] + (Quote(k) + [58] + Serialize(v) + [44] + (Quote(l) + [58] + Serialize(w))) + [125]
    ensures Serialize(Str(k)) == [34] + EscapeBody(k) + [34]
  {
    TwoItems(v, w);
    var ms := [Member(l, w), Member(k, v)];
    assert ms[1..] == [Member(k, v)] && Kept([Member(k, v)]) == [Member(k, v)];
    assert Kept(ms) == ms;
    BeforeTotal(k, l);
    assert SortByKey([Member(k, v)]) == [Member(k, v)];
    assert InsertByKey(Member(l, w), []) == [Member(l, w)];
    assert [Member(k, v)] + [Member(l, w)] == [Member(k, v), Member(l, w)];
    assert SortByKey(ms) == [Member(k, v), Member(l, w)];
    TwoMembers(Obj(ms), Member(k, v), Member(l, w));
  }

  /** At every depth the keys of an object ascend in code unit order. */
  ghost predicate KeysAscend(v: Value) {
    match v
    case Arr(items) => forall i :: 0 <= i < |items| ==> KeysAscend(items[i])
    case Obj(ms) =>
      && (forall i, j :: 0 <= i < j < |ms| ==> ComesFirst(ms[i].key, ms[j].key))
      && forall i :: 0 <= i < |ms| ==> KeysAscend(ms[i].value)
    case _ => true
  }

  lemma {:induction false} NormalizeAscends(v: Value)
    requires WellFormed(v)
    ensures KeysAscend(Normalize(v))
    decreases v, 1
  {
    match v
    case Arr(items) =>
      forall i | 0 <= i < |items| ensures KeysAscend(Normalize(items[i])) { NormalizeAscends(items[i]); }
    case Obj(ms) =>
      var ns := NormalizeMembers(ms);
      NormalizeMembersAscend(ms);
      NormalizeKept(ms);
      forall i, j | 0 <= i < j < |ns| ensures ComesFirst(ns[i].key, ns[j].key) {
        BeforeExactly(ns[i].key, ns[j].key);
      }
    case _ =>
  }

  lemma {:induction false} NormalizeMembersAscend(ms: seq<Member>)
    requires WellFormedMembers(ms)
    ensures forall i :: 0 <= i < |NormalizeMembers(ms)| ==> KeysAscend(NormalizeMembers(ms)[i].value)
    decreases ms, 0
  {
    if ms != [] {
      NormalizeMembersAscend(ms[1..]);
      if IsJsonValue(ms[0].value) {
        NormalizeAscends(ms[0].value);
        var r := NormalizeMembers(ms);
        var m, rest := Member(ms[0].key, Normalize(ms[0].value)), NormalizeMembers(ms[1..]);
        forall i | 0 <= i < |r| ensures KeysAscend(r[i].value) {
          assert r[i] in r && (r[i] == m || r[i] in rest);
        }
      }
    }
  }

  /** The keys of every object printed, however deep, ascend: a prefix first, else the smaller unit where they differ. */
  lemma {:induction false} CanonicalKeysAscend(v: Value)
    requires WellFormed(v) && IsJsonValue(v)
    ensures Parse(Serialize(v)).Some? && KeysAscend(Parse(Serialize(v)).value)
  {
    CanonicalRoundTrip(v);
    NormalizeAscends(v);
  }

  /** Two values have the same canonical text exactly when they are semantically equal. */
  lemma {:induction false} CanonicalDecides(v: Value, w: Value)
    requires WellFormed(v) && WellFormed(w) && IsJsonValue(v) && IsJsonValue(w)
    ensures Serialize(v) == Serialize(w) <==> SameJson(v, w)
  {
    CanonicalRoundTrip(v);
    CanonicalRoundTrip(w);
    SerializePrints(v);
    SerializePrints(w);
    NormalFormDecides(v, w);
  }

  /** Parsing a canonical text and canonicalizing again reproduces it byte for byte. */
  lemma {:induction false} CanonicalFixedPoint(v: Value)
    requires WellFormed(v) && IsJsonValue(v)
    ensures Parse(Serialize(v)).Some? && Canonicalize(Parse(Serialize(v)).value) == Canonicalize(v)
  {
    CanonicalRoundTrip(v);
    PlainWellFormed(Normalize(v));
    CanonicalDecides(v, Normalize(v));
  }

  /** However a payload was reserialized: if the text parses to the same meaning, its canonical form is the same. */
  lemma {:induction false} CanonicalAfterReserialization(v: Value, text: Text)
    requires WellFormed(v) && IsJsonValue(v)
    requires Parse(text).Some? && SameJson(Parse(text).value, v)
    ensures Canonicalize(Parse(text).value) == Canonicalize(v)
  {
    ParsePlain(text);
    PlainWellFormed(Parse(text).value);
    CanonicalDecides(Parse(text).value, v);
  }

  lemma {:induction false} LookupMember(ms: seq<Member>, m: Member)
    requires DistinctKeys(ms) && m in ms && IsJsonValue(m.value)
    ensures Lookup(ms, m.key) == Some(m.value)
  {
    if ms[0] != m {
      assert m in ms[1..];
      var i :| 0 < i < |ms| && ms[i] == m;
      LookupMember(ms[1..], m);
    }
  }

  /** Inserting the keys of an object in another order prints the same bytes. */
  lemma {:induction false} KeyOrderIrrelevant(ms: seq<Member>, ns: seq<Member>)
    requires WellFormed(Obj(ms)) && WellFormed(Obj(ns))
    requires multiset(ms) == multiset(ns)
    ensures Serialize(Obj(ms)) == Serialize(Obj(ns))
  {
    forall m: Member ensures m in ms <==> m in ns {
      assert m in multiset(ms) <==> m in multiset(ns);
    }
    forall key: Text ensures Lookup(NormalizeMembers(ms), key) == Lookup(NormalizeMembers(ns), key) {
      LookupNormalized(ms, key);
      LookupNormalized(ns, key);
      if Lookup(ms, key).Some? {
        LookupMember(ns, Member(key, Lookup(ms, key).value));
      }
      if Lookup(ns, key).Some? {
        LookupMember(ms, Member(key, Lookup(ns, key).value));
      }
    }
    NormalizeKept(ms);
    NormalizeKept(ns);
    SortedUnique(NormalizeMembers(ms), NormalizeMembers(ns));
    SerializePrints(Obj(ms));
    SerializePrints(Obj(ns));
  }

  // ---------- JSON.stringify in insertion order ----------

  /** What `JSON.stringify` keeps, in insertion order. */
  function Clean(v: Value): Value {
    match v
    case Arr(items) => Arr(CleanItems(items))
    case Obj(ms) => Obj(CleanMembers(ms))
    case NonFinite => Null
    case Dropped => Null
    case _ => v
  }

  function CleanItems(items: seq<Value>): (r: seq<Value>)
    ensures |r| == |items| && forall i :: 0 <= i < |items| ==> r[i] == Clean(items[i])
  {
    if items == [] then [] else [Clean(items[0])] + CleanItems(items[1..])
  }

  function CleanMembers(ms: seq<Member>): seq<Member> {
    if ms == [] then []
    else if IsJsonValue(ms[0].value) then [Member(ms[0].key, Clean(ms[0].value))] + CleanMembers(ms[1..])
    else CleanMembers(ms[1..])
  }

  /** The keys kept stay in the order in which they were inserted. */
  lemma {:induction false} CleanKeepsOrder(ms: seq<Member>)
    ensures |CleanMembers(ms)| == |Kept(ms)|
    ensures forall i :: 0 <= i < |Kept(ms)| ==> CleanMembers(ms)[i] == Member(Kept(ms)[i].key, Clean(Kept(ms)[i].value))
  {
    if ms != [] {
      CleanKeepsOrder(ms[1..]);
    }
  }

  /** `JSON.stringify`, keys in insertion order. */
  function Stringify(v: Value): Text {
    Print(Clean(v))
  }

  lemma {:induction false} NormalizeClean(v: Value)
    ensures Normalize(Clean(v)) == Normalize(v)
    ensures IsJsonValue(Clean(v))
    decreases v, 1
  {
    match v
    case Arr(items) =>
      forall i | 0 <= i < |items| ensures Normalize(Clean(items[i])) == Normalize(items[i]) { NormalizeClean(items[i]); }
      assert NormalizeItems(CleanItems(items)) == NormalizeItems(items);
    case Obj(ms) => NormalizeCleanMembers(ms);
    case _ =>
  }

  lemma {:induction false} NormalizeCleanMembers(ms: seq<Member>)
    ensures NormalizeMembers(CleanMembers(ms)) == NormalizeMembers(ms)
    decreases ms, 0
  {
    if ms != [] {
      NormalizeCleanMembers(ms[1..]);
      if IsJsonValue(ms[0].value) {
        NormalizeClean(ms[0].value);
        assert CleanMembers(ms)[1..] == CleanMembers(ms[1..]);
      }
    }
  }

  lemma {:induction false} CleanFresh(ms: seq<Member>, key: Text)
    requires FreshKey(ms, key)
    ensures FreshKey(CleanMembers(ms), key)
  {
    if ms != [] {
      CleanFresh(ms[1..], key);
    }
  }

  lemma {:induction false} CleanPlain(v: Value)
    requires WellFormed(v)
    ensures Plain(Clean(v))
    decreases v, 1
  {
    match v
    case Arr(items) =>
      forall i | 0 <= i < |items| ensures Plain(Clean(items[i])) { CleanPlain(items[i]); }
    case Obj(ms) => CleanPlainMembers(ms);
    case _ =>
  }

  lemma {:induction false} CleanPlainMembers(ms: seq<Member>)
    requires WellFormedMembers(ms)
    ensures DistinctKeys(CleanMembers(ms)) && PlainMembers(CleanMembers(ms))
    decreases ms, 0
  {
    if ms != [] {
      CleanPlainMembers(ms[1..]);
      if IsJsonValue(ms[0].value) {
        CleanPlain(ms[0].value);
        CleanFresh(ms[1..], ms[0].key);
      }
    }
  }

  /**
   `canonicalize(JSON.parse(JSON.stringify(w)))` is `canonicalize(v)` for every
   value w that means the same as v, in particular for v itself with its keys
   inserted in any other order at any depth.
   */
  lemma {:induction false} StringifyReparse(v: Value, w: Value)
    requires WellFormed(v) && WellFormed(w) && IsJsonValue(v) && IsJsonValue(w)
    requires SameJson(v, w)
    ensures Parse(Stringify(w)) == Some(Clean(w))
    ensures Canonicalize(Clean(w)) == Canonicalize(v)
  {
    CleanPlain(w);
    ParsePrint(Clean(w));
    NormalizeClean(w);
    NormalFormDecides(v, w);
    SerializePrints(v);
    SerializePrints(Clean(w));
  }
}
