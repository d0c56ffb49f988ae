/**
 `createSettlementWithUniqueGuard`: insert, and on a violation of either unique
 column read the row that is in the way, while other processes insert, update
 and, when a key has expired, clear it. Rows are never deleted.
 */
module UniqueGuard {
  import opened Options

  /** A settlement's unique column besides its id, and everything else it holds. */
  datatype Row = Row(idempotencyKey: Option<string>, content: string)

  type Rows = map<string, Row>

  /** What one statement of any process does to the table. */
  datatype Event =
    | Insert(id: string, row: Row)
    | Update(id: string, content: string)
    | ClearKey(id: string)

  predicate HasKey(rows: Rows, id: string, key: string) {
    id in rows && rows[id].idempotencyKey == Some(key)
  }

  ghost predicate KeyTaken(rows: Rows, key: string) {
    exists id :: HasKey(rows, id, key)
  }

  /** An insert violates no unique column. */
  ghost predicate Fits(rows: Rows, id: string, row: Row) {
    id !in rows && (row.idempotencyKey.Some? ==> !KeyTaken(rows, row.idempotencyKey.value))
  }

  ghost function Next(rows: Rows, e: Event): Rows {
    match e
    case Insert(id, row) => if Fits(rows, id, row) then rows[id := row] else rows
    case Update(id, content) => if id in rows then rows[id := rows[id].(content := content)] else rows
    case ClearKey(id) => if id in rows then rows[id := rows[id].(idempotencyKey := None)] else rows
  }

  ghost function Run(rows: Rows, es: seq<Event>): Rows {
    if es == [] then rows else Next(Run(rows, es[..|es| - 1]), es[|es| - 1])
  }

  /** The unique index: no two rows carry one idempotency key. */
  ghost predicate UniqueKeys(rows: Rows) {
    forall a, b, key :: HasKey(rows, a, key) && HasKey(rows, b, key) ==> a == b
  }

  // ---------- what every run keeps ----------

  lemma {:induction false} NextUnique(rows: Rows, e: Event)
    requires UniqueKeys(rows)
    ensures UniqueKeys(Next(rows, e))
  {
    var after := Next(rows, e);
    forall a, b, key | HasKey(after, a, key) && HasKey(after, b, key)
      ensures a == b
    {
      match e
      case Insert(id, row) =>
        assert a != id ==> HasKey(rows, a, key);
        assert b != id ==> HasKey(rows, b, key);
      case Update(_, _) => assert HasKey(rows, a, key) && HasKey(rows, b, key);
      case ClearKey(_) => assert HasKey(rows, a, key) && HasKey(rows, b, key);
    }
  }

  /** At every moment at most one row carries a key. */
  lemma {:induction false} RunUnique(rows: Rows, es: seq<Event>)
    requires UniqueKeys(rows)
    ensures UniqueKeys(Run(rows, es))
  {
    if es != [] {
      RunUnique(rows, es[..|es| - 1]);
      NextUnique(Run(rows, es[..|es| - 1]), es[|es| - 1]);
    }
  }

  lemma {:induction false} RunSplit(rows: Rows, es: seq<Event>, k: nat)
    requires k <= |es|
    ensures Run(rows, es) == Run(Run(rows, es[..k]), es[k..])
    decreases |es|
  {
    if k == |es| {
      assert es[..k] == es;
    } else {
      var n := |es| - 1;
      RunSplit(rows, es[..n], k);
      assert es[..n][..k] == es[..k] && es[..n][k..] == es[k..][..n - k];
    }
  }

  lemma {:induction false} RowsStay(rows: Rows, es: seq<Event>, id: string)
    requires id in rows
    ensures id in Run(rows, es)
  {
    if es != [] {
      RowsStay(rows, es[..|es| - 1], id);
    }
  }

  /** A row that carries a key goes on carrying it exactly as long as nobody clears it; a cleared row never gets it back. */
  lemma {:induction false} KeyStays(rows: Rows, es: seq<Event>, id: string, key: string)
    requires HasKey(rows, id, key)
    ensures id in Run(rows, es)
    ensures HasKey(Run(rows, es), id, key) <==> ClearKey(id) !in es
    ensures ClearKey(id) in es ==> Run(rows, es)[id].idempotencyKey == None
  {
    if es != [] {
      var n := |es| - 1;
      KeyStays(rows, es[..n], id, key);
      assert es == es[..n] + [es[n]];
    }
  }

  /**
   Two lookups of one key, at any two moments of a run, find the same
   settlement exactly when its key was not cleared in between.
   */
  lemma {:induction false} LookupsAgree(es: seq<Event>, j: nat, k: nat, a: string, b: string, key: string)
    requires j <= k <= |es| && HasKey(Run(map[], es[..j]), a, key) && HasKey(Run(map[], es[..k]), b, key)
    ensures a == b <==> ClearKey(a) !in es[j..k]
  {
    var at := Run(map[], es[..j]);
    assert es[..k][..j] == es[..j] && es[..k][j..] == es[j..k];
    RunSplit(map[], es[..k], j);
    KeyStays(at, es[j..k], a, key);
    RunUnique(map[], es[..k]);
  }

  /** The case that disagrees is reachable: the clean-up clears an expired key and another settlement takes it. */
  lemma {:induction false} ClearedKeyMovesOn(x: string, y: string, key: string, content: string)
    requires x != y
    ensures var row := Row(Some(key), content);
            && HasKey(Run(map[], [Insert(x, row)]), x, key)
            && HasKey(Run(map[], [Insert(x, row), ClearKey(x), Insert(y, row)]), y, key)
  {
    var row := Row(Some(key), content);
    var one, two, three := [Insert(x, row)], [Insert(x, row), ClearKey(x)], [Insert(x, row), ClearKey(x), Insert(y, row)];
    assert one[..0] == [] && two[..1] == one && three[..2] == two;
    assert Run(map[], one) == map[x := row];
    assert Run(map[], two) == map[x := row.(idempotencyKey := None)];
    assert forall id :: !HasKey(Run(map[], two), id, key);
  }

  // ---------- the guard ----------

  datatype Outcome = Settled(id: string, row: Row) | UniqueConstraintError

  /** After a refused insert, a row under the id when it is looked up, else one under the key when that is looked up. */
  ghost predicate Finds(o: Outcome, id: string, row: Row, atId: Rows, atKey: Rows) {
    if id in atId then o == Settled(id, atId[id])
    else if row.idempotencyKey.Some? && KeyTaken(atKey, row.idempotencyKey.value)
    then o.Settled? && HasKey(atKey, o.id, row.idempotencyKey.value) && o.row == atKey[o.id]
    else o == UniqueConstraintError
  }

  /** Whose row the guard can hand back, when the events `es` ran between the insert and the last lookup. */
  ghost predicate Kept(rows: Rows, es: seq<Event>, row: Row) {
    exists holder :: row.idempotencyKey.Some? && HasKey(rows, holder, row.idempotencyKey.value) && ClearKey(holder) !in es
  }

  lemma {:induction false} KeptIsFound(rows: Rows, es: seq<Event>, key: string, holder: string)
    requires UniqueKeys(rows) && HasKey(rows, holder, key)
    ensures HasKey(Run(rows, es), holder, key) <==> ClearKey(holder) !in es
    ensures ClearKey(holder) !in es ==> forall x :: HasKey(Run(rows, es), x, key) ==> x == holder
  {
    KeyStays(rows, es, holder, key);
    RunUnique(rows, es);
  }

  /**
   When the guard gives up: the insert was refused because of the key alone,
   the settlement that held the key was cleared before the key was looked up,
   and nobody had taken the key, or the id, in the meantime.
   */
  lemma {:induction false} GivesUpExactly(rows: Rows, id: string, row: Row, toId: seq<Event>, toKey: seq<Event>, o: Outcome)
    requires UniqueKeys(rows) && !Fits(rows, id, row)
    requires Finds(o, id, row, Run(rows, toId), Run(rows, toId + toKey))
    ensures o == UniqueConstraintError <==>
            && id !in Run(rows, toId) && row.idempotencyKey.Some?
            && (exists holder :: HasKey(rows, holder, row.idempotencyKey.value) && ClearKey(holder) in toId + toKey)
            && !KeyTaken(Run(rows, toId + toKey), row.idempotencyKey.value)
  {
    var es := toId + toKey;
    if id in rows {
      RowsStay(rows, toId, id);
    } else {
      var key := row.idempotencyKey.value;
      var holder :| HasKey(rows, holder, key);
      KeptIsFound(rows, es, key, holder);
    }
  }

  /** So without a clearing in between the guard always returns a row, and a key's row is the one that was in the way. */
  lemma {:induction false} SettlesWithoutClearing(rows: Rows, id: string, row: Row, toId: seq<Event>, toKey: seq<Event>, o: Outcome)
    requires UniqueKeys(rows) && !Fits(rows, id, row)
    requires Finds(o, id, row, Run(rows, toId), Run(rows, toId + toKey))
    requires id in rows || Kept(rows, toId + toKey, row)
    ensures o.Settled?
    ensures o.id == id || (row.idempotencyKey.Some? && HasKey(rows, o.id, row.idempotencyKey.value))
  {
    if id in rows {
      RowsStay(rows, toId, id);
    } else {
      var holder :| HasKey(rows, holder, row.idempotencyKey.value) && ClearKey(holder) !in toId + toKey;
      KeptIsFound(rows, toId + toKey, row.idempotencyKey.value, holder);
    }
  }

  /** Giving up is reachable: the holder's key expires and is cleared just after the insert is refused. */
  lemma {:induction false} ExpiryMakesItGiveUp(x: string, id: string, key: string, content: string)
    requires x != id
    ensures var row := Row(Some(key), content);
            var rows := Run(map[], [Insert(x, row)]);
            !Fits(rows, id, row) && Finds(UniqueConstraintError, id, row, Run(rows, []), Run(rows, [] + [ClearKey(x)]))
  {
    var row := Row(Some(key), content);
    var one, none: Rows := [Insert(x, row)], map[];
    assert one[..0] == [] && forall other :: !HasKey(none, other, key);
    var rows := Run(none, one);
    assert Run(none, one[..0]) == none && Fits(none, x, row);
    assert rows == Next(Run(none, one[..0]), one[0]);
    assert rows == map[x := row];
    assert HasKey(rows, x, key);
    assert [] + [ClearKey(x)] == [ClearKey(x)] && [ClearKey(x)][..0] == [];
    assert Run(rows, [ClearKey(x)]) == map[x := row.(idempotencyKey := None)];
    assert forall other :: !HasKey(Run(rows, [ClearKey(x)]), other, key);
  }

  // ---------- the helper itself ----------

  class Table {
    var rows: Rows

    ghost predicate Valid()
      reads this
    {
      UniqueKeys(rows)
    }

    constructor ()
      ensures Valid() && rows == map[]
    {
      rows := map[];
    }

    /** `create`: true unless a unique column is violated (P2002). */
    method Create(id: string, row: Row) returns (created: bool)
      requires Valid()
      modifies this
      ensures Valid() && (created <==> Fits(old(rows), id, row)) && rows == Next(old(rows), Insert(id, row))
    {
      NextUnique(rows, Insert(id, row));
      created := id !in rows &&
        forall other :: other in rows ==> row.idempotencyKey.None? || rows[other].idempotencyKey != row.idempotencyKey;
      if created {
        assert row.idempotencyKey.Some? ==> forall other :: !HasKey(rows, other, row.idempotencyKey.value);
        rows := rows[id := row];
      } else if id !in rows {
        var other :| other in rows && row.idempotencyKey.Some? && rows[other].idempotencyKey == row.idempotencyKey;
        assert HasKey(rows, other, row.idempotencyKey.value);
      }
    }

    method FindById(id: string) returns (row: Option<Row>)
      ensures row == if id in rows then Some(rows[id]) else None
    {
      row := if id in rows then Some(rows[id]) else None;
    }

    method FindByKey(key: string) returns (found: Option<string>)
      ensures found.Some? ==> HasKey(rows, found.value, key)
      ensures found.None? ==> !KeyTaken(rows, key)
    {
      if id :| id in rows && rows[id].idempotencyKey == Some(key) {
        return Some(id);
      }
      assert forall id :: !HasKey(rows, id, key);
      return None;
    }

    /** Any statements of other processes. */
    method Interference() returns (ghost es: seq<Event>)
      requires Valid()
      modifies this
      ensures Valid() && rows == Run(old(rows), es)
    {
      es := [];
    }

    /**
     The insert, or whatever the two lookups find at their own moments: `toId`
     and `toKey` are the events of other processes before each of them.
     */
    method CreateSettlementWithUniqueGuard(id: string, row: Row)
      returns (o: Outcome, ghost toId: seq<Event>, ghost toKey: seq<Event>)
      requires Valid()
      modifies this
      ensures Valid()
      ensures Fits(old(rows), id, row) ==> o == Settled(id, row) && rows == old(rows)[id := row]
      ensures !Fits(old(rows), id, row) ==>
                && Finds(o, id, row, Run(old(rows), toId), Run(old(rows), toId + toKey))
                && rows == (if id in Run(old(rows), toId) then Run(old(rows), toId) else Run(old(rows), toId + toKey))
    {
      toId, toKey := [], [];
      var created := Create(id, row);
      if created {
        return Settled(id, row), toId, toKey;
      }
      ghost var refused := rows;
      toId := Interference();
      var existingById := FindById(id);
      if existingById.Some? {
        return Settled(id, existingById.value), toId, toKey;
      }
      toKey := Interference();
      assert (toId + toKey)[..|toId|] == toId && (toId + toKey)[|toId|..] == toKey;
      RunSplit(refused, toId + toKey, |toId|);
      if row.idempotencyKey.Some? {
        var existingByKey := FindByKey(row.idempotencyKey.value);
        if existingByKey.Some? {
          return Settled(existingByKey.value, rows[existingByKey.value]), toId, toKey;
        }
      }
      return UniqueConstraintError, toId, toKey;
    }
  }
}
