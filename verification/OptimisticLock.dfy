/**
 Version-guarded updates of settlement rows, among the plain updates that leave
 the version alone. Every SQL statement is one step; any number of readers and
 writers interleave.
 */
module OptimisticLock {
  import opened Options

  type Id = string
  type Fields = map<string, string>

  datatype Row = Row(version: nat, fields: Fields)
  type Rows = map<Id, Row>

  /** `updateMany` with `where: { id, version: expected }` and `version: { increment: 1 }`. */
  datatype Write = Write(id: Id, expected: nat, patch: Fields)

  /** A guarded write, or an update without the version, as the status updates are. */
  datatype Event = Guarded(write: Write) | Plain(id: Id, patch: Fields)

  predicate Succeeds(rows: Rows, w: Write) {
    w.id in rows && rows[w.id].version == w.expected
  }

  function Apply(rows: Rows, w: Write): Rows {
    if Succeeds(rows, w)
    then rows[w.id := Row(w.expected + 1, rows[w.id].fields + w.patch)]
    else rows
  }

  function Next(rows: Rows, e: Event): Rows {
    match e
    case Guarded(w) => Apply(rows, w)
    case Plain(id, patch) => if id in rows then rows[id := rows[id].(fields := rows[id].fields + patch)] else rows
  }

  /** The rows after any interleaving of updates, in the order the database ran them. */
  function Run(rows: Rows, es: seq<Event>): Rows {
    if es == [] then rows else Next(Run(rows, es[..|es| - 1]), es[|es| - 1])
  }

  /** The guarded writes to one row that took effect, in order. */
  function Effective(rows: Rows, es: seq<Event>, id: Id): seq<Write> {
    if es == [] then []
    else
      var before, e := es[..|es| - 1], es[|es| - 1];
      Effective(rows, before, id)
      + if e.Guarded? && e.write.id == id && Succeeds(Run(rows, before), e.write) then [e.write] else []
  }

  /** The patches of all updates to one row that took effect, in order. */
  function Patches(rows: Rows, es: seq<Event>, id: Id): seq<Fields> {
    if es == [] then []
    else
      var before, e := es[..|es| - 1], es[|es| - 1];
      Patches(rows, before, id)
      + match e
        case Guarded(w) => if w.id == id && Succeeds(Run(rows, before), w) then [w.patch] else []
        case Plain(other, patch) => if other == id then [patch] else []
  }

  function Patched(fields: Fields, patches: seq<Fields>): Fields {
    if patches == [] then fields else Patched(fields, patches[..|patches| - 1]) + patches[|patches| - 1]
  }

  /** What the plain updates of one row leave in the fields they write. */
  function PlainPatch(es: seq<Event>, id: Id): Fields {
    if es == [] then map[]
    else
      var e := es[|es| - 1];
      PlainPatch(es[..|es| - 1], id) + if e.Plain? && e.id == id then e.patch else map[]
  }

  // ---------- what every run keeps ----------

  lemma {:induction false} PatchedMore(fields: Fields, patches: seq<Fields>, patch: Fields)
    ensures Patched(fields, patches + [patch]) == Patched(fields, patches) + patch
  {
    assert (patches + [patch])[..|patches|] == patches;
  }

  /**
   The final row is the effective updates applied in order. The version counts
   the guarded ones, and the k-th of them carried version start + k.
   */
  lemma {:induction false} FinalRow(rows: Rows, es: seq<Event>, id: Id)
    requires id in rows
    ensures id in Run(rows, es)
    ensures Run(rows, es)[id].version == rows[id].version + |Effective(rows, es, id)|
    ensures Run(rows, es)[id].fields == Patched(rows[id].fields, Patches(rows, es, id))
    ensures forall k :: 0 <= k < |Effective(rows, es, id)| ==>
              Effective(rows, es, id)[k].expected == rows[id].version + k
  {
    if es != [] {
      var before, e := es[..|es| - 1], es[|es| - 1];
      FinalRow(rows, before, id);
      var patches := Patches(rows, before, id);
      var patch := if e.Guarded? then e.write.patch else e.patch;
      if (e.Guarded? && e.write.id == id && Succeeds(Run(rows, before), e.write)) || (e.Plain? && e.id == id) {
        assert Patches(rows, es, id) == patches + [patch];
        PatchedMore(rows[id].fields, patches, patch);
      } else {
        assert Patches(rows, es, id) == patches;
      }
    }
  }

  lemma {:induction false} RunSplit(rows: Rows, es: seq<Event>, i: nat)
    requires i <= |es|
    ensures Run(rows, es) == Run(Run(rows, es[..i]), es[i..])
  {
    if i == |es| {
      assert es[..i] == es;
    } else {
      var before := es[..|es| - 1];
      RunSplit(rows, before, i);
      assert before[..i] == es[..i] && before[i..] == es[i..][..|es| - i - 1];
    }
  }

  /** Versions never fall, and a row whose version did not move differs at most by what plain updates left in it. */
  lemma {:induction false} VersionTellsRows(rows: Rows, es: seq<Event>, id: Id)
    requires id in rows
    ensures id in Run(rows, es) && Run(rows, es)[id].version >= rows[id].version
    ensures Run(rows, es)[id].version == rows[id].version ==>
              Run(rows, es)[id] == rows[id].(fields := rows[id].fields + PlainPatch(es, id))
  {
    if es == [] {
      assert rows[id].fields + map[] == rows[id].fields;
    } else {
      var before, e := es[..|es| - 1], es[|es| - 1];
      VersionTellsRows(rows, before, id);
      PatchTwice(rows[id].fields, PlainPatch(before, id), if e.Plain? && e.id == id then e.patch else map[]);
    }
  }

  lemma {:induction false} PatchTwice(fields: Fields, a: Fields, b: Fields)
    ensures fields + a + b == fields + (a + b)
    ensures b == map[] ==> fields + a + b == fields + a
  {
  }

  /** Of all guarded writes that expect one version of one row at most one takes effect, in any interleaving. */
  lemma {:induction false} OneWinnerPerVersion(rows: Rows, es: seq<Event>, i: nat, j: nat)
    requires i < j < |es| && es[i].Guarded? && es[j].Guarded?
    requires es[i].write.id == es[j].write.id && es[i].write.expected == es[j].write.expected
    requires Succeeds(Run(rows, es[..i]), es[i].write)
    ensures !Succeeds(Run(rows, es[..j]), es[j].write)
  {
    var id := es[i].write.id;
    var between := es[i + 1..j];
    assert es[..j][..i + 1] == es[..i + 1] && es[..j][i + 1..] == between;
    RunSplit(rows, es[..j], i + 1);
    assert es[..i + 1][..i] == es[..i];
    VersionTellsRows(Run(rows, es[..i + 1]), between, id);
  }

  /** A guarded write fails exactly when some other guarded write to its row took effect since its caller read. */
  lemma {:induction false} FailsOnlyOnConflict(rows: Rows, es: seq<Event>, read: nat, written: nat)
    requires read <= written < |es| && es[written].Guarded?
    requires var w := es[written].write;
             w.id in Run(rows, es[..read]) && w.expected == Run(rows, es[..read])[w.id].version
    ensures Succeeds(Run(rows, es[..written]), es[written].write) <==>
            Effective(Run(rows, es[..read]), es[read..written], es[written].write.id) == []
  {
    assert es[..written][..read] == es[..read] && es[..written][read..] == es[read..written];
    RunSplit(rows, es[..written], read);
    FinalRow(Run(rows, es[..read]), es[read..written], es[written].write.id);
  }

  lemma {:induction false} RowWhenWritten(rows: Rows, es: seq<Event>, read: nat, written: nat, id: Id)
    requires read <= written <= |es|
    requires id in Run(rows, es[..read])
    requires id in Run(rows, es[..written]) && Run(rows, es[..written])[id].version == Run(rows, es[..read])[id].version
    ensures var row := Run(rows, es[..read])[id];
            Run(rows, es[..written])[id] == row.(fields := row.fields + PlainPatch(es[read..written], id))
  {
    assert es[..written][..read] == es[..read] && es[..written][read..] == es[read..written];
    RunSplit(rows, es[..written], read);
    VersionTellsRows(Run(rows, es[..read]), es[read..written], id);
  }

  /** Writing these fields into a row changes nothing. */
  predicate ChangesNothing(fields: Fields, patch: Fields) {
    forall f :: f in patch ==> f in fields && fields[f] == patch[f]
  }

  lemma {:induction false} SameFields(fields: Fields, patch: Fields)
    ensures fields + patch == fields <==> ChangesNothing(fields, patch)
  {
    if fields + patch == fields {
      forall f | f in patch
        ensures f in fields && fields[f] == patch[f]
      {
        assert (fields + patch)[f] == patch[f];
      }
    }
  }

  /**
   When a guarded write that takes effect meets the very row its caller read:
   exactly when the plain updates in between left every field they wrote as it
   was. Guarded writes cannot come in between.
   */
  lemma {:induction false} MeetsTheRowRead(rows: Rows, es: seq<Event>, read: nat, written: nat)
    requires read <= written < |es| && es[written].Guarded?
    requires var w := es[written].write;
             w.id in Run(rows, es[..read]) && w.expected == Run(rows, es[..read])[w.id].version
    requires Succeeds(Run(rows, es[..written]), es[written].write)
    ensures var id := es[written].write.id;
            Run(rows, es[..written])[id] == Run(rows, es[..read])[id] <==>
            ChangesNothing(Run(rows, es[..read])[id].fields, PlainPatch(es[read..written], id))
  {
    var id := es[written].write.id;
    RowWhenWritten(rows, es, read, written, id);
    SameFields(Run(rows, es[..read])[id].fields, PlainPatch(es[read..written], id));
  }

  /** No lost update where every writer is guarded: the row written to is the row that was read. */
  lemma {:induction false} NoLostUpdate(rows: Rows, es: seq<Event>, read: nat, written: nat)
    requires read <= written < |es| && es[written].Guarded?
    requires forall i :: read <= i < written ==> es[i].Guarded?
    requires var w := es[written].write;
             w.id in Run(rows, es[..read]) && w.expected == Run(rows, es[..read])[w.id].version
    requires Succeeds(Run(rows, es[..written]), es[written].write)
    ensures Run(rows, es[..written])[es[written].write.id] == Run(rows, es[..read])[es[written].write.id]
  {
    NothingPlain(es[read..written], es[written].write.id);
    MeetsTheRowRead(rows, es, read, written);
  }

  lemma {:induction false} NothingPlain(es: seq<Event>, id: Id)
    requires forall i :: 0 <= i < |es| ==> es[i].Guarded?
    ensures PlainPatch(es, id) == map[]
  {
    if es != [] {
      NothingPlain(es[..|es| - 1], id);
    }
  }

  lemma {:induction false} NeverWritten(es: seq<Event>, id: Id, field: string)
    requires forall i :: 0 <= i < |es| && es[i].Plain? && es[i].id == id ==> field !in es[i].patch
    ensures field !in PlainPatch(es, id)
  {
    if es != [] {
      NeverWritten(es[..|es| - 1], id, field);
    }
  }

  /**
   What the lock does protect among plain updates: a field that none of them
   writes, as the retry link. A guarded write that takes effect finds that
   field as its caller read it.
   */
  lemma {:induction false} GuardedFieldNeverLost(rows: Rows, es: seq<Event>, read: nat, written: nat, field: string)
    requires read <= written < |es| && es[written].Guarded?
    requires var w := es[written].write;
             w.id in Run(rows, es[..read]) && w.expected == Run(rows, es[..read])[w.id].version
    requires Succeeds(Run(rows, es[..written]), es[written].write)
    requires forall i :: read <= i < written && es[i].Plain? && es[i].id == es[written].write.id ==> field !in es[i].patch
    ensures var before, now := Run(rows, es[..read])[es[written].write.id].fields, Run(rows, es[..written])[es[written].write.id].fields;
            (field in now <==> field in before) && (field in now ==> now[field] == before[field])
  {
    var id := es[written].write.id;
    NeverWritten(es[read..written], id, field);
    RowWhenWritten(rows, es, read, written, id);
  }

  /**
   The version does not tell a plain status update. A retry reads a failed
   settlement; a status update validated while the settlement was processing
   then completes it; the retry's guarded link still takes effect, on a
   completed settlement.
   */
  lemma {:induction false} RetryOfCompleted(id: Id, next: Id)
    ensures var rows: Rows := map[id := Row(0, map["status" := "processing"])];
            var link := Write(id, 0, map["supersededById" := next]);
            var es := [Plain(id, map["status" := "failed"]), Plain(id, map["status" := "completed"]), Guarded(link)];
            && Run(rows, es[..1]) == map[id := Row(0, map["status" := "failed"])]
            && Succeeds(Run(rows, es[..2]), link)
            && Run(rows, es) == map[id := Row(1, map["status" := "completed", "supersededById" := next])]
  {
    var rows: Rows := map[id := Row(0, map["status" := "processing"])];
    var link := Write(id, 0, map["supersededById" := next]);
    var es := [Plain(id, map["status" := "failed"]), Plain(id, map["status" := "completed"]), Guarded(link)];
    assert es[..1][..0] == [] && es[..2][..1] == es[..1] && es[..3] == es && es[..3][..2] == es[..2];
    assert Run(rows, es[..1]) == Next(rows, es[0]);
    var processing: Fields := map["status" := "processing"];
    assert processing + map["status" := "failed"] == map["status" := "failed"];
    var failed: Fields := map["status" := "failed"];
    assert failed + map["status" := "completed"] == map["status" := "completed"];
    assert Run(rows, es[..2]) == Next(Run(rows, es[..1]), es[1]) == map[id := Row(0, map["status" := "completed"])];
    var completed: Fields := map["status" := "completed"];
    assert completed + map["supersededById" := next] == map["status" := "completed", "supersededById" := next];
    assert Run(rows, es) == Next(Run(rows, es[..2]), es[2]);
  }

  // ---------- the helper itself ----------

  /** The settlement table, shared by every process. */
  class Table {
    var rows: Rows

    constructor (initial: Rows)
      ensures rows == initial
    {
      rows := initial;
    }

    /** One `UPDATE ... WHERE id AND version`; returns the number of rows changed. */
    method UpdateMany(w: Write) returns (count: nat)
      modifies this
      ensures rows == Apply(old(rows), w)
      ensures count == if Succeeds(old(rows), w) then 1 else 0
    {
      if w.id in rows && rows[w.id].version == w.expected {
        rows := rows[w.id := Row(rows[w.id].version + 1, rows[w.id].fields + w.patch)];
        count := 1;
      } else {
        count := 0;
      }
    }

    method FindUnique(id: Id) returns (r: Option<Row>)
      ensures r == if id in rows then Some(rows[id]) else None
    {
      if id in rows {
        r := Some(rows[id]);
      } else {
        r := None;
      }
    }

    /** Other processes run any number of updates, guarded and plain. */
    method Interference() returns (ghost es: seq<Event>)
      modifies this
      ensures rows == Run(old(rows), es)
    {
      es := [];
    }
  }

  datatype Outcome = Updated(row: Row) | VersionConflict

  /**
   `updateSettlementWithOptimisticLock`: a guarded update, then a re-read that
   other writers, the events `after`, may precede. It throws exactly when the
   guarded update did not apply; the row returned is this write's own row, with
   what plain updates left in it since, unless another guarded write came in
   between, and then it is a later version.
   */
  method UpdateWithOptimisticLock(table: Table, w: Write) returns (o: Outcome, ghost after: seq<Event>)
    modifies table
    ensures !Succeeds(old(table.rows), w) ==> o == VersionConflict && table.rows == old(table.rows)
    ensures Succeeds(old(table.rows), w) ==>
              && o.Updated?
              && table.rows == Run(Apply(old(table.rows), w), after)
              && w.id in table.rows && o.row == table.rows[w.id]
              && o.row.version >= w.expected + 1
              && (o.row.version == w.expected + 1 ==>
                    var own := Apply(old(table.rows), w)[w.id];
                    o.row == own.(fields := own.fields + PlainPatch(after, w.id)))
  {
    after := [];
    var count := table.UpdateMany(w);
    if count == 0 {
      return VersionConflict, after;
    }
    ghost var mine := table.rows;
    after := table.Interference();
    VersionTellsRows(mine, after, w.id);
    var updated := table.FindUnique(w.id);
    if updated.None? {
      return VersionConflict, after;
    }
    return Updated(updated.value), after;
  }
}
