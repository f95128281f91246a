/**
 * The medical-records controller (server/controllers/medicalController.js)
 * over the `MedicalRecord` table (server/models/MedicalRecord.js).
 */
module MedicalController {
  import opened Wrappers
  import opened Lists
  import opened Sorting
  import opened Request
  import opened Store

  /** A stored record; `date` is in milliseconds since the epoch, `kind` is the `type` column. */
  datatype Record = Record(
    date: int, kind: string, value: string, unit: Option<string>, notes: Option<string>,
    week: Option<int>, isNormal: bool)

  /** The members of a create or update body (`None`: the key is absent). */
  datatype RecordBody = RecordBody(
    date: Option<int>, kind: Option<string>, value: Option<string>, unit: Option<string>,
    notes: Option<string>, week: Option<int>, isNormal: Option<bool>)

  /** The query string of `GET /api/medical`. */
  datatype RecordQuery = RecordQuery(kind: Option<string>, startDate: Option<string>, endDate: Option<string>)

  // ------------------------------------------------------------------ getAll

  /** The `whereClause` as `getAllRecords` assembles it. */
  datatype RecordWhere = RecordWhere(userId: int, kind: Option<string>, date: Option<Between>)
  {
    predicate Admits(r: Row<Record>)
    {
      r.userId == userId &&
      (kind.Some? ==> r.data.kind == kind.value) &&
      (date.Some? ==> date.value.Holds(r.data.date))
    }

    function Test(): Row<Record> -> bool
    {
      (r: Row<Record>) => Admits(r)
    }
  }

  /** The rows the query asks for: the user's own; of the type unless absent or `Todos`; within both date bounds when both are given. */
  predicate Wanted(user: int, q: RecordQuery, parseDate: string -> Option<int>, r: Row<Record>)
  {
    r.userId == user &&
    (Selects(q.kind, "Todos") ==> r.data.kind == q.kind.value) &&
    (Given(q.startDate) && Given(q.endDate) ==>
       Between(parseDate(q.startDate.value), parseDate(q.endDate.value)).Holds(r.data.date))
  }

  function WantedBy(user: int, q: RecordQuery, parseDate: string -> Option<int>): Row<Record> -> bool
  {
    (r: Row<Record>) => Wanted(user, q, parseDate, r)
  }

  /** The `date` column. */
  function DateOf(d: Record): int
  {
    d.date
  }

  /** `order: [['date', 'DESC']]`. */
  function NewestFirst(): Row<Record> -> seq<int>
  {
    NewestBy(DateOf)
  }

  /** `order: [['date', 'ASC']]`. */
  function OldestFirst(): Row<Record> -> seq<int>
  {
    (r: Row<Record>) => [r.data.date]
  }

  /** `getAllRecords`: builds the where clause step by step, then `findAll`. */
  method GetAllRecords(t: Table<Record>, user: Option<int>, q: RecordQuery, parseDate: string -> Option<int>)
    returns (rows: seq<Row<Record>>)
    ensures rows == Select(t.rows, WantedBy(EffectiveUser(user), q, parseDate), NewestFirst())
  {
    var userId := EffectiveUser(user);
    var w := RecordWhere(userId, None, None);
    if Selects(q.kind, "Todos") {
      w := w.(kind := q.kind);
    }
    w := w.(date := RangeOf(parseDate, q.startDate, q.endDate));
    FilterSameTest(t.rows, w.Test(), WantedBy(userId, q, parseDate));
    rows := Select(t.rows, w.Test(), NewestFirst());
  }

  /** The answer holds exactly the wanted rows, each once, newest first. */
  lemma GetAllRecordsExact(rows: seq<Row<Record>>, user: int, q: RecordQuery, parseDate: string -> Option<int>, x: Row<Record>)
    ensures x in Select(rows, WantedBy(user, q, parseDate), NewestFirst()) <==> x in rows && Wanted(user, q, parseDate, x)
    ensures var r := Select(rows, WantedBy(user, q, parseDate), NewestFirst());
            forall i, j :: 0 <= i < j < |r| ==> r[i].data.date >= r[j].data.date
  {
    SelectNewestFirst(rows, WantedBy(user, q, parseDate), DateOf, x);
  }

  // ---------------------------------------------------------------- by type

  function OfKind(user: int, kind: string): Row<Record> -> bool
  {
    (r: Row<Record>) => r.userId == user && r.data.kind == kind
  }

  /** `getByType`: the user's records of exactly that type (`Todos` included, literally), oldest first. */
  function ByType(rows: seq<Row<Record>>, user: int, kind: string): seq<Row<Record>>
  {
    Select(rows, OfKind(user, kind), OldestFirst())
  }

  lemma ByTypeExact(rows: seq<Row<Record>>, user: int, kind: string, x: Row<Record>)
    ensures x in ByType(rows, user, kind) <==> x in rows && x.userId == user && x.data.kind == kind
    ensures var r := ByType(rows, user, kind);
            forall i, j :: 0 <= i < j < |r| ==> r[i].data.date <= r[j].data.date
  {
    SelectFacts(rows, OfKind(user, kind), OldestFirst(), x);
    var r := ByType(rows, user, kind);
    forall i, j | 0 <= i < j < |r| ensures r[i].data.date <= r[j].data.date {
      assert LexLe(OldestFirst()(r[i]), OldestFirst()(r[j]));
    }
  }

  // ------------------------------------------------------------------ create

  /** The row data `MedicalRecord.create` builds, or `None` when a required column is missing. */
  function NewRecord(b: RecordBody): (r: Option<Record>)
    ensures r.Some? <==> b.date.Some? && b.kind.Some? && b.value.Some?
    ensures r.Some? ==> r.value.kind == b.kind.value && r.value.value == b.value.value && r.value.isNormal == b.isNormal.GetOr(true)
  {
    if b.date.Some? && b.kind.Some? && b.value.Some? then
      Some(Record(b.date.value, b.kind.value, b.value.value, b.unit, b.notes, b.week, b.isNormal.GetOr(true)))
    else None
  }

  /** `createRecord`: the body with `userId` set to the requesting user; 201 with the new row, or 500. */
  method CreateRecord(t: Table<Record>, user: Option<int>, b: RecordBody) returns (reply: Reply<Row<Record>>)
    requires t.Valid()
    modifies t
    ensures t.Valid()
    ensures NewRecord(b).None? ==> reply == Fail(500, "Error creando registro") && t.rows == old(t.rows)
    ensures NewRecord(b).Some? ==>
              reply == Ok(201, Row(old(t.nextId), EffectiveUser(user), NewRecord(b).value)) &&
              t.rows == old(t.rows) + [reply.body]
  {
    var r := NewRecord(b);
    if r.None? {
      return Fail(500, "Error creando registro");
    }
    var row := t.Create(EffectiveUser(user), r.value);
    reply := Ok(201, row);
  }

  // ------------------------------------------------------------------ update

  /** `req.body` written as it is over a stored record. */
  function RecordPatch(b: RecordBody): Record -> Record
  {
    (r: Record) => r.(date := b.date.GetOr(r.date), kind := b.kind.GetOr(r.kind), value := b.value.GetOr(r.value),
                      unit := if b.unit.Some? then b.unit else r.unit,
                      notes := if b.notes.Some? then b.notes else r.notes,
                      week := if b.week.Some? then b.week else r.week, isNormal := b.isNormal.GetOr(r.isNormal))
  }

  /** `updateRecord`: the user's rows with that id take the body; 404 when there were none. */
  method UpdateRecord(t: Table<Record>, user: Option<int>, id: int, b: RecordBody) returns (reply: Reply<Row<Record>>)
    requires t.Valid()
    modifies t
    ensures t.Valid()
    ensures t.rows == Patched(old(t.rows), id, EffectiveUser(user), RecordPatch(b))
    ensures reply.Fail? <==> CountOwned(old(t.rows), id, EffectiveUser(user)) == 0
    ensures reply.Fail? ==> reply == Fail(404, "Registro no encontrado")
    ensures reply.Ok? ==> reply.status == 200 && reply.body in t.rows && Owned(reply.body, id, EffectiveUser(user))
  {
    reply := UpdateOwned(t, id, EffectiveUser(user), RecordPatch(b), "Registro no encontrado");
  }

  // ------------------------------------------------------------------ delete

  /** `deleteRecord`: removes the user's rows with that id; 404 when there were none. */
  method DeleteRecord(t: Table<Record>, user: Option<int>, id: int) returns (reply: Reply<string>)
    requires t.Valid()
    modifies t
    ensures t.Valid()
    ensures t.rows == Without(old(t.rows), id, EffectiveUser(user))
    ensures reply.Fail? <==> CountOwned(old(t.rows), id, EffectiveUser(user)) == 0
    ensures reply.Fail? ==> reply == Fail(404, "Registro no encontrado")
    ensures reply.Ok? ==> reply == Ok(200, "Registro eliminado correctamente")
  {
    reply := DestroyOwned(t, id, EffectiveUser(user), "Registro no encontrado", "Registro eliminado correctamente");
  }
}
