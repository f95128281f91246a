/**
 * The journal controller (server/controllers/journalController.js) over the
 * `Journal` table (server/models/Journal.js).
 */
module JournalController {
  import opened Wrappers
  import opened Text
  import opened Lists
  import opened Sorting
  import opened Request
  import opened Store

  /** A stored journal entry; `date` is in milliseconds since the epoch. */
  datatype Entry = Entry(
    title: string, text: string, date: int, mood: string, energy: int,
    symptoms: seq<string>, gratitude: Option<string>, tags: seq<string>, isPrivate: bool)

  /** The members of a create or update body (`None`: the key is absent). */
  datatype EntryBody = EntryBody(
    title: Option<string>, text: Option<string>, date: Option<int>, mood: Option<string>,
    energy: Option<int>, symptoms: ListInput, gratitude: Option<string>, tags: ListInput,
    isPrivate: Option<bool>)

  /** The query string of `GET /api/journal`. */
  datatype EntryQuery = EntryQuery(
    search: Option<string>, startDate: Option<string>, endDate: Option<string>, mood: Option<string>)

  const DefaultMood := "Neutral"
  const DefaultEnergy := 5

  // ------------------------------------------------------------------ getAll

  /** The `whereClause` as `getAllEntries` assembles it. */
  datatype EntryWhere = EntryWhere(userId: int, search: Option<string>, date: Option<Between>, mood: Option<string>)
  {
    predicate Admits(r: Row<Entry>)
    {
      r.userId == userId &&
      (search.Some? ==> Contains(r.data.title, search.value) || Contains(r.data.text, search.value)) &&
      (date.Some? ==> date.value.Holds(r.data.date)) &&
      (mood.Some? ==> r.data.mood == mood.value)
    }

    function Test(): Row<Entry> -> bool
    {
      (r: Row<Entry>) => Admits(r)
    }
  }

  /**
   * The rows the query asks for: the user's own; whose title or text contains
   * a non-empty search term; dated within both bounds when both are given; of
   * the mood unless it is absent or `Todos`.
   */
  predicate Wanted(user: int, q: EntryQuery, parseDate: string -> Option<int>, r: Row<Entry>)
  {
    r.userId == user &&
    (Given(q.search) ==> Contains(r.data.title, q.search.value) || Contains(r.data.text, q.search.value)) &&
    (Given(q.startDate) && Given(q.endDate) ==>
       Between(parseDate(q.startDate.value), parseDate(q.endDate.value)).Holds(r.data.date)) &&
    (Selects(q.mood, "Todos") ==> r.data.mood == q.mood.value)
  }

  function WantedBy(user: int, q: EntryQuery, parseDate: string -> Option<int>): Row<Entry> -> bool
  {
    (r: Row<Entry>) => Wanted(user, q, parseDate, r)
  }

  /** The `date` column. */
  function DateOf(d: Entry): int
  {
    d.date
  }

  /** `order: [['date', 'DESC']]`. */
  function NewestFirst(): Row<Entry> -> seq<int>
  {
    NewestBy(DateOf)
  }

  /** `getAllEntries`: builds the where clause step by step, then `findAll`. */
  method GetAllEntries(t: Table<Entry>, user: Option<int>, q: EntryQuery, parseDate: string -> Option<int>)
    returns (rows: seq<Row<Entry>>)
    ensures rows == Select(t.rows, WantedBy(EffectiveUser(user), q, parseDate), NewestFirst())
  {
    var userId := EffectiveUser(user);
    var w := EntryWhere(userId, None, None, None);
    if Given(q.search) {
      w := w.(search := q.search);
    }
    w := w.(date := RangeOf(parseDate, q.startDate, q.endDate));
    if Selects(q.mood, "Todos") {
      w := w.(mood := q.mood);
    }
    FilterSameTest(t.rows, w.Test(), WantedBy(userId, q, parseDate));
    rows := Select(t.rows, w.Test(), NewestFirst());
  }

  /** The answer holds exactly the wanted rows, each once, newest first. */
  lemma GetAllEntriesExact(rows: seq<Row<Entry>>, user: int, q: EntryQuery, parseDate: string -> Option<int>, x: Row<Entry>)
    ensures x in Select(rows, WantedBy(user, q, parseDate), NewestFirst()) <==> x in rows && Wanted(user, q, parseDate, x)
    ensures var r := Select(rows, WantedBy(user, q, parseDate), NewestFirst());
            forall i, j :: 0 <= i < j < |r| ==> r[i].data.date >= r[j].data.date
  {
    SelectNewestFirst(rows, WantedBy(user, q, parseDate), DateOf, x);
  }

  // ------------------------------------------------------------------ create

  /** Both list members normalised, or `None` when either text does not parse. */
  function ListsOf(b: EntryBody, parse: string -> Option<seq<string>>): (r: Option<(seq<string>, seq<string>)>)
    ensures r.Some? <==> NormalizedList(b.symptoms, parse).Some? && NormalizedList(b.tags, parse).Some?
    ensures r.Some? ==> r.value == (NormalizedList(b.symptoms, parse).value, NormalizedList(b.tags, parse).value)
  {
    var symptoms := NormalizedList(b.symptoms, parse);
    var tags := NormalizedList(b.tags, parse);
    if symptoms.Some? && tags.Some? then Some((symptoms.value, tags.value)) else None
  }

  /** The row data `Journal.create` builds, or `None` when a required column is missing. */
  function NewEntry(b: EntryBody, symptoms: seq<string>, tags: seq<string>): (e: Option<Entry>)
    ensures e.Some? <==> b.title.Some? && b.text.Some? && b.date.Some?
    ensures e.Some? ==> e.value.symptoms == symptoms && e.value.tags == tags
    ensures e.Some? ==> e.value.mood == b.mood.GetOr(DefaultMood) && e.value.energy == b.energy.GetOr(DefaultEnergy)
  {
    if b.title.Some? && b.text.Some? && b.date.Some? then
      Some(Entry(b.title.value, b.text.value, b.date.value, b.mood.GetOr(DefaultMood), b.energy.GetOr(DefaultEnergy),
                 symptoms, b.gratitude, tags, b.isPrivate.GetOr(false)))
    else None
  }

  /**
   * `createEntry`: the body with `userId` set to the requesting user and both
   * lists normalised; 201 with the new row, or 500 when a list does not parse
   * or a column is missing.
   */
  method CreateEntry(t: Table<Entry>, user: Option<int>, b: EntryBody, parse: string -> Option<seq<string>>)
    returns (reply: Reply<Row<Entry>>)
    requires t.Valid()
    modifies t
    ensures t.Valid()
    ensures var ls := ListsOf(b, parse);
            var e := if ls.Some? then NewEntry(b, ls.value.0, ls.value.1) else None;
            if e.None? then reply == Fail(500, "Error creando entrada") && t.rows == old(t.rows)
            else reply == Ok(201, Row(old(t.nextId), EffectiveUser(user), e.value)) &&
                 t.rows == old(t.rows) + [reply.body]
  {
    var ls := ListsOf(b, parse);
    if ls.None? {
      return Fail(500, "Error creando entrada");
    }
    var e := NewEntry(b, ls.value.0, ls.value.1);
    if e.None? {
      return Fail(500, "Error creando entrada");
    }
    var row := t.Create(EffectiveUser(user), e.value);
    reply := Ok(201, row);
  }

  // ------------------------------------------------------------------ update

  /** `{ ...req.body, symptoms, tags }` written over a stored entry. */
  function EntryPatch(b: EntryBody, symptoms: seq<string>, tags: seq<string>): Entry -> Entry
  {
    (e: Entry) => e.(title := b.title.GetOr(e.title), text := b.text.GetOr(e.text), date := b.date.GetOr(e.date),
                     mood := b.mood.GetOr(e.mood), energy := b.energy.GetOr(e.energy), symptoms := symptoms,
                     gratitude := if b.gratitude.Some? then b.gratitude else e.gratitude,
                     tags := tags, isPrivate := b.isPrivate.GetOr(e.isPrivate))
  }

  /**
   * `updateEntry`: 500 when a list does not parse (nothing changes); otherwise
   * the user's rows with that id are patched, 404 when there were none, else
   * 200 with the patched row.
   */
  method UpdateEntry(t: Table<Entry>, user: Option<int>, id: int, b: EntryBody, parse: string -> Option<seq<string>>)
    returns (reply: Reply<Row<Entry>>)
    requires t.Valid()
    modifies t
    ensures t.Valid()
    ensures ListsOf(b, parse).None? ==> reply == Fail(500, "Error actualizando entrada") && t.rows == old(t.rows)
    ensures ListsOf(b, parse).Some? ==>
              t.rows == Patched(old(t.rows), id, EffectiveUser(user), EntryPatch(b, ListsOf(b, parse).value.0, ListsOf(b, parse).value.1))
    ensures ListsOf(b, parse).Some? ==> (reply.Fail? <==> CountOwned(old(t.rows), id, EffectiveUser(user)) == 0)
    ensures reply.Fail? && ListsOf(b, parse).Some? ==> reply == Fail(404, "Entrada no encontrada")
    ensures reply.Ok? ==> reply.status == 200 && reply.body in t.rows && Owned(reply.body, id, EffectiveUser(user))
  {
    var ls := ListsOf(b, parse);
    if ls.None? {
      return Fail(500, "Error actualizando entrada");
    }
    reply := UpdateOwned(t, id, EffectiveUser(user), EntryPatch(b, ls.value.0, ls.value.1), "Entrada no encontrada");
  }

  // ------------------------------------------------------------------ delete

  /** `deleteEntry`: removes the user's rows with that id; 404 when there were none. */
  method DeleteEntry(t: Table<Entry>, user: Option<int>, id: int) returns (reply: Reply<string>)
    requires t.Valid()
    modifies t
    ensures t.Valid()
    ensures t.rows == Without(old(t.rows), id, EffectiveUser(user))
    ensures reply.Fail? <==> CountOwned(old(t.rows), id, EffectiveUser(user)) == 0
    ensures reply.Fail? ==> reply == Fail(404, "Entrada no encontrada")
    ensures reply.Ok? ==> reply == Ok(200, "Entrada eliminada correctamente")
  {
    reply := DestroyOwned(t, id, EffectiveUser(user), "Entrada no encontrada", "Entrada eliminada correctamente");
  }
}
