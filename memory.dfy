/**
 * The memories controller (server/controllers/memoryController.js) over the
 * `Memory` table (server/models/Memory.js).
 */
module MemoryController {
  import opened Wrappers
  import opened Text
  import opened Lists
  import opened Sorting
  import opened Request
  import opened Store
  import Upload

  /** A stored memory; `date` is in milliseconds since the epoch. */
  datatype Memory = Memory(
    title: string, text: string, date: int, category: string, mood: string,
    image: Option<string>, video: Option<string>, mediaType: string,
    location: Option<string>, tags: seq<string>, isFavorite: bool,
    weather: Option<string>, duration: Option<int>)

  /** The members of a create or update body (`None`: the key is absent). */
  datatype MemoryBody = MemoryBody(
    title: Option<string>, text: Option<string>, date: Option<int>, category: Option<string>,
    mood: Option<string>, location: Option<string>, tags: ListInput, isFavorite: Option<bool>,
    weather: Option<string>)

  /** The query string of `GET /api/memories`. */
  datatype MemoryQuery = MemoryQuery(
    category: Option<string>, search: Option<string>, startDate: Option<string>,
    endDate: Option<string>, favorite: Option<string>)

  const DefaultMood := "Neutral"
  const DefaultMediaType := "none"

  /** Where an uploaded image is said to be: `/uploads/` followed by the stored file name. */
  function ImagePath(filename: string): string
  {
    "/uploads/" + filename
  }

  /**
   * The image path leaves out the `images/` folder the upload middleware
   * stores images in, so it never names where the file is served from.
   */
  lemma ImagePathMissesImagesDir(filename: string)
    ensures ImagePath(filename) != "/" + Upload.ImagesDir + "/" + filename
  {
    assert |ImagePath(filename)| != |"/" + Upload.ImagesDir + "/" + filename|;
  }

  // ------------------------------------------------------------------ getAll

  /** The `whereClause` as `getAllMemories` assembles it. */
  datatype MemoryWhere = MemoryWhere(
    userId: int, category: Option<string>, search: Option<string>, date: Option<Between>, favoriteOnly: bool)
  {
    predicate Admits(r: Row<Memory>)
    {
      r.userId == userId &&
      (category.Some? ==> r.data.category == category.value) &&
      (search.Some? ==> Contains(r.data.title, search.value) || Contains(r.data.text, search.value)) &&
      (date.Some? ==> date.value.Holds(r.data.date)) &&
      (favoriteOnly ==> r.data.isFavorite)
    }

    function Test(): Row<Memory> -> bool
    {
      (r: Row<Memory>) => Admits(r)
    }
  }

  /**
   * Which rows the query asks for: the user's own; of the category unless it
   * is absent or `Todos`; whose title or text contains a non-empty search
   * term; dated within both bounds when both are given; and favourites only
   * when `favorite` is exactly `'true'`.
   */
  predicate Wanted(user: int, q: MemoryQuery, parseDate: string -> Option<int>, r: Row<Memory>)
  {
    r.userId == user &&
    (Selects(q.category, "Todos") ==> r.data.category == q.category.value) &&
    (Given(q.search) ==> Contains(r.data.title, q.search.value) || Contains(r.data.text, q.search.value)) &&
    (Given(q.startDate) && Given(q.endDate) ==>
       Between(parseDate(q.startDate.value), parseDate(q.endDate.value)).Holds(r.data.date)) &&
    (q.favorite == Some("true") ==> r.data.isFavorite)
  }

  function WantedBy(user: int, q: MemoryQuery, parseDate: string -> Option<int>): Row<Memory> -> bool
  {
    (r: Row<Memory>) => Wanted(user, q, parseDate, r)
  }

  /** The `date` column. */
  function DateOf(d: Memory): int
  {
    d.date
  }

  /** `order: [['date', 'DESC']]`. */
  function NewestFirst(): Row<Memory> -> seq<int>
  {
    NewestBy(DateOf)
  }

  /** `getAllMemories`: builds the where clause step by step, then `findAll`. */
  method GetAllMemories(t: Table<Memory>, user: Option<int>, q: MemoryQuery, parseDate: string -> Option<int>)
    returns (rows: seq<Row<Memory>>)
    ensures rows == Select(t.rows, WantedBy(EffectiveUser(user), q, parseDate), NewestFirst())
  {
    var userId := EffectiveUser(user);
    var w := MemoryWhere(userId, None, None, None, false);
    if Selects(q.category, "Todos") {
      w := w.(category := q.category);
    }
    if Given(q.search) {
      w := w.(search := q.search);
    }
    w := w.(date := RangeOf(parseDate, q.startDate, q.endDate));
    if q.favorite == Some("true") {
      w := w.(favoriteOnly := true);
    }
    FilterSameTest(t.rows, w.Test(), WantedBy(userId, q, parseDate));
    rows := Select(t.rows, w.Test(), NewestFirst());
  }

  /** The answer holds exactly the wanted rows, each once, newest first. */
  lemma GetAllMemoriesExact(rows: seq<Row<Memory>>, user: int, q: MemoryQuery, parseDate: string -> Option<int>, x: Row<Memory>)
    ensures x in Select(rows, WantedBy(user, q, parseDate), NewestFirst()) <==> x in rows && Wanted(user, q, parseDate, x)
    ensures var r := Select(rows, WantedBy(user, q, parseDate), NewestFirst());
            forall i, j :: 0 <= i < j < |r| ==> r[i].data.date >= r[j].data.date
  {
    SelectNewestFirst(rows, WantedBy(user, q, parseDate), DateOf, x);
  }

  /** With an empty query every row of the user is answered, and only those. */
  lemma EmptyQueryAnswersAllOwn(user: int, parseDate: string -> Option<int>, r: Row<Memory>)
    ensures Wanted(user, MemoryQuery(None, None, None, None, None), parseDate, r) <==> r.userId == user
  {
  }

  // ------------------------------------------------------------------ create

  /** The row data `Memory.create` builds from the body, or `None` when a required column is missing. */
  function NewMemory(b: MemoryBody, tags: seq<string>, file: Option<string>): (m: Option<Memory>)
    ensures m.Some? <==> b.title.Some? && b.text.Some? && b.date.Some? && b.category.Some?
    ensures m.Some? ==> m.value.tags == tags && m.value.title == b.title.value && m.value.text == b.text.value
    ensures m.Some? ==> m.value.image == (if file.Some? then Some(ImagePath(file.value)) else None)
    ensures m.Some? ==> m.value.mood == b.mood.GetOr(DefaultMood) && m.value.isFavorite == b.isFavorite.GetOr(false)
  {
    if b.title.Some? && b.text.Some? && b.date.Some? && b.category.Some? then
      Some(Memory(b.title.value, b.text.value, b.date.value, b.category.value, b.mood.GetOr(DefaultMood),
                  if file.Some? then Some(ImagePath(file.value)) else None, None, DefaultMediaType,
                  b.location, tags, b.isFavorite.GetOr(false), b.weather, None))
    else None
  }

  /**
   * `createMemory`: the body with `userId` set to the requesting user (over
   * any `userId` in the body), normalised tags and the image path; 201 with
   * the new row, or 500 when the tags do not parse or a column is missing.
   */
  method CreateMemory(t: Table<Memory>, user: Option<int>, b: MemoryBody, file: Option<string>,
                      parse: string -> Option<seq<string>>) returns (reply: Reply<Row<Memory>>)
    requires t.Valid()
    modifies t
    ensures t.Valid()
    ensures var tags := NormalizedList(b.tags, parse);
            var m := if tags.Some? then NewMemory(b, tags.value, file) else None;
            if m.None? then reply == Fail(500, "Error creando memoria") && t.rows == old(t.rows)
            else reply == Ok(201, Row(old(t.nextId), EffectiveUser(user), m.value)) &&
                 t.rows == old(t.rows) + [reply.body]
  {
    var tags := NormalizedList(b.tags, parse);
    if tags.None? {
      return Fail(500, "Error creando memoria");
    }
    var m := NewMemory(b, tags.value, file);
    if m.None? {
      return Fail(500, "Error creando memoria");
    }
    var row := t.Create(EffectiveUser(user), m.value);
    reply := Ok(201, row);
  }

  // ------------------------------------------------------------------ update

  /** `{ ...req.body, tags }` plus the image when a file came, written over a stored memory. */
  function MemoryPatch(b: MemoryBody, tags: seq<string>, file: Option<string>): Memory -> Memory
  {
    (m: Memory) => m.(title := b.title.GetOr(m.title), text := b.text.GetOr(m.text), date := b.date.GetOr(m.date),
            category := b.category.GetOr(m.category), mood := b.mood.GetOr(m.mood),
            location := if b.location.Some? then b.location else m.location,
            tags := tags, isFavorite := b.isFavorite.GetOr(m.isFavorite),
            weather := if b.weather.Some? then b.weather else m.weather,
            image := if file.Some? then Some(ImagePath(file.value)) else m.image)
  }

  /**
   * The update always writes `tags`: a body without them empties the stored
   * list. The image changes only when a file came with the request, and the
   * columns the body cannot name (video, media type, duration) never change.
   */
  lemma MemoryPatchEffect(b: MemoryBody, tags: seq<string>, file: Option<string>, m: Memory)
    ensures MemoryPatch(b, tags, file)(m).tags == tags
    ensures file.None? ==> MemoryPatch(b, tags, file)(m).image == m.image
    ensures file.Some? ==> MemoryPatch(b, tags, file)(m).image == Some(ImagePath(file.value))
    ensures var n := MemoryPatch(b, tags, file)(m); n.video == m.video && n.mediaType == m.mediaType && n.duration == m.duration
  {
  }

  /**
   * `updateMemory`: 500 when the tags do not parse (nothing changes); otherwise
   * the rows with that id owned by the user are patched, 404 when there were
   * none, else 200 with the patched row.
   */
  method UpdateMemory(t: Table<Memory>, user: Option<int>, id: int, b: MemoryBody, file: Option<string>,
                      parse: string -> Option<seq<string>>) returns (reply: Reply<Row<Memory>>)
    requires t.Valid()
    modifies t
    ensures t.Valid()
    ensures NormalizedList(b.tags, parse).None? ==> reply == Fail(500, "Error actualizando memoria") && t.rows == old(t.rows)
    ensures NormalizedList(b.tags, parse).Some? ==>
              t.rows == Patched(old(t.rows), id, EffectiveUser(user), MemoryPatch(b, NormalizedList(b.tags, parse).value, file))
    ensures NormalizedList(b.tags, parse).Some? ==>
              (reply.Fail? <==> CountOwned(old(t.rows), id, EffectiveUser(user)) == 0)
    ensures reply.Fail? && NormalizedList(b.tags, parse).Some? ==> reply == Fail(404, "Memoria no encontrada")
    ensures reply.Ok? ==> reply.status == 200 && reply.body in t.rows && Owned(reply.body, id, EffectiveUser(user))
  {
    var tags := NormalizedList(b.tags, parse);
    if tags.None? {
      return Fail(500, "Error actualizando memoria");
    }
    reply := UpdateOwned(t, id, EffectiveUser(user), MemoryPatch(b, tags.value, file), "Memoria no encontrada");
  }

  // ------------------------------------------------------------------ delete

  /** `deleteMemory`: removes the user's rows with that id; 404 when there were none. */
  method DeleteMemory(t: Table<Memory>, user: Option<int>, id: int) returns (reply: Reply<string>)
    requires t.Valid()
    modifies t
    ensures t.Valid()
    ensures t.rows == Without(old(t.rows), id, EffectiveUser(user))
    ensures reply.Fail? <==> CountOwned(old(t.rows), id, EffectiveUser(user)) == 0
    ensures reply.Fail? ==> reply == Fail(404, "Memoria no encontrada")
    ensures reply.Ok? ==> reply == Ok(200, "Memoria eliminada correctamente")
  {
    reply := DestroyOwned(t, id, EffectiveUser(user), "Memoria no encontrada", "Memoria eliminada correctamente");
  }

  // ------------------------------------------------------------------- stats

  function OwnerIs(user: int): Row<Memory> -> bool
  {
    (r: Row<Memory>) => r.userId == user
  }

  function WithPhoto(user: int): Row<Memory> -> bool
  {
    (r: Row<Memory>) => OwnerIs(user)(r) && r.data.image.Some?
  }

  function Favorite(user: int): Row<Memory> -> bool
  {
    (r: Row<Memory>) => OwnerIs(user)(r) && r.data.isFavorite
  }

  datatype MemoryStats = MemoryStats(totalMemories: nat, memoriesWithPhotos: nat, favoriteMemories: nat)

  /** The three counts of `getStats`; neither sub-count can exceed the total. */
  function StatsOf(rows: seq<Row<Memory>>, user: int): (s: MemoryStats)
    ensures s.totalMemories == CountWhere(rows, OwnerIs(user))
    ensures s.memoriesWithPhotos == CountWhere(rows, WithPhoto(user))
    ensures s.favoriteMemories == CountWhere(rows, Favorite(user))
    ensures s.memoriesWithPhotos <= s.totalMemories && s.favoriteMemories <= s.totalMemories
  {
    FilterStricter(rows, OwnerIs(user), WithPhoto(user));
    FilterStricter(rows, OwnerIs(user), Favorite(user));
    MemoryStats(CountWhere(rows, OwnerIs(user)), CountWhere(rows, WithPhoto(user)), CountWhere(rows, Favorite(user)))
  }
}
