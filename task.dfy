/**
 * The tasks controller (server/controllers/taskController.js) over the `Task`
 * table (server/models/Task.js).
 */
module TaskController {
  import opened Wrappers
  import opened Text
  import opened Lists
  import opened Sorting
  import opened Request
  import opened Store

  /** The `priority` enum, stored as its text. */
  datatype Priority = Baja | Media | Alta
  {
    function Name(): string
    {
      match this
      case Baja => "Baja"
      case Media => "Media"
      case Alta => "Alta"
    }

    /**
     * Position of the stored text in the database's text order: the values
     * are compared as strings, so `Alta` < `Baja` < `Media`.
     */
    function Collation(): int
    {
      match this
      case Alta => 0
      case Baja => 1
      case Media => 2
    }
  }

  /** A stored task; dates are in milliseconds since the epoch, `None` standing for NULL. */
  datatype Task = Task(
    text: string, category: string, completed: bool, dueDate: Option<int>, priority: Priority,
    notes: Option<string>, estimatedCost: real, completedDate: Option<int>)

  /**
   * The members of a create or update body: `None` when the key is absent;
   * for the nullable dates, `Some(None)` is an explicit `null`.
   */
  datatype TaskBody = TaskBody(
    text: Option<string>, category: Option<string>, completed: Option<bool>, dueDate: Option<Option<int>>,
    priority: Option<Priority>, notes: Option<string>, estimatedCost: Option<real>)

  /** The query string of `GET /api/tasks`. */
  datatype TaskQuery = TaskQuery(
    category: Option<string>, completed: Option<string>, priority: Option<string>, search: Option<string>)

  const DefaultCategory := "General"

  /** The collation ranks follow the first letters, which already differ. */
  lemma CollationIsTextOrder(p: Priority, q: Priority)
    ensures p.Collation() < q.Collation() <==> p.Name()[0] < q.Name()[0]
    ensures p.Collation() == q.Collation() <==> p == q
  {
  }

  // ------------------------------------------------------------------ getAll

  /** The `whereClause` as `getAllTasks` assembles it. */
  datatype TaskWhere = TaskWhere(
    userId: int, category: Option<string>, completed: Option<bool>, priority: Option<string>, search: Option<string>)
  {
    predicate Admits(r: Row<Task>)
    {
      r.userId == userId &&
      (category.Some? ==> r.data.category == category.value) &&
      (completed.Some? ==> r.data.completed == completed.value) &&
      (priority.Some? ==> r.data.priority.Name() == priority.value) &&
      (search.Some? ==> Contains(r.data.text, search.value) ||
                        (r.data.notes.Some? && Contains(r.data.notes.value, search.value)))
    }

    function Test(): Row<Task> -> bool
    {
      (r: Row<Task>) => Admits(r)
    }
  }

  /**
   * The rows the query asks for: the user's own; of the category unless it is
   * absent or `Todos`; when `completed` is present (even empty), completed
   * exactly when it is `'true'`; of the priority unless it is absent or
   * `Todas`; whose text or notes contain a non-empty search term.
   */
  predicate Wanted(user: int, q: TaskQuery, r: Row<Task>)
  {
    r.userId == user &&
    (Selects(q.category, "Todos") ==> r.data.category == q.category.value) &&
    (q.completed.Some? ==> r.data.completed == (q.completed.value == "true")) &&
    (Selects(q.priority, "Todas") ==> r.data.priority.Name() == q.priority.value) &&
    (Given(q.search) ==> Contains(r.data.text, q.search.value) ||
                         (r.data.notes.Some? && Contains(r.data.notes.value, q.search.value)))
  }

  function WantedBy(user: int, q: TaskQuery): Row<Task> -> bool
  {
    (r: Row<Task>) => Wanted(user, q, r)
  }

  /** `NULL` sorts before every date in ascending order. */
  function DueKey(d: Option<int>): seq<int>
  {
    if d.None? then [0] else [1, d.value]
  }

  /** `order: [['completed', 'ASC'], ['priority', 'DESC'], ['dueDate', 'ASC']]`. */
  function TaskOrder(): Row<Task> -> seq<int>
  {
    (r: Row<Task>) => [if r.data.completed then 1 else 0, -r.data.priority.Collation()] + DueKey(r.data.dueDate)
  }

  /** `getAllTasks`: builds the where clause step by step, then `findAll`. */
  method GetAllTasks(t: Table<Task>, user: Option<int>, q: TaskQuery) returns (rows: seq<Row<Task>>)
    ensures rows == Select(t.rows, WantedBy(EffectiveUser(user), q), TaskOrder())
  {
    var userId := EffectiveUser(user);
    var w := TaskWhere(userId, None, None, None, None);
    if Selects(q.category, "Todos") {
      w := w.(category := q.category);
    }
    if q.completed.Some? {
      w := w.(completed := Some(q.completed.value == "true"));
    }
    if Selects(q.priority, "Todas") {
      w := w.(priority := q.priority);
    }
    if Given(q.search) {
      w := w.(search := q.search);
    }
    FilterSameTest(t.rows, w.Test(), WantedBy(userId, q));
    rows := Select(t.rows, w.Test(), TaskOrder());
  }

  /**
   * What the order says of two tasks, the first not after the second: pending
   * before completed; among tasks of equal completion the priority text
   * descends (`Media`, `Baja`, `Alta`); among those of equal priority too,
   * tasks without a due date come first and the rest by ascending due date.
   */
  predicate InTaskOrder(x: Task, y: Task)
  {
    (x.completed ==> y.completed) &&
    (x.completed == y.completed ==> x.priority.Collation() >= y.priority.Collation()) &&
    (x.completed == y.completed && x.priority == y.priority ==>
       (y.dueDate.None? ==> x.dueDate.None?) &&
       (x.dueDate.Some? && y.dueDate.Some? ==> x.dueDate.value <= y.dueDate.value))
  }

  lemma DueKeyOrder(d: Option<int>, e: Option<int>)
    requires LexLe(DueKey(d), DueKey(e))
    ensures e.None? ==> d.None?
    ensures d.Some? && e.Some? ==> d.value <= e.value
  {
    if d.Some? && e.Some? {
      assert LexLe(DueKey(d)[1..], DueKey(e)[1..]);
    }
  }

  lemma TaskOrderMeaning(x: Row<Task>, y: Row<Task>)
    requires LexLe(TaskOrder()(x), TaskOrder()(y))
    ensures InTaskOrder(x.data, y.data)
  {
    var a, b := TaskOrder()(x), TaskOrder()(y);
    if a[0] == b[0] {
      assert LexLe(a[1..], b[1..]);
      if a[1] == b[1] {
        CollationIsTextOrder(x.data.priority, y.data.priority);
        assert a[2..] == DueKey(x.data.dueDate) && b[2..] == DueKey(y.data.dueDate);
        assert LexLe(a[1..][1..], b[1..][1..]);
        assert a[1..][1..] == a[2..] && b[1..][1..] == b[2..];
        DueKeyOrder(x.data.dueDate, y.data.dueDate);
      }
    }
  }

  /** The answer holds exactly the wanted rows, in task order. */
  lemma GetAllTasksExact(rows: seq<Row<Task>>, user: int, q: TaskQuery, x: Row<Task>)
    ensures x in Select(rows, WantedBy(user, q), TaskOrder()) <==> x in rows && Wanted(user, q, x)
    ensures var r := Select(rows, WantedBy(user, q), TaskOrder());
            forall i, j :: 0 <= i < j < |r| ==> InTaskOrder(r[i].data, r[j].data)
  {
    SelectFacts(rows, WantedBy(user, q), TaskOrder(), x);
    var r := Select(rows, WantedBy(user, q), TaskOrder());
    forall i, j | 0 <= i < j < |r| ensures InTaskOrder(r[i].data, r[j].data) {
      TaskOrderMeaning(r[i], r[j]);
    }
  }

  // ------------------------------------------------------------------ create

  /** The row data `Task.create` builds from the body, or `None` when `text` is missing. */
  function NewTask(b: TaskBody): (t: Option<Task>)
    ensures t.Some? <==> b.text.Some?
    ensures t.Some? ==> t.value.text == b.text.value && t.value.priority == b.priority.GetOr(Media) &&
                        t.value.completed == b.completed.GetOr(false) && t.value.completedDate.None?
  {
    if b.text.Some? then
      Some(Task(b.text.value, b.category.GetOr(DefaultCategory), b.completed.GetOr(false),
                b.dueDate.GetOr(None), b.priority.GetOr(Media), b.notes, b.estimatedCost.GetOr(0.0), None))
    else None
  }

  /** `createTask`: the body with `userId` set to the requesting user; 201 with the new row, or 500. */
  method CreateTask(t: Table<Task>, user: Option<int>, b: TaskBody) returns (reply: Reply<Row<Task>>)
    requires t.Valid()
    modifies t
    ensures t.Valid()
    ensures NewTask(b).None? ==> reply == Fail(500, "Error creando tarea") && t.rows == old(t.rows)
    ensures NewTask(b).Some? ==> reply == Ok(201, Row(old(t.nextId), EffectiveUser(user), NewTask(b).value)) &&
                                 t.rows == old(t.rows) + [reply.body]
  {
    var task := NewTask(b);
    if task.None? {
      return Fail(500, "Error creando tarea");
    }
    var row := t.Create(EffectiveUser(user), task.value);
    reply := Ok(201, row);
  }

  // ------------------------------------------------------------------ update

  /**
   * The `completedDate` rule of `updateTask` as written: it compares the copy
   * `updateData.completed` with the original `req.body.completed`. `Some(d)`
   * is the value to write, `None` leaves the column alone.
   */
  function CompletedDateRule(copied: Option<bool>, original: Option<bool>, now: int): Option<Option<int>>
  {
    if copied == Some(true) && original != Some(true) then Some(Some(now))
    else if copied == Some(false) then Some(None)
    else None
  }

  /**
   * Since `updateData` is a copy of the body, the two sides always agree and
   * the rule never stamps the current date: it clears the date when
   * `completed` is `false` and otherwise leaves it alone.
   */
  lemma CompletedDateNeverStamped(completed: Option<bool>, now: int)
    ensures CompletedDateRule(completed, completed, now) == (if completed == Some(false) then Some(None) else None)
    ensures CompletedDateRule(completed, completed, now) != Some(Some(now))
  {
  }

  /** Only if the copy could differ from the body would the date be stamped. */
  lemma CompletedDateNeedsDifferentSides(now: int)
    ensures CompletedDateRule(Some(true), None, now) == Some(Some(now))
  {
  }

  /** `updateData` written over a stored task. */
  function TaskPatch(b: TaskBody, completedDate: Option<Option<int>>): Task -> Task
  {
    (k: Task) => k.(text := b.text.GetOr(k.text), category := b.category.GetOr(k.category),
                    completed := b.completed.GetOr(k.completed), dueDate := b.dueDate.GetOr(k.dueDate),
                    priority := b.priority.GetOr(k.priority), notes := if b.notes.Some? then b.notes else k.notes,
                    estimatedCost := b.estimatedCost.GetOr(k.estimatedCost),
                    completedDate := completedDate.GetOr(k.completedDate))
  }

  /**
   * `updateTask`: copies the body, applies the `completedDate` rule to the
   * copy, then updates the user's rows with that id; 404 when there were none,
   * else 200 with the updated row.
   */
  method UpdateTask(t: Table<Task>, user: Option<int>, id: int, b: TaskBody, now: int) returns (reply: Reply<Row<Task>>)
    requires t.Valid()
    modifies t
    ensures t.Valid()
    ensures t.rows == Patched(old(t.rows), id, EffectiveUser(user), TaskPatch(b, CompletedDateRule(b.completed, b.completed, now)))
    ensures reply.Fail? <==> CountOwned(old(t.rows), id, EffectiveUser(user)) == 0
    ensures reply.Fail? ==> reply == Fail(404, "Tarea no encontrada")
    ensures reply.Ok? ==> reply.status == 200 && reply.body in t.rows && Owned(reply.body, id, EffectiveUser(user))
  {
    var updateCompleted := b.completed;
    var completedDate: Option<Option<int>> := None;
    if updateCompleted == Some(true) && b.completed != Some(true) {
      completedDate := Some(Some(now));
    } else if updateCompleted == Some(false) {
      completedDate := Some(None);
    }
    reply := UpdateOwned(t, id, EffectiveUser(user), TaskPatch(b, completedDate), "Tarea no encontrada");
  }

  /** After an update that marks a task completed, its completion date is whatever it was before. */
  lemma CompletingKeepsOldDate(b: TaskBody, now: int, k: Task)
    requires b.completed == Some(true)
    ensures TaskPatch(b, CompletedDateRule(b.completed, b.completed, now))(k).completedDate == k.completedDate
    ensures TaskPatch(b, CompletedDateRule(b.completed, b.completed, now))(k).completed
  {
    CompletedDateNeverStamped(b.completed, now);
  }

  // ------------------------------------------------------------------ delete

  /** `deleteTask`: removes the user's rows with that id; 404 when there were none. */
  method DeleteTask(t: Table<Task>, user: Option<int>, id: int) returns (reply: Reply<string>)
    requires t.Valid()
    modifies t
    ensures t.Valid()
    ensures t.rows == Without(old(t.rows), id, EffectiveUser(user))
    ensures reply.Fail? <==> CountOwned(old(t.rows), id, EffectiveUser(user)) == 0
    ensures reply.Fail? ==> reply == Fail(404, "Tarea no encontrada")
    ensures reply.Ok? ==> reply == Ok(200, "Tarea eliminada correctamente")
  {
    reply := DestroyOwned(t, id, EffectiveUser(user), "Tarea no encontrada", "Tarea eliminada correctamente");
  }

  // ------------------------------------------------------------------- stats

  function OwnerIs(user: int): Row<Task> -> bool
  {
    (r: Row<Task>) => r.userId == user
  }

  function DoneBy(user: int): Row<Task> -> bool
  {
    (r: Row<Task>) => r.userId == user && r.data.completed
  }

  function PendingFor(user: int): Row<Task> -> bool
  {
    (r: Row<Task>) => r.userId == user && !r.data.completed
  }

  datatype TaskStats = TaskStats(totalTasks: nat, completedTasks: nat, pendingTasks: int)

  /** The counts of `getStats`: `pendingTasks` is the difference, which is the number of the user's open tasks. */
  function StatsOf(rows: seq<Row<Task>>, user: int): (s: TaskStats)
    ensures s.totalTasks == CountWhere(rows, OwnerIs(user)) && s.completedTasks == CountWhere(rows, DoneBy(user))
    ensures s.pendingTasks == CountWhere(rows, PendingFor(user)) && s.pendingTasks >= 0
  {
    FilterPartitionCount(rows, OwnerIs(user), DoneBy(user), PendingFor(user));
    var total := CountWhere(rows, OwnerIs(user));
    var done := CountWhere(rows, DoneBy(user));
    TaskStats(total, done, total - done)
  }
}
