/**
 * The appointments controller (server/controllers/appointmentController.js)
 * over the `Appointment` table (server/models/Appointment.js).
 */
module AppointmentController {
  import opened Wrappers
  import opened Lists
  import opened Sorting
  import opened Request
  import opened Store

  /** A stored appointment; `date` is in milliseconds since the epoch. */
  datatype Appointment = Appointment(
    title: string, date: int, doctor: Option<string>, location: Option<string>, kind: string,
    notes: Option<string>, completed: bool, reminder: bool, results: Option<string>)

  /** The members of a create or update body (`None`: the key is absent); `kind` is the `type` member. */
  datatype AppointmentBody = AppointmentBody(
    title: Option<string>, date: Option<int>, doctor: Option<string>, location: Option<string>,
    kind: Option<string>, notes: Option<string>, completed: Option<bool>, reminder: Option<bool>,
    results: Option<string>)

  /** The query string of `GET /api/appointments`. */
  datatype AppointmentQuery = AppointmentQuery(
    kind: Option<string>, completed: Option<string>, startDate: Option<string>, endDate: Option<string>)

  const DefaultKind := "Médico"
  const UpcomingLimit: nat := 5

  // ------------------------------------------------------------------ getAll

  /** The `whereClause` as `getAllAppointments` assembles it. */
  datatype AppointmentWhere = AppointmentWhere(userId: int, kind: Option<string>, completed: Option<bool>, date: Option<Between>)
  {
    predicate Admits(r: Row<Appointment>)
    {
      r.userId == userId &&
      (kind.Some? ==> r.data.kind == kind.value) &&
      (completed.Some? ==> r.data.completed == completed.value) &&
      (date.Some? ==> date.value.Holds(r.data.date))
    }

    function Test(): Row<Appointment> -> bool
    {
      (r: Row<Appointment>) => Admits(r)
    }
  }

  /**
   * The rows the query asks for: the user's own; of the type unless it is
   * absent or `Todos`; when `completed` is present, completed exactly when it
   * is `'true'`; dated within both bounds when both are given.
   */
  predicate Wanted(user: int, q: AppointmentQuery, parseDate: string -> Option<int>, r: Row<Appointment>)
  {
    r.userId == user &&
    (Selects(q.kind, "Todos") ==> r.data.kind == q.kind.value) &&
    (q.completed.Some? ==> r.data.completed == (q.completed.value == "true")) &&
    (Given(q.startDate) && Given(q.endDate) ==>
       Between(parseDate(q.startDate.value), parseDate(q.endDate.value)).Holds(r.data.date))
  }

  function WantedBy(user: int, q: AppointmentQuery, parseDate: string -> Option<int>): Row<Appointment> -> bool
  {
    (r: Row<Appointment>) => Wanted(user, q, parseDate, r)
  }

  /** `order: [['date', 'ASC']]`. */
  function Soonest(): Row<Appointment> -> seq<int>
  {
    (r: Row<Appointment>) => [r.data.date]
  }

  /** `getAllAppointments`: builds the where clause step by step, then `findAll`. */
  method GetAllAppointments(t: Table<Appointment>, user: Option<int>, q: AppointmentQuery, parseDate: string -> Option<int>)
    returns (rows: seq<Row<Appointment>>)
    ensures rows == Select(t.rows, WantedBy(EffectiveUser(user), q, parseDate), Soonest())
  {
    var userId := EffectiveUser(user);
    var w := AppointmentWhere(userId, None, None, None);
    if Selects(q.kind, "Todos") {
      w := w.(kind := q.kind);
    }
    if q.completed.Some? {
      w := w.(completed := Some(q.completed.value == "true"));
    }
    w := w.(date := RangeOf(parseDate, q.startDate, q.endDate));
    FilterSameTest(t.rows, w.Test(), WantedBy(userId, q, parseDate));
    rows := Select(t.rows, w.Test(), Soonest());
  }

  /** A list in ascending date order. */
  predicate Ascending(r: seq<Row<Appointment>>)
  {
    forall i, j :: 0 <= i < j < |r| ==> r[i].data.date <= r[j].data.date
  }

  lemma SoonestAscending(r: seq<Row<Appointment>>)
    requires SortedBy(r, Soonest())
    ensures Ascending(r)
  {
    forall i, j | 0 <= i < j < |r| ensures r[i].data.date <= r[j].data.date {
      assert LexLe(Soonest()(r[i]), Soonest()(r[j]));
    }
  }

  /** The answer holds exactly the wanted rows, each once, soonest first. */
  lemma GetAllAppointmentsExact(rows: seq<Row<Appointment>>, user: int, q: AppointmentQuery,
                                parseDate: string -> Option<int>, x: Row<Appointment>)
    ensures x in Select(rows, WantedBy(user, q, parseDate), Soonest()) <==> x in rows && Wanted(user, q, parseDate, x)
    ensures Ascending(Select(rows, WantedBy(user, q, parseDate), Soonest()))
  {
    SelectFacts(rows, WantedBy(user, q, parseDate), Soonest(), x);
    SoonestAscending(Select(rows, WantedBy(user, q, parseDate), Soonest()));
  }

  // ---------------------------------------------------------------- upcoming

  /** `where: { userId, date: { [Op.gte]: now }, completed: false }`. */
  function UpcomingFor(user: int, now: int): Row<Appointment> -> bool
  {
    (r: Row<Appointment>) => r.userId == user && r.data.date >= now && !r.data.completed
  }

  /** `getUpcoming`: the user's open appointments from `now` on, soonest first, at most five. */
  function Upcoming(rows: seq<Row<Appointment>>, user: int, now: int): seq<Row<Appointment>>
  {
    Take(Select(rows, UpcomingFor(user, now), Soonest()), UpcomingLimit)
  }

  /**
   * At most five rows, each the user's, open and not before `now`, soonest
   * first; they are the first of all such rows in that order, and all of them
   * when there are no more than five.
   */
  lemma UpcomingFacts(rows: seq<Row<Appointment>>, user: int, now: int)
    ensures var r := Upcoming(rows, user, now);
            |r| <= UpcomingLimit && Ascending(r) &&
            forall i :: 0 <= i < |r| ==> r[i] in rows && r[i].userId == user && r[i].data.date >= now && !r[i].data.completed
    ensures var all := Select(rows, UpcomingFor(user, now), Soonest());
            var r := Upcoming(rows, user, now);
            r == all[..|r|] && (|all| <= UpcomingLimit ==> r == all)
  {
    var all := Select(rows, UpcomingFor(user, now), Soonest());
    var r := Upcoming(rows, user, now);
    SoonestAscending(all);
    forall i | 0 <= i < |r| ensures r[i] in rows && r[i].userId == user && r[i].data.date >= now && !r[i].data.completed {
      SelectFacts(rows, UpcomingFor(user, now), Soonest(), r[i]);
      assert r[i] == all[i];
    }
  }

  // ------------------------------------------------------------------ create

  /** The row data `Appointment.create` builds, or `None` when a required column is missing. */
  function NewAppointment(b: AppointmentBody): (a: Option<Appointment>)
    ensures a.Some? <==> b.title.Some? && b.date.Some?
    ensures a.Some? ==> a.value.title == b.title.value && a.value.date == b.date.value &&
                        a.value.kind == b.kind.GetOr(DefaultKind) && a.value.reminder == b.reminder.GetOr(true)
  {
    if b.title.Some? && b.date.Some? then
      Some(Appointment(b.title.value, b.date.value, b.doctor, b.location, b.kind.GetOr(DefaultKind), b.notes,
                       b.completed.GetOr(false), b.reminder.GetOr(true), b.results))
    else None
  }

  /** `createAppointment`: the body with `userId` set to the requesting user; 201 with the new row, or 500. */
  method CreateAppointment(t: Table<Appointment>, user: Option<int>, b: AppointmentBody) returns (reply: Reply<Row<Appointment>>)
    requires t.Valid()
    modifies t
    ensures t.Valid()
    ensures NewAppointment(b).None? ==> reply == Fail(500, "Error creando cita") && t.rows == old(t.rows)
    ensures NewAppointment(b).Some? ==>
              reply == Ok(201, Row(old(t.nextId), EffectiveUser(user), NewAppointment(b).value)) &&
              t.rows == old(t.rows) + [reply.body]
  {
    var a := NewAppointment(b);
    if a.None? {
      return Fail(500, "Error creando cita");
    }
    var row := t.Create(EffectiveUser(user), a.value);
    reply := Ok(201, row);
  }

  // ------------------------------------------------------------------ update

  /** `req.body` written as it is over a stored appointment. */
  function AppointmentPatch(b: AppointmentBody): Appointment -> Appointment
  {
    (a: Appointment) => a.(title := b.title.GetOr(a.title), date := b.date.GetOr(a.date),
                           doctor := if b.doctor.Some? then b.doctor else a.doctor,
                           location := if b.location.Some? then b.location else a.location,
                           kind := b.kind.GetOr(a.kind), notes := if b.notes.Some? then b.notes else a.notes,
                           completed := b.completed.GetOr(a.completed), reminder := b.reminder.GetOr(a.reminder),
                           results := if b.results.Some? then b.results else a.results)
  }

  /** Writing the same body twice is the same as writing it once. */
  lemma AppointmentPatchIdempotent(b: AppointmentBody, a: Appointment)
    ensures AppointmentPatch(b)(AppointmentPatch(b)(a)) == AppointmentPatch(b)(a)
  {
  }

  /** `updateAppointment`: the user's rows with that id take the body; 404 when there were none. */
  method UpdateAppointment(t: Table<Appointment>, user: Option<int>, id: int, b: AppointmentBody)
    returns (reply: Reply<Row<Appointment>>)
    requires t.Valid()
    modifies t
    ensures t.Valid()
    ensures t.rows == Patched(old(t.rows), id, EffectiveUser(user), AppointmentPatch(b))
    ensures reply.Fail? <==> CountOwned(old(t.rows), id, EffectiveUser(user)) == 0
    ensures reply.Fail? ==> reply == Fail(404, "Cita no encontrada")
    ensures reply.Ok? ==> reply.status == 200 && reply.body in t.rows && Owned(reply.body, id, EffectiveUser(user))
  {
    reply := UpdateOwned(t, id, EffectiveUser(user), AppointmentPatch(b), "Cita no encontrada");
  }

  // ------------------------------------------------------------------ delete

  /** `deleteAppointment`: removes the user's rows with that id; 404 when there were none. */
  method DeleteAppointment(t: Table<Appointment>, user: Option<int>, id: int) returns (reply: Reply<string>)
    requires t.Valid()
    modifies t
    ensures t.Valid()
    ensures t.rows == Without(old(t.rows), id, EffectiveUser(user))
    ensures reply.Fail? <==> CountOwned(old(t.rows), id, EffectiveUser(user)) == 0
    ensures reply.Fail? ==> reply == Fail(404, "Cita no encontrada")
    ensures reply.Ok? ==> reply == Ok(200, "Cita eliminada correctamente")
  {
    reply := DestroyOwned(t, id, EffectiveUser(user), "Cita no encontrada", "Cita eliminada correctamente");
  }
}
