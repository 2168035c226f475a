/**
 * The routes of backend/src/routes/appointments.ts. Every route first runs
 * `requireAuth`; listing all appointments also runs `requireAdmin`. The only
 * authorization rule for a single appointment is "owner or admin", and an
 * update copies the request body onto the document with no check of the
 * status transition.
 */
module AppointmentRoutes {
  import opened Common
  import opened Models
  import opened Http
  import opened AuthMiddleware

  /** The body of POST /. A `userId` sent by the client is never read. */
  datatype CreateBody = CreateBody(
    collegeName: Option<string>,
    scheduledAt: Option<string>,
    counsellorId: Option<Id>,
    notes: Option<string>,
    userId: Option<Id>
  )

  /** The body of PUT /:id: each field that is present overwrites the document's. */
  datatype Patch = Patch(
    collegeName: Option<string>,
    userId: Option<Id>,
    counsellorId: Option<Id>,
    scheduledAt: Option<string>,
    status: Option<string>,
    notes: Option<string>
  )

  /** The body of DELETE /:id: `{ message: "Cancelled", appt }`. */
  datatype CancelReply = CancelReply(message: string, appt: Stored<Appointment>)

  /** The owner-or-admin rule shared by update and cancel. */
  predicate MayModify(p: Principal, a: Appointment) {
    p.user.role == AdminRole || a.userId == p.id
  }

  /**
   * POST /: the new appointment belongs to the caller and starts `pending`.
   * A `scheduledAt` that is present but not a date passes the route's own
   * check and then fails the schema's cast on `save()` (500).
   */
  function Create(db: Db, cred: Credentials, body: CreateBody, castDate: DateCaster, newId: Id, now: Time): (r: Outcome<Stored<Appointment>, Db>)
    requires newId !in db.appointments
    ensures var g := Gate(cred, db.users, false);
      && (g.Rejected? ==> r.reply == Fail(g.status, g.message))
      && (g.Authenticated? && (!Filled(body.collegeName) || !Filled(body.scheduledAt)) ==>
            r.reply == Fail(StatusBadRequest, "Missing fields"))
      && (g.Authenticated? && Filled(body.collegeName) && Filled(body.scheduledAt) &&
          castDate(body.scheduledAt.value).None? ==>
            r.reply.Fail? && r.reply.status == StatusServerError)
      && (r.reply.status == StatusCreated <==>
            && g.Authenticated? && Filled(body.collegeName) && Filled(body.scheduledAt)
            && castDate(body.scheduledAt.value).Some?)
    ensures r.reply.status != StatusCreated ==> r.state == db
    ensures r.reply.status == StatusCreated ==>
      && r.reply.Json?
      && var a := r.reply.value.doc;
      && r.reply.value.id == newId
      && r.state == db.(appointments := db.appointments[newId := a])
      && a.userId == Gate(cred, db.users, false).principal.id
      && a.status == Pending
      && a.collegeName == body.collegeName.value
      && castDate(body.scheduledAt.value) == Some(a.scheduledAt)
      && a.counsellorId == body.counsellorId
      && a.notes == body.notes
      && a.createdAt == now
  {
    match Gate(cred, db.users, false)
    case Rejected(s, m) => Outcome(Fail(s, m), db)
    case Authenticated(p) =>
      if !Filled(body.collegeName) || !Filled(body.scheduledAt) then
        Outcome(Fail(StatusBadRequest, "Missing fields"), db)
      else
        match CastDate(castDate, body.scheduledAt.value)
        case None => Outcome(Fail(StatusServerError, "Appointment validation failed: scheduledAt"), db)
        case Some(when) =>
          var a := Appointment(body.collegeName.value, p.id, body.counsellorId,
                               when, Pending, body.notes, now);
          Outcome(Json(StatusCreated, Stored(newId, a)),
                  db.(appointments := db.appointments[newId := a]))
  }

  /** `Appointment.find({ userId })`: the appointments whose owner is `userId`. */
  function OwnedBy(appts: map<Id, Appointment>, userId: Id): (r: map<Id, Appointment>)
    ensures forall id :: id in r <==> id in appts && appts[id].userId == userId
    ensures forall id :: id in r ==> r[id] == appts[id]
  {
    map id | id in appts && appts[id].userId == userId :: appts[id]
  }

  /** Each appointment is listed for its owner and for nobody else. */
  lemma OwnedByPartitions(appts: map<Id, Appointment>, u: Id, v: Id)
    requires u != v
    ensures OwnedBy(appts, u).Keys !! OwnedBy(appts, v).Keys
    ensures forall id :: id in appts ==> id in OwnedBy(appts, appts[id].userId)
  {
  }

  /** GET /me: exactly the caller's own appointments. */
  function ListMine(db: Db, cred: Credentials): (r: Reply<map<Id, Appointment>>)
    ensures var g := Gate(cred, db.users, false);
      && (g.Rejected? ==> r == Fail(g.status, g.message))
      && (g.Authenticated? ==> r == Json(StatusOk, OwnedBy(db.appointments, g.principal.id)))
  {
    match Gate(cred, db.users, false)
    case Rejected(s, m) => Fail(s, m)
    case Authenticated(p) => Json(StatusOk, OwnedBy(db.appointments, p.id))
  }

  /** GET /: every appointment, for administrators only. */
  function ListAll(db: Db, cred: Credentials): (r: Reply<map<Id, Appointment>>)
    ensures r.Json? <==> Gate(cred, db.users, true).Authenticated?
    ensures r.Json? ==>
      && RequireAuth(cred.authorization, cred.verify, db.users).principal.user.role == AdminRole
      && r == Json(StatusOk, db.appointments)
    ensures r.Fail? ==> r.status == StatusUnauthorized || r.status == StatusForbidden
  {
    match Gate(cred, db.users, true)
    case Rejected(s, m) => Fail(s, m)
    case Authenticated(_) => Json(StatusOk, db.appointments)
  }

  /**
   * `Object.assign(appt, req.body)` followed by `save()`: every field present
   * in the body replaces the document's; `None` when the result fails the
   * schema (an empty required string, a status outside the enum, a
   * `scheduledAt` that does not cast to a date).
   */
  function Patched(a: Appointment, patch: Patch, castDate: DateCaster): (r: Option<Appointment>)
    ensures r.Some? ==> ValidAppointment(r.value)
    ensures r.Some? ==>
      && r.value.collegeName == patch.collegeName.GetOr(a.collegeName)
      && r.value.userId == patch.userId.GetOr(a.userId)
      && r.value.counsellorId == (if patch.counsellorId.Some? then patch.counsellorId else a.counsellorId)
      && (patch.scheduledAt.Some? ==> CastDate(castDate, patch.scheduledAt.value) == Some(r.value.scheduledAt))
      && (patch.scheduledAt.None? ==> r.value.scheduledAt == a.scheduledAt)
      && (patch.status.Some? ==> StatusName(r.value.status) == patch.status.value)
      && (patch.status.None? ==> r.value.status == a.status)
      && r.value.notes == (if patch.notes.Some? then patch.notes else a.notes)
      && r.value.createdAt == a.createdAt
    ensures r.None? <==>
      || (patch.status.Some? && StatusFromName(patch.status.value).None?)
      || patch.collegeName.GetOr(a.collegeName) == ""
      || (patch.scheduledAt.Some? && (patch.scheduledAt.value == "" || castDate(patch.scheduledAt.value).None?))
  {
    var status := if patch.status.Some? then StatusFromName(patch.status.value) else Some(a.status);
    var when := if patch.scheduledAt.Some? then CastDate(castDate, patch.scheduledAt.value) else Some(a.scheduledAt);
    if status.None? || when.None? then None
    else
      var b := Appointment(
        patch.collegeName.GetOr(a.collegeName),
        patch.userId.GetOr(a.userId),
        if patch.counsellorId.Some? then patch.counsellorId else a.counsellorId,
        when.value,
        status.value,
        if patch.notes.Some? then patch.notes else a.notes,
        a.createdAt);
      if ValidAppointment(b) then Some(b) else None
  }

  /**
   * PUT /:id. An absent id is 404 before ownership is looked at; a caller
   * who is neither admin nor owner gets 403; otherwise the body is applied.
   */
  function Update(db: Db, cred: Credentials, id: Id, patch: Patch, castDate: DateCaster): (r: Outcome<Stored<Appointment>, Db>)
    ensures var g := Gate(cred, db.users, false);
      && (g.Rejected? ==> r.reply == Fail(g.status, g.message))
      && (g.Authenticated? && id !in db.appointments ==> r.reply == Fail(StatusNotFound, "Not found"))
      && (g.Authenticated? && id in db.appointments && !MayModify(g.principal, db.appointments[id]) ==>
            r.reply == Fail(StatusForbidden, "Forbidden"))
      && (r.reply.status == StatusOk <==>
            && g.Authenticated? && id in db.appointments
            && MayModify(g.principal, db.appointments[id])
            && Patched(db.appointments[id], patch, castDate).Some?)
    ensures r.reply.status != StatusOk ==> r.state == db
    ensures r.reply.status == StatusOk ==>
      && r.reply.Json? && id in db.appointments
      && r.reply.value == Stored(id, Patched(db.appointments[id], patch, castDate).value)
      && r.state == db.(appointments := db.appointments[id := r.reply.value.doc])
  {
    match Gate(cred, db.users, false)
    case Rejected(s, m) => Outcome(Fail(s, m), db)
    case Authenticated(p) =>
      if id !in db.appointments then Outcome(Fail(StatusNotFound, "Not found"), db)
      else if !MayModify(p, db.appointments[id]) then Outcome(Fail(StatusForbidden, "Forbidden"), db)
      else
        match Patched(db.appointments[id], patch, castDate)
        case None => Outcome(Fail(StatusServerError, "Appointment validation failed"), db)
        case Some(b) => Outcome(Json(StatusOk, Stored(id, b)), db.(appointments := db.appointments[id := b]))
  }

  /**
   * DELETE /:id. Same 404 and 403 rules as update; otherwise the status
   * becomes `cancelled` and the record is kept.
   */
  function Cancel(db: Db, cred: Credentials, id: Id): (r: Outcome<CancelReply, Db>)
    ensures var g := Gate(cred, db.users, false);
      && (g.Rejected? ==> r.reply == Fail(g.status, g.message))
      && (g.Authenticated? && id !in db.appointments ==> r.reply == Fail(StatusNotFound, "Not found"))
      && (g.Authenticated? && id in db.appointments && !MayModify(g.principal, db.appointments[id]) ==>
            r.reply == Fail(StatusForbidden, "Forbidden"))
      && (r.reply.status == StatusOk <==>
            && g.Authenticated? && id in db.appointments
            && MayModify(g.principal, db.appointments[id])
            && ValidAppointment(db.appointments[id]))
    ensures r.reply.status != StatusOk ==> r.state == db
    ensures r.reply.status == StatusOk ==>
      && r.reply.Json? && id in db.appointments
      && r.reply.value == CancelReply("Cancelled", Stored(id, db.appointments[id].(status := Cancelled)))
      && r.state == db.(appointments := db.appointments[id := db.appointments[id].(status := Cancelled)])
  {
    match Gate(cred, db.users, false)
    case Rejected(s, m) => Outcome(Fail(s, m), db)
    case Authenticated(p) =>
      if id !in db.appointments then Outcome(Fail(StatusNotFound, "Not found"), db)
      else if !MayModify(p, db.appointments[id]) then Outcome(Fail(StatusForbidden, "Forbidden"), db)
      else
        var b := db.appointments[id].(status := Cancelled);
        if !ValidAppointment(b) then Outcome(Fail(StatusServerError, "Appointment validation failed"), db)
        else Outcome(Json(StatusOk, CancelReply("Cancelled", Stored(id, b))),
                     db.(appointments := db.appointments[id := b]))
  }

  /** Cancelling twice succeeds twice and leaves the store as the first cancel did. */
  lemma CancelIsRepeatable(db: Db, cred: Credentials, id: Id)
    requires Cancel(db, cred, id).reply.status == StatusOk
    ensures var once := Cancel(db, cred, id);
      var twice := Cancel(once.state, cred, id);
      && twice.reply.status == StatusOk
      && twice.state == once.state
      && twice.reply == once.reply
  {
    var once := Cancel(db, cred, id);
    var a := db.appointments[id];
    assert once.state.users == db.users;
    assert once.state.appointments[id] == a.(status := Cancelled);
    assert a.(status := Cancelled).(status := Cancelled) == a.(status := Cancelled);
  }

  /**
   * There is no state machine: the owner may move an appointment from any
   * status to any other, including out of `cancelled` or `completed`.
   */
  lemma AnyStatusChangeAllowed(db: Db, cred: Credentials, id: Id, target: Status, castDate: DateCaster)
    requires ValidDb(db)
    requires id in db.appointments
    requires Gate(cred, db.users, false).Authenticated?
    requires Gate(cred, db.users, false).principal.id == db.appointments[id].userId
    ensures var r := Update(db, cred, id, Patch(None, None, None, None, Some(StatusName(target)), None), castDate);
      && r.reply.status == StatusOk
      && r.state.appointments[id].status == target
  {
    StatusNamesRoundTrip(target, StatusName(target));
  }

  /** Creating, updating and cancelling keep every stored appointment valid. */
  lemma AppointmentWritesPreserveValidity(db: Db, cred: Credentials, body: CreateBody, castDate: DateCaster, newId: Id, now: Time, id: Id, patch: Patch)
    requires ValidDb(db)
    requires newId !in db.appointments
    ensures ValidDb(Create(db, cred, body, castDate, newId, now).state)
    ensures ValidDb(Update(db, cred, id, patch, castDate).state)
    ensures ValidDb(Cancel(db, cred, id).state)
  {
  }

  /** An administrator's list holds every user's own list, record for record. */
  lemma AdminListCoversEveryOwnList(db: Db, admin: Credentials, user: Credentials)
    requires Gate(admin, db.users, true).Authenticated?
    requires ListMine(db, user).Json?
    ensures ListAll(db, admin).Json?
    ensures forall id :: id in ListMine(db, user).value ==>
      id in ListAll(db, admin).value && ListAll(db, admin).value[id] == ListMine(db, user).value[id]
  {
  }

  /** A created appointment is listed, as created, among the creator's own. */
  lemma CreateThenListMine(db: Db, cred: Credentials, body: CreateBody, castDate: DateCaster, newId: Id, now: Time)
    requires newId !in db.appointments
    requires Create(db, cred, body, castDate, newId, now).reply.status == StatusCreated
    ensures var r := Create(db, cred, body, castDate, newId, now);
      var mine := ListMine(r.state, cred);
      && mine.Json?
      && newId in mine.value
      && mine.value[newId] == r.reply.value.doc
      && |mine.value| == |ListMine(db, cred).value| + 1
  {
    var r := Create(db, cred, body, castDate, newId, now);
    var p := Gate(cred, db.users, false).principal.id;
    var before := OwnedBy(db.appointments, p);
    var after := OwnedBy(r.state.appointments, p);
    assert after.Keys == before.Keys + {newId};
    assert newId !in before.Keys;
  }
}
