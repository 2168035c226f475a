/**
 * The routes of backend/src/routes/counsellors.ts. Reading needs only a
 * signed-in user; creating, updating and deleting need an administrator.
 * Update and delete do not report an absent id: update answers `null` and
 * delete always answers "Deleted".
 */
module CounsellorRoutes {
  import opened Common
  import opened Models
  import opened Http
  import opened AuthMiddleware

  /** A request body for create and update: any subset of the schema's fields. */
  datatype CounsellorBody = CounsellorBody(
    collegeName: Option<string>,
    name: Option<string>,
    phone: Option<string>,
    roomNumber: Option<string>,
    email: Option<string>,
    gender: Option<string>,
    designation: Option<string>,
    rating: Option<int>,
    userId: Option<Id>
  )

  /** `new Counsellor(req.body)` then validation: `None` when a required field is missing. */
  function FromBody(b: CounsellorBody): (r: Option<Counsellor>)
    ensures r.Some? <==> Filled(b.collegeName) && Filled(b.name)
    ensures r.Some? ==>
      && ValidCounsellor(r.value)
      && r.value.collegeName == b.collegeName.value
      && r.value.name == b.name.value
      && r.value.rating == b.rating.GetOr(0)
      && r.value.userId == b.userId
      && r.value.phone == b.phone && r.value.roomNumber == b.roomNumber && r.value.email == b.email
      && r.value.gender == b.gender && r.value.designation == b.designation
  {
    if !Filled(b.collegeName) || !Filled(b.name) then None
    else Some(Counsellor(b.collegeName.value, b.name.value, b.phone, b.roomNumber, b.email,
                         b.gender, b.designation, b.rating.GetOr(0), b.userId))
  }

  /** `findByIdAndUpdate(id, body)`: present fields replace, no validators run. */
  function Overwrite(c: Counsellor, b: CounsellorBody): (r: Counsellor)
    ensures r.collegeName == b.collegeName.GetOr(c.collegeName)
    ensures r.name == b.name.GetOr(c.name)
    ensures r.rating == b.rating.GetOr(c.rating)
    ensures b.phone.Some? ==> r.phone == b.phone
    ensures b.phone.None? ==> r.phone == c.phone
    ensures b.roomNumber.Some? ==> r.roomNumber == b.roomNumber
    ensures b.roomNumber.None? ==> r.roomNumber == c.roomNumber
    ensures b.email.Some? ==> r.email == b.email
    ensures b.email.None? ==> r.email == c.email
    ensures b.gender.Some? ==> r.gender == b.gender
    ensures b.gender.None? ==> r.gender == c.gender
    ensures b.designation.Some? ==> r.designation == b.designation
    ensures b.designation.None? ==> r.designation == c.designation
    ensures b.userId.Some? ==> r.userId == b.userId
    ensures b.userId.None? ==> r.userId == c.userId
  {
    Counsellor(
      b.collegeName.GetOr(c.collegeName),
      b.name.GetOr(c.name),
      if b.phone.Some? then b.phone else c.phone,
      if b.roomNumber.Some? then b.roomNumber else c.roomNumber,
      if b.email.Some? then b.email else c.email,
      if b.gender.Some? then b.gender else c.gender,
      if b.designation.Some? then b.designation else c.designation,
      b.rating.GetOr(c.rating),
      if b.userId.Some? then b.userId else c.userId)
  }

  /** POST / (admin): stores the body as a counsellor, `rating` defaulting to 0. */
  function Create(db: Db, cred: Credentials, body: CounsellorBody, newId: Id): (r: Outcome<Stored<Counsellor>, Db>)
    requires newId !in db.counsellors
    ensures var g := Gate(cred, db.users, true);
      && (g.Rejected? ==> r.reply == Fail(g.status, g.message))
      && (r.reply.status == StatusCreated <==> g.Authenticated? && FromBody(body).Some?)
    ensures r.reply.status == StatusCreated ==>
      && RequireAuth(cred.authorization, cred.verify, db.users).principal.user.role == AdminRole
      && r.reply == Json(StatusCreated, Stored(newId, FromBody(body).value))
      && r.state == db.(counsellors := db.counsellors[newId := FromBody(body).value])
    ensures r.reply.status != StatusCreated ==> r.state == db
  {
    match Gate(cred, db.users, true)
    case Rejected(s, m) => Outcome(Fail(s, m), db)
    case Authenticated(_) =>
      match FromBody(body)
      case None => Outcome(Fail(StatusServerError, "Counsellor validation failed"), db)
      case Some(c) => Outcome(Json(StatusCreated, Stored(newId, c)), db.(counsellors := db.counsellors[newId := c]))
  }

  /** GET /: the counsellors of the queried college, or all when no query is given. */
  function List(db: Db, cred: Credentials, college: Option<string>): (r: Reply<map<Id, Counsellor>>)
    ensures var g := Gate(cred, db.users, false);
      && (g.Rejected? ==> r == Fail(g.status, g.message))
      && (g.Authenticated? <==> r.Json?)
    ensures r.Json? ==>
      && r.status == StatusOk
      && (forall id :: id in r.value <==>
            id in db.counsellors && (Filled(college) ==> db.counsellors[id].collegeName == college.value))
      && (forall id :: id in r.value ==> r.value[id] == db.counsellors[id])
      && (!Filled(college) ==> r.value == db.counsellors)
  {
    match Gate(cred, db.users, false)
    case Rejected(s, m) => Fail(s, m)
    case Authenticated(_) =>
      if Filled(college) then
        Json(StatusOk, map id | id in db.counsellors && db.counsellors[id].collegeName == college.value :: db.counsellors[id])
      else Json(StatusOk, db.counsellors)
  }

  /** GET /:id. */
  function Get(db: Db, cred: Credentials, id: Id): (r: Reply<Stored<Counsellor>>)
    ensures var g := Gate(cred, db.users, false);
      && (g.Rejected? ==> r == Fail(g.status, g.message))
      && (g.Authenticated? && id !in db.counsellors ==> r == Fail(StatusNotFound, "Not found"))
      && (g.Authenticated? && id in db.counsellors ==> r == Json(StatusOk, Stored(id, db.counsellors[id])))
  {
    match Gate(cred, db.users, false)
    case Rejected(s, m) => Fail(s, m)
    case Authenticated(_) =>
      if id !in db.counsellors then Fail(StatusNotFound, "Not found") else Json(StatusOk, Stored(id, db.counsellors[id]))
  }

  /** PUT /:id (admin): an absent id answers 200 with `null`, not 404. */
  function Update(db: Db, cred: Credentials, id: Id, body: CounsellorBody): (r: Outcome<Option<Stored<Counsellor>>, Db>)
    ensures var g := Gate(cred, db.users, true);
      && (g.Rejected? ==> r.reply == Fail(g.status, g.message) && r.state == db)
      && (g.Authenticated? <==> r.reply.Json?)
    ensures r.reply.Json? ==> r.reply.status == StatusOk
    ensures r.reply.Json? && id !in db.counsellors ==> r.reply.value == None && r.state == db
    ensures r.reply.Json? && id in db.counsellors ==>
      && r.reply.value == Some(Stored(id, Overwrite(db.counsellors[id], body)))
      && r.state == db.(counsellors := db.counsellors[id := Overwrite(db.counsellors[id], body)])
  {
    match Gate(cred, db.users, true)
    case Rejected(s, m) => Outcome(Fail(s, m), db)
    case Authenticated(_) =>
      if id !in db.counsellors then Outcome(Json(StatusOk, None), db)
      else
        var c := Overwrite(db.counsellors[id], body);
        Outcome(Json(StatusOk, Some(Stored(id, c))), db.(counsellors := db.counsellors[id := c]))
  }

  /** DELETE /:id (admin): always "Deleted"; the id is gone afterwards. */
  function Delete(db: Db, cred: Credentials, id: Id): (r: Outcome<string, Db>)
    ensures var g := Gate(cred, db.users, true);
      && (g.Rejected? ==> r.reply == Fail(g.status, g.message) && r.state == db)
      && (g.Authenticated? ==> r.reply == Json(StatusOk, "Deleted") && r.state == db.(counsellors := db.counsellors - {id}))
  {
    match Gate(cred, db.users, true)
    case Rejected(s, m) => Outcome(Fail(s, m), db)
    case Authenticated(_) => Outcome(Json(StatusOk, "Deleted"), db.(counsellors := db.counsellors - {id}))
  }

  /** Only administrators change the counsellor collection. */
  lemma OnlyAdminsWriteCounsellors(db: Db, cred: Credentials, body: CounsellorBody, newId: Id, id: Id)
    requires newId !in db.counsellors
    requires !Gate(cred, db.users, true).Authenticated?
    ensures Create(db, cred, body, newId).state == db
    ensures Update(db, cred, id, body).state == db
    ensures Delete(db, cred, id).state == db
  {
  }

  /**
   * A created counsellor can be fetched by any signed-in user and is listed
   * under its own college.
   */
  lemma CreateThenRead(db: Db, admin: Credentials, reader: Credentials, body: CounsellorBody, newId: Id)
    requires newId !in db.counsellors
    requires Create(db, admin, body, newId).reply.status == StatusCreated
    requires Gate(reader, db.users, false).Authenticated?
    ensures var after := Create(db, admin, body, newId).state;
      && Get(after, reader, newId) == Json(StatusOk, Stored(newId, FromBody(body).value))
      && var listed := List(after, reader, body.collegeName);
      && listed.Json? && newId in listed.value && listed.value[newId] == FromBody(body).value
  {
  }

  /** An update is what a later fetch returns; a deleted id is not found any more. */
  lemma UpdateAndDeleteThenGet(db: Db, admin: Credentials, reader: Credentials, id: Id, body: CounsellorBody)
    requires Gate(admin, db.users, true).Authenticated?
    requires Gate(reader, db.users, false).Authenticated?
    ensures id in db.counsellors ==>
      Get(Update(db, admin, id, body).state, reader, id) == Json(StatusOk, Stored(id, Overwrite(db.counsellors[id], body)))
    ensures id !in db.counsellors ==> Get(Update(db, admin, id, body).state, reader, id) == Fail(StatusNotFound, "Not found")
    ensures Get(Delete(db, admin, id).state, reader, id) == Fail(StatusNotFound, "Not found")
  {
  }
}
