/**
 * The Mongoose schemas of the backend as datatypes: users, appointments,
 * forum posts with their comments, counsellors and analytics entries, and
 * the document store that holds one map per collection.
 *
 * Object ids are natural numbers, dates are ticks of an abstract monotone
 * clock, and the bcrypt hash is an abstract function supplied by the caller.
 */
module Models {
  import opened Common

  /** A document's `_id`. */
  type Id = nat

  /** A tick of the clock behind `createdAt` and `timestamp`; only its order matters. */
  type Time = nat

  // ---------------------------------------------------------------------
  // User (backend/src/models/user.ts)

  /** `"user" | "admin"`. */
  datatype Role = UserRole | AdminRole

  function RoleName(r: Role): string {
    match r
    case UserRole => "user"
    case AdminRole => "admin"
  }

  /**
   * The schema's enum check on `role`: an absent role takes the default
   * `"user"`, and a value outside the enum fails validation (`None`).
   */
  function RoleFromName(s: Option<string>): (r: Option<Role>)
    ensures s.None? ==> r == Some(UserRole)
  {
    match s
    case None => Some(UserRole)
    case Some(n) =>
      if n == "user" then Some(UserRole)
      else if n == "admin" then Some(AdminRole)
      else None
  }

  /** The enum check accepts exactly the two role names, each as its own role. */
  lemma RoleNamesRoundTrip(r: Role, s: string)
    ensures RoleFromName(Some(RoleName(r))) == Some(r)
    ensures RoleFromName(Some(s)).Some? ==> s == RoleName(RoleFromName(Some(s)).value)
  {
  }

  /** A stored user; `password` holds the hash, never the clear text. */
  datatype User = User(
    name: string,
    email: string,
    password: string,
    age: Option<int>,
    college: Option<string>,
    phone: Option<string>,
    gender: Option<string>,
    role: Role
  )

  /**
   * The schema's validation: required `name` and `email` are non-empty and
   * the email is stored lower-cased. The required `password` is checked
   * before the save hook replaces it with its hash, so the stored hash
   * carries no constraint here.
   */
  predicate ValidUser(u: User) {
    u.name != "" && u.email != "" && IsLower(u.email)
  }

  /** The unique index on `email`. */
  predicate UniqueEmails(users: map<Id, User>) {
    forall a, b :: a in users && b in users && users[a].email == users[b].email ==> a == b
  }

  /** The `pre("save")` hook: the password is re-hashed only when it was modified. */
  function HashOnSave(u: User, passwordModified: bool, hash: string -> string): (r: User)
    ensures r.password == (if passwordModified then hash(u.password) else u.password)
    ensures r.(password := u.password) == u
  {
    if passwordModified then u.(password := hash(u.password)) else u
  }

  /** `comparePassword`: the candidate is checked against the stored hash only. */
  function ComparePassword(u: User, candidate: string, compare: (string, string) -> bool): (ok: bool)
    ensures forall v: User :: v.password == u.password ==> ok == compare(candidate, v.password)
  {
    compare(candidate, u.password)
  }

  // ---------------------------------------------------------------------
  // Appointment (backend/src/models/Appointment.ts)

  datatype Status = Pending | Confirmed | Completed | Cancelled

  function StatusName(s: Status): string {
    match s
    case Pending => "pending"
    case Confirmed => "confirmed"
    case Completed => "completed"
    case Cancelled => "cancelled"
  }

  /** The schema's enum check on `status`: `None` for a value outside the enum. */
  function StatusFromName(n: string): Option<Status> {
    if n == "pending" then Some(Pending)
    else if n == "confirmed" then Some(Confirmed)
    else if n == "completed" then Some(Completed)
    else if n == "cancelled" then Some(Cancelled)
    else None
  }

  /** The enum check accepts exactly the four status names, each as its own status. */
  lemma StatusNamesRoundTrip(s: Status, n: string)
    ensures StatusFromName(StatusName(s)) == Some(s)
    ensures StatusFromName(n).Some? ==> StatusName(StatusFromName(n).value) == n
  {
  }

  /**
   * Mongoose's cast of a request string to a `Date`: the instant the string
   * denotes, or `None` where no date can be read from it (a `CastError`
   * that makes `save()` throw).
   */
  type DateCaster = string -> Option<Time>

  /** The cast of a `Date` path: an empty string becomes `null`, which `required` rejects. */
  function CastDate(castDate: DateCaster, s: string): (t: Option<Time>)
    ensures s == "" ==> t.None?
    ensures s != "" ==> t == castDate(s)
  {
    if s == "" then None else castDate(s)
  }

  /** Mongoose's cast of a `Number` path from the text the client sent; `None` where it throws. */
  type NumberCaster = string -> Option<int>

  /**
   * The value an optional path holds once the field `f` of a body is cast:
   * nothing when the field is absent or "" (which casts to `null`), else
   * what the schema type's cast yields. An outer `None` is a cast error,
   * which makes `save()` reject.
   */
  function CastOptional<T>(cast: string -> Option<T>, f: Option<string>): (r: Option<Option<T>>)
    ensures r.None? <==> f.Some? && f.value != "" && cast(f.value).None?
    ensures (f.None? || f == Some("")) ==> r == Some(None)
    ensures r.Some? && f.Some? && f.value != "" ==> r.value == cast(f.value)
  {
    if f.None? || f.value == "" then Some(None)
    else match cast(f.value)
      case None => None
      case Some(v) => Some(Some(v))
  }

  /** A stored appointment; `scheduledAt` holds the instant the request's date string was cast to. */
  datatype Appointment = Appointment(
    collegeName: string,
    userId: Id,
    counsellorId: Option<Id>,
    scheduledAt: Time,
    status: Status,
    notes: Option<string>,
    createdAt: Time
  )

  /**
   * The required `collegeName` is present. The required `scheduledAt` is
   * present by construction: a stored appointment holds a cast instant.
   */
  predicate ValidAppointment(a: Appointment) {
    a.collegeName != ""
  }

  // ---------------------------------------------------------------------
  // ForumPost and Comment (backend/src/models/ForumPost.ts)

  datatype Comment = Comment(authorId: Id, text: string, createdAt: Time)

  /**
   * `upvotes` is `None` only for a document stored without the field;
   * every post created through the schema starts at `Some(0)`.
   */
  datatype ForumPost = ForumPost(
    authorId: Id,
    title: Option<string>,
    body: string,
    tags: seq<string>,
    collegeName: Option<string>,
    comments: seq<Comment>,
    isAnonymous: bool,
    upvotes: Option<int>,
    createdAt: Time
  )

  /** Required `body` and, in every comment, required `text`. */
  predicate ValidPost(p: ForumPost) {
    p.body != "" && forall i :: 0 <= i < |p.comments| ==> p.comments[i].text != ""
  }

  // ---------------------------------------------------------------------
  // Counsellor (backend/src/models/Counceller.ts)

  datatype Counsellor = Counsellor(
    collegeName: string,
    name: string,
    phone: Option<string>,
    roomNumber: Option<string>,
    email: Option<string>,
    gender: Option<string>,
    designation: Option<string>,
    rating: int,
    userId: Option<Id>
  )

  /** Required `collegeName` and `name`. */
  predicate ValidCounsellor(c: Counsellor) {
    c.collegeName != "" && c.name != ""
  }

  // ---------------------------------------------------------------------
  // Analytics entry (backend/src/models/Analytics.ts)

  /** `timestamp` is `null` when the body sent an empty one. */
  datatype AnalyticsEntry = AnalyticsEntry(
    timestamp: Option<Time>,
    totalAppointments: Option<int>,
    collegeId: Option<string>,
    resourcesConsumed: Option<int>,
    distressedKeywords: seq<string>,
    forumPostsCount: Option<int>
  )

  // ---------------------------------------------------------------------
  // The document store

  /** A document as a route returns it: its `_id` alongside its fields. */
  datatype Stored<+T> = Stored(id: Id, doc: T)

  datatype Db = Db(
    users: map<Id, User>,
    appointments: map<Id, Appointment>,
    posts: map<Id, ForumPost>,
    counsellors: map<Id, Counsellor>,
    analytics: map<Id, AnalyticsEntry>
  )

  /** What the schemas and the unique index guarantee of stored documents. */
  predicate ValidDb(db: Db) {
    && (forall id :: id in db.users ==> ValidUser(db.users[id]))
    && UniqueEmails(db.users)
    && (forall id :: id in db.appointments ==> ValidAppointment(db.appointments[id]))
    && (forall id :: id in db.posts ==> ValidPost(db.posts[id]))
  }
}
