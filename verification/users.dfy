/**
 * The routes of backend/src/routes/users.ts: the caller's own profile, and
 * the admin-only list of users. Neither ever returns a password hash.
 */
module UserRoutes {
  import opened Common
  import opened Models
  import opened Http
  import opened AuthMiddleware

  /**
   * A user without the password: the eight fields GET /me lists, and what
   * `select("-password")` leaves of a user document.
   */
  datatype Profile = Profile(
    id: Id,
    name: string,
    email: string,
    age: Option<int>,
    college: Option<string>,
    phone: Option<string>,
    gender: Option<string>,
    role: Role
  )

  /** Users that differ at most in their password hashes. */
  predicate SameButPasswords(a: map<Id, User>, b: map<Id, User>) {
    a.Keys == b.Keys && forall id :: id in a ==> a[id].(password := b[id].password) == b[id]
  }

  function ProfileOf(id: Id, u: User): (p: Profile)
    ensures p.id == id && p.name == u.name && p.email == u.email && p.role == u.role
    ensures p.age == u.age && p.college == u.college && p.phone == u.phone && p.gender == u.gender
  {
    Profile(id, u.name, u.email, u.age, u.college, u.phone, u.gender, u.role)
  }

  /** GET /me: any signed-in user, administrator or not, gets their own profile. */
  function Me(db: Db, cred: Credentials): (r: Reply<Profile>)
    ensures var g := Gate(cred, db.users, false);
      && (g.Rejected? ==> r == Fail(g.status, g.message))
      && (g.Authenticated? ==> r.Json? && r.status == StatusOk && r.value == ProfileOf(g.principal.id, g.principal.user))
  {
    match Gate(cred, db.users, false)
    case Rejected(s, m) => Fail(s, m)
    case Authenticated(p) => Json(StatusOk, ProfileOf(p.id, p.user))
  }

  /** GET / (admin): every user, without the password field. */
  function ListUsers(db: Db, cred: Credentials): (r: Reply<map<Id, Profile>>)
    ensures var g := Gate(cred, db.users, true);
      && (g.Rejected? ==> r == Fail(g.status, g.message))
      && (g.Authenticated? <==> r.Json?)
    ensures r.Json? ==>
      && RequireAuth(cred.authorization, cred.verify, db.users).principal.user.role == AdminRole
      && r.status == StatusOk
      && r.value.Keys == db.users.Keys
      && forall id :: id in r.value ==> r.value[id] == ProfileOf(id, db.users[id])
  {
    match Gate(cred, db.users, true)
    case Rejected(s, m) => Fail(s, m)
    case Authenticated(_) => Json(StatusOk, map id | id in db.users :: ProfileOf(id, db.users[id]))
  }

  /** Stores that differ only in password hashes authenticate the same callers. */
  lemma GateIgnoresPasswords(a: map<Id, User>, b: map<Id, User>, cred: Credentials, adminOnly: bool)
    requires SameButPasswords(a, b)
    ensures Gate(cred, a, adminOnly).Authenticated? == Gate(cred, b, adminOnly).Authenticated?
    ensures Gate(cred, a, adminOnly).Rejected? ==> Gate(cred, a, adminOnly) == Gate(cred, b, adminOnly)
    ensures Gate(cred, a, adminOnly).Authenticated? ==>
      Gate(cred, a, adminOnly).principal.id == Gate(cred, b, adminOnly).principal.id
  {
  }

  /** Neither route's reply depends on any stored password hash. */
  lemma RepliesHidePasswords(db: Db, other: map<Id, User>, cred: Credentials)
    requires SameButPasswords(db.users, other)
    ensures Me(db, cred) == Me(db.(users := other), cred)
    ensures ListUsers(db, cred) == ListUsers(db.(users := other), cred)
  {
    var db2 := db.(users := other);
    GateIgnoresPasswords(db.users, other, cred, false);
    GateIgnoresPasswords(db.users, other, cred, true);
    var g := Gate(cred, db.users, false);
    if g.Authenticated? {
      var id := g.principal.id;
      assert g.principal.user == db.users[id];
      assert Gate(cred, other, false).principal.user == other[id];
      assert ProfileOf(id, db.users[id]) == ProfileOf(id, other[id]);
    }
    var l1 := ListUsers(db, cred);
    var l2 := ListUsers(db2, cred);
    if l1.Json? {
      forall id | id in db.users ensures ProfileOf(id, db.users[id]) == ProfileOf(id, other[id]) {
        assert db.users[id].(password := other[id].password) == other[id];
      }
      assert l1.value == l2.value;
    }
  }
}
