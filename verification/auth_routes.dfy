/**
 * The `/register` and `/login` routes of backend/src/routes/auth.ts.
 *
 * Token signing, bcrypt hashing and comparison, and the email validator
 * are opaque collaborators supplied in `Crypto`. A signed token is modelled
 * by the claims handed to the signer: the user id and the fixed lifetime.
 * The last lemmas plug in the JSON Web Token library under the secret each
 * module reads, and show when a token issued here passes `requireAuth`.
 */
module AuthRoutes {
  import opened Common
  import opened Models
  import opened Http
  import opened AuthMiddleware
  import opened Jwt

  /** `{ id, email, name, role }`: the user as the two routes return it. */
  datatype PublicUser = PublicUser(id: Id, email: string, name: string, role: Role)

  /** The JSON body `{ token, user }`. */
  datatype Session = Session(token: string, user: PublicUser)

  /** The opaque collaborators: `jwt.sign`, `bcrypt.hash`, `bcrypt.compare`, `isValidEmail`. */
  datatype Crypto = Crypto(
    sign: TokenClaims -> string,
    hash: string -> string,
    compare: (string, string) -> bool,
    validEmail: string -> bool
  )

  datatype RegisterBody = RegisterBody(
    name: Option<string>,
    email: Option<string>,
    password: Option<string>,
    college: Option<string>,
    age: Option<int>,
    phone: Option<string>,
    gender: Option<string>,
    role: Option<string>
  )

  datatype LoginBody = LoginBody(email: Option<string>, password: Option<string>)

  /**
   * `User.findOne({ email })` finds a user. The schema's `lowercase` setter
   * is applied to the query value as well as to stored emails.
   */
  predicate EmailTaken(users: map<Id, User>, email: string) {
    exists id | id in users :: users[id].email == Lower(email)
  }

  /** The session a successful register or login returns for user `id`. */
  function SessionFor(id: Id, u: User, crypto: Crypto): (s: Session)
    ensures s.token == crypto.sign(TokenClaims(id, TokenLifetime))
    ensures s.user == PublicUser(id, u.email, u.name, u.role)
  {
    Session(crypto.sign(TokenClaims(id, TokenLifetime)), PublicUser(id, u.email, u.name, u.role))
  }

  /**
   * POST /register. Checks run in order: missing fields (400), invalid
   * email (400), email already registered (409); only then is a user stored,
   * with whatever role the client sent. A role outside the enum makes
   * `save()` throw (500).
   */
  function Register(db: Db, body: RegisterBody, crypto: Crypto, newId: Id): (r: Outcome<Session, Db>)
    requires newId !in db.users
    ensures r.reply.status != StatusCreated ==> r.state == db
    ensures !Filled(body.name) || !Filled(body.email) || !Filled(body.password) ==>
      r.reply == Fail(StatusBadRequest, "Missing fields")
    ensures Filled(body.name) && Filled(body.email) && Filled(body.password) ==>
      && (!crypto.validEmail(body.email.value) ==> r.reply == Fail(StatusBadRequest, "Invalid email"))
      && (crypto.validEmail(body.email.value) && EmailTaken(db.users, body.email.value) ==>
            r.reply == Fail(StatusConflict, "Email already registered"))
    ensures r.reply.status == StatusCreated <==>
      && Filled(body.name) && Filled(body.email) && Filled(body.password)
      && crypto.validEmail(body.email.value)
      && !EmailTaken(db.users, body.email.value)
      && RoleFromName(body.role).Some?
    ensures r.reply.status == StatusCreated ==>
      && r.reply.Json?
      && newId in r.state.users
      && r.state == db.(users := db.users[newId := r.state.users[newId]])
      && var u := r.state.users[newId];
      && u.role == RoleFromName(body.role).value
      && u.email == Lower(body.email.value)
      && u.name == body.name.value
      && u.password == crypto.hash(body.password.value)
      && u.age == body.age && u.college == body.college
      && u.phone == body.phone && u.gender == body.gender
      && r.reply.value == SessionFor(newId, u, crypto)
  {
    if !Filled(body.name) || !Filled(body.email) || !Filled(body.password) then
      Outcome(Fail(StatusBadRequest, "Missing fields"), db)
    else if !crypto.validEmail(body.email.value) then
      Outcome(Fail(StatusBadRequest, "Invalid email"), db)
    else if EmailTaken(db.users, body.email.value) then
      Outcome(Fail(StatusConflict, "Email already registered"), db)
    else
      match RoleFromName(body.role)
      case None => Outcome(Fail(StatusServerError, "User validation failed: role"), db)
      case Some(role) =>
        var created := User(body.name.value, Lower(body.email.value), body.password.value,
                          body.age, body.college, body.phone, body.gender, role);
        var saved := HashOnSave(created, true, crypto.hash);
        Outcome(Json(StatusCreated, SessionFor(newId, saved, crypto)),
                db.(users := db.users[newId := saved]))
  }

  /**
   * POST /login. Missing fields give 400; an unknown email and a wrong
   * password give the very same 401 reply. The store is never changed.
   */
  function Login(db: Db, body: LoginBody, crypto: Crypto): (r: Reply<Session>)
    requires UniqueEmails(db.users)
    ensures !Filled(body.email) || !Filled(body.password) ==> r == Fail(StatusBadRequest, "Missing fields")
    ensures r.Fail? && r.status != StatusBadRequest ==> r == Fail(StatusUnauthorized, "Invalid credentials")
    ensures Filled(body.email) && Filled(body.password) && !EmailTaken(db.users, body.email.value) ==>
      r == Fail(StatusUnauthorized, "Invalid credentials")
    ensures r.Json? <==>
      && Filled(body.email) && Filled(body.password)
      && exists id | id in db.users ::
           db.users[id].email == Lower(body.email.value) &&
           crypto.compare(body.password.value, db.users[id].password)
    ensures r.Json? ==>
      && r.status == StatusOk
      && r.value.user.id in db.users
      && r.value.user.email == Lower(body.email.value)
      && r.value == SessionFor(r.value.user.id, db.users[r.value.user.id], crypto)
  {
    if !Filled(body.email) || !Filled(body.password) then
      Fail(StatusBadRequest, "Missing fields")
    else if !EmailTaken(db.users, body.email.value) then
      Fail(StatusUnauthorized, "Invalid credentials")
    else
      var id :| id in db.users && db.users[id].email == Lower(body.email.value);
      if !ComparePassword(db.users[id], body.password.value, crypto.compare) then
        Fail(StatusUnauthorized, "Invalid credentials")
      else
        Json(StatusOk, SessionFor(id, db.users[id], crypto))
  }

  /** Registration keeps the store valid: stored emails stay lower-case and unique. */
  lemma RegisterPreservesValidity(db: Db, body: RegisterBody, crypto: Crypto, newId: Id)
    requires ValidDb(db)
    requires newId !in db.users
    ensures ValidDb(Register(db, body, crypto, newId).state)
  {
    var r := Register(db, body, crypto, newId);
    if r.reply.status == StatusCreated {
      var e := Lower(body.email.value);
      LowerIsIdempotent(body.email.value);
      assert forall id :: id in db.users ==> db.users[id].email != e;
    }
  }

  /** The register reply is the same whatever password was sent: it never carries it. */
  lemma RegisterReplyHidesPassword(db: Db, body: RegisterBody, crypto: Crypto, newId: Id, other: string)
    requires newId !in db.users
    requires Filled(body.password) && other != ""
    ensures Register(db, body, crypto, newId).reply ==
            Register(db, body.(password := Some(other)), crypto, newId).reply
  {
  }

  /**
   * Registering and then logging in with the same email and password
   * succeeds as the new user, provided `bcrypt.compare` accepts a password
   * against its own hash.
   */
  lemma RegisterThenLogin(db: Db, body: RegisterBody, crypto: Crypto, newId: Id)
    requires ValidDb(db)
    requires newId !in db.users
    requires Register(db, body, crypto, newId).reply.status == StatusCreated
    requires crypto.compare(body.password.value, crypto.hash(body.password.value))
    ensures UniqueEmails(Register(db, body, crypto, newId).state.users)
    ensures var r := Login(Register(db, body, crypto, newId).state, LoginBody(body.email, body.password), crypto);
      r.Json? && r.value.user.id == newId
  {
    var db' := Register(db, body, crypto, newId).state;
    RegisterPreservesValidity(db, body, crypto, newId);
    var u := db'.users[newId];
    assert u.email == Lower(body.email.value);
    assert EmailTaken(db'.users, body.email.value);
  }

  /**
   * With one secret shared by signer and verifier, the token a successful
   * registration returns authenticates the new user on every protected
   * route, whatever the environment holds.
   */
  lemma RegisterThenAuthenticate(db: Db, body: RegisterBody, crypto: Crypto, newId: Id, lib: JwtLibrary, env: Env)
    requires Sound(lib)
    requires newId !in db.users
    requires Register(db, body, crypto.(sign := Signer(lib, SharedSecret(env))), newId).reply.status == StatusCreated
    ensures var r := Register(db, body, crypto.(sign := Signer(lib, SharedSecret(env))), newId);
      var auth := RequireAuth(Some(BearerPrefix + r.reply.value.token), Verifying(lib, SharedSecret(env)), r.state.users);
      auth.Authenticated? && auth.principal.id == newId
  {
    var k := SharedSecret(env);
    var r := Register(db, body, crypto.(sign := Signer(lib, k)), newId);
    assert r.reply.value.token == lib.sign(k, TokenClaims(newId, TokenLifetime));
    BearerTokenOfWellFormedHeader(r.reply.value.token);
  }

  /**
   * As written, routes/auth.ts signs with its own secret and the middleware
   * verifies with another: the registration token authenticates exactly
   * when the two agree, and is otherwise refused as an invalid token.
   */
  lemma RegisterThenAuthenticateAsWritten(db: Db, body: RegisterBody, crypto: Crypto, newId: Id, lib: JwtLibrary, env: Env)
    requires Sound(lib)
    requires newId !in db.users
    requires Register(db, body, crypto.(sign := Signer(lib, SignSecretAsWritten(env))), newId).reply.status == StatusCreated
    ensures var r := Register(db, body, crypto.(sign := Signer(lib, SignSecretAsWritten(env))), newId);
      var auth := RequireAuth(Some(BearerPrefix + r.reply.value.token), Verifying(lib, VerifySecret(env)), r.state.users);
      && (auth.Authenticated? <==> SignSecretAsWritten(env) == VerifySecret(env))
      && (auth.Authenticated? ==> auth.principal.id == newId)
      && (auth.Rejected? ==> auth == Rejected(StatusUnauthorized, "Invalid token"))
  {
    var k := SignSecretAsWritten(env);
    var r := Register(db, body, crypto.(sign := Signer(lib, k)), newId);
    assert r.reply.value.token == lib.sign(k, TokenClaims(newId, TokenLifetime));
    BearerTokenOfWellFormedHeader(r.reply.value.token);
  }

  /**
   * A secret kept only in the `.env` file locks every new user out: the
   * token is signed with "changeme" and checked against the file's value.
   */
  lemma SecretOnlyInDotenvRejectsTokens(db: Db, body: RegisterBody, crypto: Crypto, newId: Id, lib: JwtLibrary, s: string)
    requires Sound(lib)
    requires s != "" && s != "changeme"
    requires newId !in db.users
    requires Register(db, body, crypto.(sign := Signer(lib, SignSecretAsWritten(Env(None, Some(s))))), newId).reply.status == StatusCreated
    ensures var r := Register(db, body, crypto.(sign := Signer(lib, SignSecretAsWritten(Env(None, Some(s))))), newId);
      RequireAuth(Some(BearerPrefix + r.reply.value.token), Verifying(lib, VerifySecret(Env(None, Some(s)))), r.state.users)
        == Rejected(StatusUnauthorized, "Invalid token")
  {
    var env := Env(None, Some(s));
    SecretsAgreeAsWritten(env);
    RegisterThenAuthenticateAsWritten(db, body, crypto, newId, lib, env);
  }
}
