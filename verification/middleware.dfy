/**
 * The Express middleware of backend/src/middleware/auth.ts: `requireAuth`
 * turns an `Authorization` header into the stored user it names, and
 * `requireAdmin` lets only administrators through.
 *
 * JSON Web Token verification is a function supplied by the caller: it
 * yields the `id` claim of a token it accepts and `None` where `jwt.verify`
 * throws (bad signature, expired, malformed).
 */
module AuthMiddleware {
  import opened Common
  import opened Models
  import opened Http

  /** `jwt.verify(token, JWT_SECRET).id`, or `None` when verification throws. */
  type Verifier = string -> Option<Id>

  /** The authentication scheme prefix, matched case-sensitively (RFC 6750 section 2.1). */
  const BearerPrefix := "Bearer "

  /** The authenticated user attached to the request as `req.user`. */
  datatype Principal = Principal(id: Id, user: User)

  /** Either `next()` is called with the principal, or the request ends with a status. */
  datatype AuthResult =
    | Authenticated(principal: Principal)
    | Rejected(status: int, message: string)

  /** What a route receives from the client and the server's token verifier. */
  datatype Credentials = Credentials(authorization: Option<string>, verify: Verifier)

  /**
   * `auth.split(" ")[1]`: the text between the first and the second space
   * of the header, i.e. everything after `"Bearer "` up to the next space.
   */
  function BearerToken(header: string): (t: string)
    requires StartsWith(header, BearerPrefix)
    ensures ' ' !in t
    ensures StartsWith(header[|BearerPrefix|..], t)
    ensures |header| == |BearerPrefix| + |t| || header[|BearerPrefix| + |t|] == ' '
  {
    var rest := header[|BearerPrefix|..];
    assert header == "Bearer" + [' '] + rest;
    SplitAfterSeparator("Bearer", rest, ' ');
    SplitHead(rest, ' ');
    Split(header, ' ')[1]
  }

  /** A header of the form `Bearer <token>` with a space-free token yields that token. */
  lemma BearerTokenOfWellFormedHeader(token: string)
    requires ' ' !in token
    ensures StartsWith(BearerPrefix + token, BearerPrefix)
    ensures BearerToken(BearerPrefix + token) == token
  {
    var h := BearerPrefix + token;
    assert h[..|BearerPrefix|] == BearerPrefix;
    assert h[|BearerPrefix|..] == token;
  }

  /** `requireAuth`. Every failure is a 401; success names a stored user. */
  function RequireAuth(header: Option<string>, verify: Verifier, users: map<Id, User>): (r: AuthResult)
    ensures r.Rejected? ==> r.status == StatusUnauthorized
    ensures r.Authenticated? <==>
      && header.Some?
      && StartsWith(header.value, BearerPrefix)
      && verify(BearerToken(header.value)).Some?
      && verify(BearerToken(header.value)).value in users
    ensures r.Authenticated? ==>
      && r.principal.id == verify(BearerToken(header.value)).value
      && r.principal.user == users[r.principal.id]
  {
    if header.None? || !StartsWith(header.value, BearerPrefix) then
      Rejected(StatusUnauthorized, "Unauthorized")
    else
      match verify(BearerToken(header.value))
      case None => Rejected(StatusUnauthorized, "Invalid token")
      case Some(id) =>
        if id !in users then Rejected(StatusUnauthorized, "Invalid token user not found")
        else Authenticated(Principal(id, users[id]))
  }

  /** `requireAdmin`: 401 without a user, 403 for a non-admin, otherwise `next()`. */
  function RequireAdmin(user: Option<Principal>): (r: AuthResult)
    ensures user.None? ==> r.Rejected? && r.status == StatusUnauthorized
    ensures user.Some? && user.value.user.role != AdminRole ==> r.Rejected? && r.status == StatusForbidden
    ensures r.Authenticated? <==> user.Some? && user.value.user.role == AdminRole
    ensures r.Authenticated? ==> r.principal == user.value
  {
    match user
    case None => Rejected(StatusUnauthorized, "Unauthorized")
    case Some(p) =>
      if p.user.role != AdminRole then Rejected(StatusForbidden, "Admin only")
      else Authenticated(p)
  }

  /** The middleware chain of a route: `requireAuth`, then `requireAdmin` on admin routes. */
  function Gate(cred: Credentials, users: map<Id, User>, adminOnly: bool): (r: AuthResult)
    ensures r.Authenticated? <==>
      && RequireAuth(cred.authorization, cred.verify, users).Authenticated?
      && (adminOnly ==> RequireAuth(cred.authorization, cred.verify, users).principal.user.role == AdminRole)
    ensures r.Authenticated? ==> r == RequireAuth(cred.authorization, cred.verify, users)
    ensures r.Rejected? ==> r.status == StatusUnauthorized || r.status == StatusForbidden
    ensures r.Rejected? && r.status == StatusForbidden ==>
      adminOnly && RequireAuth(cred.authorization, cred.verify, users).Authenticated?
  {
    match RequireAuth(cred.authorization, cred.verify, users)
    case Rejected(s, m) => Rejected(s, m)
    case Authenticated(p) => if adminOnly then RequireAdmin(Some(p)) else Authenticated(p)
  }
}
