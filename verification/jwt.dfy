/**
 * JSON Web Tokens as the backend issues and checks them: the claims that
 * are signed, the laws of `jsonwebtoken` the model relies on, and the
 * secret that each of the two modules using the library reads.
 *
 * The secret comes from the `JWT_SECRET` environment variable. The
 * process may define it at start-up, and `dotenv.config()` copies the
 * `.env` file's entry into the environment only where the process left it
 * undefined. The compiled server (backend/dist/index.js) loads
 * routes/auth.ts at line 12, before anything has called `dotenv.config()`;
 * the middleware module calls it itself before reading the variable
 * (backend/src/middleware/auth.ts:5,15), and it is loaded at line 13.
 */
module Jwt {
  import opened Common
  import opened Models

  /** The `expiresIn` option of both `jwt.sign` calls. */
  const TokenLifetime := "1h"

  /** What is signed into a token: only the user id, with a fixed lifetime. */
  datatype TokenClaims = TokenClaims(id: Id, expiresIn: string)

  /** `jwt.sign(claims, secret)`, and `jwt.verify(token, secret).id` with `None` where it throws. */
  datatype JwtLibrary = JwtLibrary(
    sign: (string, TokenClaims) -> string,
    verify: (string, string) -> Option<Id>
  )

  /**
   * What the model takes for granted about the library: a token verifies
   * under the non-empty secret it was signed with and yields its id; it
   * is rejected under any other secret; and, being dot-separated
   * base64url, it contains no space. The first law holds at every time, so
   * it describes a token used within its one-hour lifetime: expiry is not
   * modelled.
   */
  ghost predicate Sound(lib: JwtLibrary) {
    && (forall k, c :: k != "" ==> lib.verify(k, lib.sign(k, c)) == Some(c.id))
    && (forall k, k', c :: k != k' ==> lib.verify(k', lib.sign(k, c)) == None)
    && (forall k, c :: ' ' !in lib.sign(k, c))
  }

  /** The signer under secret `k`, as the auth routes call it. */
  function Signer(lib: JwtLibrary, k: string): (sign: TokenClaims -> string)
    ensures forall c :: sign(c) == lib.sign(k, c)
  {
    c => lib.sign(k, c)
  }

  /** The verifier under secret `k`, as the middleware calls it. */
  function Verifying(lib: JwtLibrary, k: string): (verify: string -> Option<Id>)
    ensures forall t :: verify(t) == lib.verify(k, t)
  {
    t => lib.verify(k, t)
  }

  /** `JWT_SECRET` as the process defines it and as the `.env` file gives it. */
  datatype Env = Env(processEnv: Option<string>, dotenvFile: Option<string>)

  /** `process.env.JWT_SECRET` once `dotenv.config()` has run: the file fills only an undefined variable. */
  function AfterDotenv(env: Env): (v: Option<string>)
    ensures env.processEnv.Some? ==> v == env.processEnv
    ensures env.processEnv.None? ==> v == env.dotenvFile
  {
    if env.processEnv.Some? then env.processEnv else env.dotenvFile
  }

  /**
   * The secret of routes/auth.ts, read when that module loads, before
   * `dotenv.config()` has run: the process's value, else "changeme".
   */
  function SignSecretAsWritten(env: Env): (k: string)
    ensures k != ""
    ensures Filled(env.processEnv) ==> k == env.processEnv.value
  {
    OrElse(env.processEnv, "changeme")
  }

  /** The middleware's secret, read after `dotenv.config()`: the value, else "". */
  function VerifySecret(env: Env): (k: string)
    ensures Filled(AfterDotenv(env)) ==> k == AfterDotenv(env).value
    ensures !Filled(AfterDotenv(env)) ==> k == ""
  {
    OrElse(AfterDotenv(env), "")
  }

  /**
   * One secret for signer and verifier alike, read after `dotenv.config()`
   * with the signer's fallback: what the two modules evidently mean to share.
   */
  function SharedSecret(env: Env): (k: string)
    ensures k != ""
    ensures Filled(AfterDotenv(env)) ==> k == AfterDotenv(env).value
  {
    OrElse(AfterDotenv(env), "changeme")
  }

  /**
   * The two secrets as written agree exactly when the process itself sets a
   * non-empty `JWT_SECRET`, or leaves it undefined while `.env` happens to
   * hold "changeme". A value only in `.env`, an empty value or no value at
   * all makes them differ.
   */
  lemma SecretsAgreeAsWritten(env: Env)
    ensures SignSecretAsWritten(env) == VerifySecret(env) <==>
      Filled(env.processEnv) || (env.processEnv.None? && env.dotenvFile == Some("changeme"))
  {
  }
}
