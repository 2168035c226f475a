/**
 * What a route handler hands back to the HTTP layer: a status code with
 * either a JSON body or an error message, paired with the state of the
 * document store after the request.
 */
module Http {

  const StatusOk := 200
  const StatusCreated := 201
  const StatusBadRequest := 400
  const StatusUnauthorized := 401
  const StatusForbidden := 403
  const StatusNotFound := 404
  const StatusConflict := 409
  /** What Express reports for an error thrown out of a handler, such as a
      rejected `save()`. */
  const StatusServerError := 500

  /** `res.status(code).json(value)` or `res.status(code).json({ message })`. */
  datatype Reply<+T> =
    | Json(status: int, value: T)
    | Fail(status: int, message: string)

  /** A reply together with the state of the store after the request. */
  datatype Outcome<+T, +S> = Outcome(reply: Reply<T>, state: S)
}
