/** Identifiers, optional values and the HTTP error results every handler returns. */
module Common {

  /** Document ids (MongoDB ObjectIds) are modelled as natural numbers. */
  type UserId = nat
  type EventId = nat
  type CommentId = nat

  /** A JavaScript value that may be `undefined` (or `null`, where the source treats both alike). */
  datatype Option<+T> = None | Some(value: T)

  /** The `{ error | message }` body sent together with a non-2xx status code. */
  datatype HttpError = HttpError(status: nat, message: string)

  /** What a handler answers: a success payload, or an HTTP error. */
  datatype Result<+T> = Ok(value: T) | Err(error: HttpError)

  const BadRequest: nat := 400
  const Forbidden: nat := 403
  const NotFound: nat := 404
  const ServerError: nat := 500
}
