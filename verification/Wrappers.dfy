/** The option and result types shared by every module. */
module Wrappers {

  datatype Option<+T> = None | Some(value: T)

  /** The outcome of a request: a value, or one of the errors the services raise. */
  datatype Result<+T> = Ok(value: T) | Err(error: Error)

  /** `NotFound`, `BadRequest` and `Forbidden` are the HTTP 404, 400 and 403 that the services raise
      themselves. `Constraint` is an integrity error raised by the database when the session is flushed. */
  datatype Error = NotFound | BadRequest | Forbidden | Constraint

  /** Row identifiers. The source uses random UUIDs; only their equality matters here. */
  type Uuid = nat
}
