/** Failure-carrying values shared by the services: `Option` for a value that
    may be absent (a JavaScript `null`/`undefined`), `Result` for an operation
    that either succeeds or throws a known error. */
module Wrappers {

  datatype Option<+T> = None | Some(value: T)

  datatype Result<+T, +E> = Success(value: T) | Failure(error: E)
}
