/** Failure-compatible wrappers used across the model: a Java reference that may be
    null becomes an Option, a call that may throw becomes a Result or an Outcome. */
module Outcomes {

  datatype Option<+T> = None | Some(value: T)

  datatype Result<+T, +E> = Success(value: T) | Failure(error: E)

  datatype Outcome<+E> = Pass | Fail(error: E)
}
