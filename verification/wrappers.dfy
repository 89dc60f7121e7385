/** Failure-carrying values used by the rule engine: an optional value and a
    value-or-reason result. */
module Wrappers {

  datatype Option<+T> = None | Some(value: T)

  /** Either the new value, or the reason why an action was refused. */
  datatype Result<+T, +E> = Success(value: T) | Failure(error: E)
}
