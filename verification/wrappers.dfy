/** Failure-compatible wrappers: `Option` for a value that may be absent
    (a missing spreadsheet cell) and `Result` for a computation that may
    raise (the source's exceptions become `Failure` values). */
module Wrappers {

  datatype Option<+T> = None | Some(value: T)

  datatype Result<+T, +E> = Success(value: T) | Failure(error: E) {

    predicate IsFailure() {
      Failure?
    }

    function PropagateFailure<U>(): Result<U, E>
      requires Failure?
    {
      Failure(error)
    }

    function Extract(): T
      requires Success?
    {
      value
    }
  }
}
