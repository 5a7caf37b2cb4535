/**
 Optional values and results with an error: what the model returns where the
 program throws an exception or may produce nothing.
 */
module Outcomes {

  datatype Option<+T> = None | Some(value: T)

  /** A success value, or the error that aborted the computation; usable with `:-`. */
  datatype Result<+T, +E> = Success(value: T) | Failure(error: E) {

    predicate IsFailure() {
      Failure?
    }

    function PropagateFailure<U>(): Result<U, E>
      requires Failure?
    {
      Failure(error)
    }

    function Extract(): T
      requires Success?
    {
      value
    }
  }
}
