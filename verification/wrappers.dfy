/** Failure-compatible helper datatypes used throughout the model. */
module Wrappers {

  /** A value that may be absent; stands for a Kotlin nullable type. */
  datatype Option<+T> = None | Some(value: T)

  /** The outcome of a decode: a value, or the reason the decode threw. */
  datatype Result<+R, +E> = Success(value: R) | Failure(error: E) {

    predicate IsFailure() {
      Failure?
    }

    function PropagateFailure<U>(): Result<U, E>
      requires Failure?
    {
      Failure(error)
    }

    function Extract(): R
      requires Success?
    {
      value
    }
  }
}
