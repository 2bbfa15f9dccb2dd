/** Option and Result, the two failure-carrying shapes the model returns. */
module Wrappers {

  /** A value that may be absent; a failed parser returns `None`. */
  datatype Option<+T> = None | Some(value: T) {

    predicate IsFailure() {
      None?
    }

    function PropagateFailure<U>(): Option<U>
      requires None?
    {
      None
    }

    function Extract(): T
      requires Some?
    {
      value
    }
  }

  /** A computed value or the reason the computation stopped. */
  datatype Result<+R, +E> = Success(value: R) | Failure(error: E) {

    predicate IsFailure() {
      Failure?
    }

    function PropagateFailure<U>(): Result<U, E>
      requires Failure?
    {
      Failure(error)
    }

    function Extract(): R
      requires Success?
    {
      value
    }
  }
}
