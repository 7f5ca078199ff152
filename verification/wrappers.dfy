/** Failure-compatible wrappers used throughout the model.
    - Option<T>: a value that may be absent (an unset variable, an unparsable duration).
    - Result<T, E>: the outcome of a resolution step; `Failure` stands for the
      process-terminating `log.Fatalf` of the Go code.
 */
module Wrappers {

  datatype Option<+T> = None | Some(value: T)

  datatype Result<+T, +E> = Success(value: T) | Failure(error: E) {

    predicate IsFailure() {
      Failure?
    }

    function PropagateFailure<U>(): Result<U, E>
      requires Failure?
    {
      Failure(error)
    }

    function Extract(): T
      requires Success?
    {
      value
    }
  }
}
