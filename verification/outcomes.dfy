/** Failure-compatible wrappers shared by the executor and the performer models.
    Ruby's `nil` becomes `None`, and a raised exception becomes a `Failure`
    carrying the exception class and its message. */
module Outcomes {

  datatype Option<+T> = None | Some(value: T)

  /** The two exception kinds the modelled code raises. */
  datatype Error =
    | Informative(message: string)    // XcodeArchiveCache::Informative
    | StandardError(message: string)  // Ruby's StandardError

  datatype Result<+T> = Success(value: T) | Failure(error: Error) {

    predicate IsFailure() {
      Failure?
    }

    function PropagateFailure<U>(): Result<U>
      requires Failure?
    {
      Failure(error)
    }

    function Extract(): T
      requires Success?
    {
      value
    }
  }
}
