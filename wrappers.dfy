/** The toolkit's error taxonomy and the Result type its fallible operations return. */
module Wrappers {

  /** The exceptions the toolkit raises: RuntimeError for queries before a
      successful fit, ValueError for a bad configuration, IndexError for a
      label lookup past the end. */
  datatype Error =
    | NotFitted
    | InvalidConfiguration
    | IndexOutOfRange

  datatype Result<+T> = Success(value: T) | Failure(error: Error) {
    predicate IsFailure() {
      Failure?
    }

    function PropagateFailure<U>(): Result<U>
      requires Failure?
    {
      Failure(error)
    }

    function Extract(): T
      requires Success?
    {
      value
    }
  }

  datatype Option<+T> = None | Some(value: T)
}
