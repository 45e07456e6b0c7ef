/** Failure-compatible Option and Result types shared by the whole model.
    The failure side of a Result is the Java exception the source throws. */
module Wrappers {

  datatype Option<+T> = None | Some(value: T) {
    predicate IsFailure() { None? }

    function PropagateFailure<U>(): Option<U>
      requires None?
    {
      None
    }

    function Extract(): T
      requires Some?
    {
      value
    }
  }

  /** The exception classes the persistence code throws or lets escape. */
  datatype Exception =
    | JSONException(message: string)
    | RuntimeException(message: string)
    | SQLiteException(message: string)
    | IllegalStateException(message: string)
    | IllegalArgumentException(message: string)
    | InvalidParameterException(message: string)
    | NullPointerException(message: string)
    | JsonPathException(message: string)

  datatype Result<+T> = Success(value: T) | Failure(error: Exception) {
    predicate IsFailure() { Failure? }

    function PropagateFailure<U>(): Result<U>
      requires Failure?
    {
      Failure(error)
    }

    function Extract(): T
      requires Success?
    {
      value
    }
  }
}
