/** The datatypes the other modules share. */
module Wrappers {

  /** A Go pointer that may be nil, or a value with an `ok` flag. */
  datatype Option<+T> = None | Some(value: T) {

    function GetOr(default: T): T {
      match this
      case Some(v) => v
      case None => default
    }
  }

  /** A Go `(value, error)` pair. */
  datatype Result<+R, +E> = Success(value: R) | Failure(error: E) {

    predicate IsFailure() {
      Failure?
    }

    function PropagateFailure<U>(): Result<U, E>
      requires Failure?
    {
      Failure(error)
    }

    function Extract(): R
      requires Success?
    {
      value
    }
  }

  /** An S3 tag, in a lifecycle filter or of an object. */
  datatype Tag = Tag(key: string, value: string)
}
