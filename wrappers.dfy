/** Option and Result, for the source's nullable fields and thrown errors. */
module Wrappers {

  datatype Option<T> = None | Some(value: T) {
    function GetOr(default: T): T {
      match this
      case Some(v) => v
      case None => default
    }
  }

  /** A thrown `Error` becomes `Failure` carrying its message. */
  datatype Result<T, E> = Success(value: T) | Failure(error: E)
}
