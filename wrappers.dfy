/** Option and Result values used throughout the model in place of the
    source's `undefined` results and thrown errors. */
module Wrappers {

  datatype Option<+T> = None | Some(value: T) {
    function GetOr(default: T): T {
      match this
      case Some(v) => v
      case None => default
    }
  }

  /** A thrown `Error` becomes `Failure` carrying its message. */
  datatype Result<+R> = Success(value: R) | Failure(message: string)
}
