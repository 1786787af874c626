/** Option and Result values shared by the command modules. */
module Wrappers {

  /** Python's `Optional[T]`: `None` or a value. */
  datatype Option<+T> = None | Some(value: T) {
    function GetOr(default: T): T {
      match this
      case Some(v) => v
      case None => default
    }
  }

  /** A value or the error that ends the command instead. */
  datatype Result<+R, +E> = Success(value: R) | Failure(error: E)
}
