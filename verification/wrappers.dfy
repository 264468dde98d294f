/** Optional values and error-carrying results shared by every module of the model.
    A Python argument defaulting to None, or a call that may come back with nothing,
    is an Option; a call that may raise is a Result. */
module Wrappers {

  datatype Option<+T> = None | Some(value: T) {

    /** The carried value, or `default` when there is none. */
    function GetOr(default: T): T {
      match this
      case Some(v) => v
      case None => default
    }
  }

  datatype Result<+R, +E> = Success(value: R) | Failure(error: E)
}
