/** Optional values and outcomes, used wherever the JavaScript code has `null`/`undefined` or a rejected promise. */
module Wrappers {

  datatype Option<+T> = None | Some(value: T)
  {
    function GetOr(default: T): T
    {
      match this
      case Some(v) => v
      case None => default
    }
  }

  /** A settled promise: fulfilled with a value, or rejected with an error message. */
  datatype Result<+T> = Success(value: T) | Failure(error: string)
}
