/** Optional values and the three ways a server action can end. */
module Wrappers {

  datatype Option<+T> = None | Some(value: T) {
    function GetOr(default: T): T {
      match this
      case Some(v) => v
      case None => default
    }
  }

  /** How a server action ends: it returns `{ success: true, data }`, it returns
      `{ success: false, error }`, or it throws an `Error` with a message. */
  datatype Reply<+T> = Ok(data: T) | Fail(error: string) | Raise(message: string)

  /** The outcome of a guard that either lets the caller go on or throws. */
  datatype Outcome = Pass | Throw(message: string)
}
