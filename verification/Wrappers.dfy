/** Outcome types shared by the modules: an absent value, and a value or the error the code throws. */
module Wrappers {
  datatype Option<+T> = None | Some(value: T) {
    function GetOr(default: T): T {
      if None? then default else value
    }
  }

  datatype Result<+T, +E> = Success(value: T) | Failure(error: E)
}
