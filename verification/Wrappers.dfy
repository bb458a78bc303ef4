/** Failure-free wrappers shared by every component. */
module Wrappers {
  datatype Option<+T> = None | Some(value: T) {
    function GetOr(default: T): (r: T)
      ensures Some? ==> r == value
      ensures None? ==> r == default
    {
      if Some? then value else default
    }
  }

  datatype Result<+T, +E> = Ok(value: T) | Err(error: E)
}
