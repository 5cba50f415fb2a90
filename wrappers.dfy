/** Small value wrappers shared by the other modules. */
module Wrappers {

  /** Python's `None` versus a present value. */
  datatype Option<+T> = None | Some(value: T) {
    function GetOr(default: T): T {
      match this
      case Some(v) => v
      case None => default
    }
  }

  /** The outcome of a call that may raise an exception which it does not catch. */
  datatype Result<+T> = Ok(value: T) | Raised
}
