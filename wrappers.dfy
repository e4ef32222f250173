/** Option and Result, the two failure-carrying shapes the firmware uses
    (`Option` for channel reads, `Result` for driver calls that can fail). */
module Wrappers {

  datatype Option<+T> = None | Some(value: T) {
    function GetOr(default: T): T {
      match this
      case Some(v) => v
      case None => default
    }
  }

  datatype Result<+T, +E> = Ok(value: T) | Err(error: E)
}
