/** Option and Result, the model's stand-ins for `undefined` and for a thrown error. */
module Wrappers {

  datatype Option<+T> = None | Some(value: T) {
    function GetOr(default: T): T {
      match this
      case Some(v) => v
      case None => default
    }
  }

  /** A handler either returns a value or throws; `Err` carries which error it threw. */
  datatype Result<+T, +E> = Ok(value: T) | Err(error: E)
}
