/** Option and Result, the failure-carrying values used across the model. */
module Wrappers {

  /** `undefined`/`null` versus a present value. */
  datatype Option<+T> = None | Some(value: T) {

    /** JavaScript's `x ?? fallback`. */
    function GetOr(fallback: T): T {
      if Some? then value else fallback
    }
  }

  /** A value, or the error a store method would have thrown. */
  datatype Result<+T, +E> = Ok(value: T) | Err(error: E)
}
