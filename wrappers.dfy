/** Option and exception-carrying result types shared by every module. */
module Wrappers {

  datatype Option<+T> = None | Some(value: T) {
    function GetOr(default: T): T {
      match this
      case Some(v) => v
      case None => default
    }
  }

  /** The outcome of a JavaScript computation: a value, or an exception
      (a `TypeError` from reading a property of `null`, a rejected I/O
      promise, ...) that propagates to the nearest `catch`. */
  datatype Result<+T> = Ok(value: T) | Throws(error: string)

  /** The error reading a property of `null` or `undefined` raises; its
      engine-specific message is not modelled. */
  const TypeError: string := "TypeError"
}
