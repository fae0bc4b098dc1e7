/** Failure-compatible wrappers shared by every module of the model. */
module Wrappers {

  /** A value that may be absent: JavaScript's `undefined`/`null` or an optional property. */
  datatype Option<+T> = None | Some(value: T) {
    /** `value ?? fallback`. */
    function GetOr(fallback: T): T {
      match this
      case Some(v) => v
      case None => fallback
    }
  }

  /** The outcome of an operation that can throw: `Err` carries the message of the thrown error. */
  datatype Result<+T> = Ok(value: T) | Err(error: string)

  /** The message of the `Error` thrown by the menu path walk. */
  const InvalidMenuPath: string := "Invalid menu path"

  /** The message standing for a JavaScript `TypeError` (a property read on `undefined` or `null`). */
  const TypeError: string := "TypeError"
}
