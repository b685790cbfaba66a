/** Small failure-compatible wrappers shared by every module of the model. */
module Basics {

  /** A value that may be absent: JavaScript's `null`/`undefined` or a failed lookup. */
  datatype Option<+T> = None | Some(value: T) {

    /** The wrapped value, or `default` when absent (JavaScript's `x ?? default`). */
    function GetOr(default: T): T {
      match this
      case Some(v) => v
      case None => default
    }
  }

  /** Bytes as JavaScript's `Uint8Array` holds them. */
  type Byte = x: int | 0 <= x < 256
}
