/** Optional values and fallible results, used for `undefined` lookups and thrown errors. */
module Wrappers {

  /** A value that may be absent (JavaScript's `undefined`). */
  datatype Option<T> = None | Some(value: T) {
    /** The value, or `default` when absent (the `x || default` idiom on an optional field). */
    function GetOr(default: T): T {
      if Some? then value else default
    }
  }

  /** The outcome of a storage call that may throw: a value, or the thrown error message. */
  datatype Result<T> = Ok(value: T) | Err(message: string)
}
