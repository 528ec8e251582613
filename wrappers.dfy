/** Optional values: `null`, `undefined` and `Optional.empty()` of the source. */
module Wrappers {

  datatype Option<+T> = None | Some(value: T)

  /**
   * What a backend service call ends in: a `null` return, a value, or an
   * exception carrying its message.
   */
  datatype Outcome<+T> = Null | Value(value: T) | Thrown(message: string)

  /**
   * What a page handler's checks decide: stop with the error message it
   * shows, or go ahead with the request it sends.
   */
  datatype Checked<+T> = Refused(message: string) | Proceed(request: T)
}
