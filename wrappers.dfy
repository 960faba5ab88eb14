/** Optional values and the settled outcome of an asynchronous request. */
module Wrappers {

  /** A value that may be absent (JavaScript `null` / `undefined`). */
  datatype Option<+T> = None | Some(value: T)

  /** How an awaited promise settled: resolved with a value, or rejected. The
      rejection reason is not modelled, because every caller replaces it with a
      fixed message. */
  datatype Outcome<+T> = Ok(value: T) | Fail
}
