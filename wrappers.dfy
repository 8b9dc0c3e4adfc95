/** Optional values, and the results of the handlers that can fail. */
module Wrappers {

  /** A value that may be absent (a JavaScript `undefined` or `null`). */
  datatype Option<+T> = None | Some(value: T) {

    /** The value, or `default` when absent (JavaScript's `??`). */
    function GetOr(default: T): T {
      match this
      case Some(v) => v
      case None => default
    }
  }

  /** Why a handler threw. */
  datatype Error =
    | Unauthorized  // `throw new Error("Unauthorized")` when there is no caller identity
    | NotFound      // `ctx.db.patch` on a document id that does not exist

  /** What a mutation handler returns, or the error it threw. */
  datatype Result<+T> = Ok(value: T) | Err(error: Error)
}
