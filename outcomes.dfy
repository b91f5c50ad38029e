/** Optional values and the outcome of a call to the remote data gateway. */
module Outcomes {

  /** A value that may be absent: an optional record field, or a `null` result. */
  datatype Option<+T> = None | Some(value: T) {
    /** The value, or `default` when absent (JavaScript's `x || default` on a nullable list). */
    function GetOr(default: T): T {
      match this
      case Some(v) => v
      case None => default
    }
  }

  /**
   * What a remote call (Supabase query, Mongoose query, auth lookup) delivered:
   * its data, or the error it raised or returned.
   */
  datatype Outcome<+T> = Ok(value: T) | Fail(message: string)
}
