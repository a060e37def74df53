/** Optional values: PHP's `null` (or `false` from a failing library call) next to a real value. */
module Wrappers {

  datatype Option<+T> = None | Some(value: T) {

    /** The value, or `default` when absent (PHP's `??`). */
    function GetOr(default: T): T {
      match this
      case Some(v) => v
      case None => default
    }
  }

  /**
   * The end of a request: a value, or a PHP `Error` (not an `Exception`) that no `catch`
   * of the application intercepts, so the request stops with a fatal error.
   */
  datatype Outcome<+T> = Done(value: T) | Fatal
}
