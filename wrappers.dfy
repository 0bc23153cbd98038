/** Option values and the reply of a route handler. */
module Wrappers {

  /** A value that may be absent: a JavaScript `null` or `undefined`. */
  datatype Option<+T> = None | Some(value: T) {
    /** The value, or `default` when absent (a JavaScript destructuring default). */
    function GetOr(default: T): T
    {
      if Some? then value else default
    }
  }

  /** What a route handler sends back: a JSON body, or an HTTP status with a message. */
  datatype Reply<+T> = Ok(body: T) | Fail(status: int, message: string)

  const ServerError := "Server error"
}
