/**
 * The failure-carrying values shared by every module: `Option` for Python's
 * `None`-or-value returns and `Result` for operations whose Python original
 * raises an exception on some inputs.
 */
module Outcomes {

  /** Python's `None` or a value. */
  datatype Option<+T> = None | Some(value: T) {

    /** The value, or `default` when there is none (Python's `x if x is not None else default`). */
    function GetOr(default: T): T {
      match this
      case Some(v) => v
      case None => default
    }
  }

  /** The Python exceptions the modelled code can raise and does not catch. */
  datatype PyError =
    | IndexError       // indexing a list past its end (`parts[1]`, `possible_qa[2]`, `path[-1]`)
    | KeyError         // a missing dictionary key (`parse_qs(...)['v']`)
    | ValueError       // a failed unpacking or parse (`name, value = cookie.split("=", 1)`)
    | TypeError        // `str + list`
    | FileNotFound     // listing or reading a path that does not exist
    | FetchFailed      // an HTTP request that raised
    | ZeroDivisionError // dividing by a zero count (`words / wpm`, `step / total`)

  /** An operation that either returns a value or raises. */
  datatype Result<+T> = Ok(value: T) | Err(error: PyError)
}
