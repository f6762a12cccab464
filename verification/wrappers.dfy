/** Optional values, results, and the Python exceptions the dashboards can raise. */
module Wrappers {

  /** A value or Python's `None`. */
  datatype Option<+T> = None | Some(value: T)

  /** A value, or the exception that escaped while computing it. */
  datatype Result<+T, +E> = Ok(value: T) | Err(error: E)

  /** The Python exceptions that reach the top of a script and end its run. */
  datatype PyError =
    | TypeError          // e.g. `'x' in None`, `None['key']`
    | KeyError           // a missing dictionary key or data-frame column
    | IndexError         // `.values[0]` of an empty selection
    | ValueError         // a failed unpack or float() conversion
    | ZeroDivisionError  // Python float division by the integer 0
}
