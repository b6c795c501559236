/** Option and Result values: JavaScript's `null`/`undefined` results and thrown errors. */
module Wrappers {

  datatype Option<T> = None | Some(value: T) {
    /** The wrapped value, or `default` when there is none. */
    function GetOr(default: T): T {
      if Some? then value else default
    }
  }

  /** The outcome of an operation that throws in the source. */
  datatype Result<T, E> = Ok(value: T) | Err(error: E)
}
