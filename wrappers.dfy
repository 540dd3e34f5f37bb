/** Optional values and fallible results, the two shapes in which the
    program reports a missing value or an error. */
module Wrappers {

  datatype Option<T> = None | Some(value: T)

  /** An `anyhow::Result`: the error is kept only as a message. */
  datatype Result<T> = Ok(value: T) | Err(error: string)

  /** The text of an error `cause` wrapped by `.context(msg)`, as anyhow's
      alternate display prints the chain.  Only where a property is about
      the cause is it kept; elsewhere an error is its outermost message. */
  function Context(msg: string, cause: string): string {
    msg + ": " + cause
  }
}
