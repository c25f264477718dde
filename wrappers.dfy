/** Option, Result and Outcome: the failure-carrying values that stand for
    Python's None and for its raised exceptions. */
module Wrappers {

  datatype Option<+T> = None | Some(value: T)

  /** Either the value a call returns or the exception it raises. */
  datatype Result<+R, +E> = Ok(value: R) | Err(error: E)

  /** The outcome of a call that returns nothing (Python's `None`) but may raise. */
  datatype Outcome<+E> = Pass | Fail(error: E)
}
