/** Option and Result, the failure-carrying values the parsers and solvers return
    in place of the exceptions the Java code throws. */
module Wrappers {

  datatype Option<+T> = None | Some(value: T)

  datatype Result<+T, +E> = Ok(value: T) | Err(error: E)
}
