/** Option and Result, standing in for Python's None and for the error paths
    that the scripts report by printing a message and giving up. */
module Wrappers {

  datatype Option<+T> = None | Some(value: T)

  datatype Result<+R, +E> = Ok(value: R) | Err(error: E)
}
