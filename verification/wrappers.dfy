/** Failure-carrying values shared by every module of the model: an optional
    value (the source's `None`) and a result that is either a value or an
    error (the source's raised exceptions). */
module Wrappers {

  datatype Option<T> = None | Some(value: T)

  datatype Result<T, E> = Ok(value: T) | Err(error: E)
}
