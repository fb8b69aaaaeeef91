/** Results with an error, as returned by the summary. */
module Wrappers {

  datatype Result<T, E> = Ok(value: T) | Err(error: E)
}
