/** Optional values and error returns. Error texts are not modelled, only which
    check refused. */
module Outcome {
  datatype Option<+T> = None | Some(value: T)

  datatype Result<+T, +E> = Ok(value: T) | Err(error: E)
}
