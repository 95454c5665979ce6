/** Optional values and success-or-failure results, standing for C#'s null
    references and for a promise that is either resolved or rejected. */
module Wrappers {

  datatype Option<+T> = None | Some(value: T)

  datatype Result<+R, +E> = Ok(value: R) | Err(error: E)
}
