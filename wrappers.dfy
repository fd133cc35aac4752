/** Option and Result, the two shapes the service's "None or value" and
    "value or raised error" returns take in this model. */
module Wrappers {

  datatype Option<+T> = None | Some(value: T)

  datatype Result<+T, +E> = Success(value: T) | Failure(error: E)
}
