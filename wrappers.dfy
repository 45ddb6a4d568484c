/** Optional values and results with an error, the shapes Python expresses
    with `None` and with exceptions. */
module Wrappers {

  datatype Option<+T> = None | Some(value: T)

  datatype Result<+T, +E> = Success(value: T) | Failure(error: E)
}
