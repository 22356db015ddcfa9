/** Optional and fallible values. `None` stands for a JavaScript `undefined`
    (a key that is absent from an object); `Failure` for a thrown error. */
module Wrappers {

  datatype Option<+T> = None | Some(value: T)

  datatype Result<+T, +E> = Success(value: T) | Failure(error: E)
}
