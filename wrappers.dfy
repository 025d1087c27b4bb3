/** Optional values and fallible results, used for absent body fields, the
    `find` over the string fields and the store's insert. */
module Wrappers {

  datatype Option<+T> = None | Some(value: T)

  datatype Result<+R, +E> = Success(value: R) | Failure(error: E)
}
