/** Option and Result, the two sum types the Rust code returns from its
    fallible operations (`Option` from iterators, `Result` from constructors,
    transforms and the serde codec). */
module Wrappers {

  datatype Option<+T> = None | Some(value: T)

  datatype Result<+T, +E> = Success(value: T) | Failure(error: E)
}
