/** Failure-carrying results. A Rust `unwrap()` or `panic!` that can fire is modelled as the
    `None` / `Failure` outcome of the operation that contains it. */
module Wrappers {

  datatype Option<+T> = None | Some(value: T)

  datatype Result<+T, +E> = Success(value: T) | Failure(error: E)
}
