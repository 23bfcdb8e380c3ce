/** Failure-carrying values shared by every other module: `Option` stands for
    the source's `undefined`/`null`, `Result` for a call that may throw. */
module Wrappers {

  datatype Option<+T> = None | Some(value: T)

  datatype Result<+T, +E> = Success(value: T) | Failure(error: E)
}
