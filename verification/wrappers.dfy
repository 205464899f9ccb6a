/** Failure-carrying datatypes shared by the model: the `Option` behind
    `Rename::tmp`, the `Result` of a single rename, and the pass/fail
    `Outcome` of a whole batch (Rust's `anyhow::Result<()>`). */
module Wrappers {

  datatype Option<+T> = None | Some(value: T)

  datatype Result<+R, +E> = Success(value: R) | Failure(error: E)

  datatype Outcome<+E> = Pass | Fail(error: E)
}
