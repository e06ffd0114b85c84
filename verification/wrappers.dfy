/**
 Failure-compatible wrappers shared by the chat model: `Option` for lookups that
 may find nothing (Python's `None`), `Result` for operations that either succeed
 or raise.
 */
module Wrappers {

  datatype Option<+T> = None | Some(value: T)

  datatype Result<+T, +E> = Success(value: T) | Failure(error: E)
}
