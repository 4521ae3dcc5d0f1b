/** Failure-compatible wrappers shared by every module of the model. */
module Wrappers {

  /** A Go value that may be nil: `None` is nil. */
  datatype Option<+T> = None | Some(value: T)

  /** A Go `(value, error)` pair where exactly one side is meaningful;
      the error is represented by its `Error()` text. */
  datatype Result<+T> = Ok(value: T) | Err(error: string)
}
