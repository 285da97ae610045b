/** Option and Result, standing in for C# null references and thrown exceptions. */
module Wrappers {

  /** `None` is a C# null reference. */
  datatype Option<+T> = None | Some(value: T)

  /** `Err` is an exception that aborts the current operation. */
  datatype Result<+T, +E> = Ok(value: T) | Err(error: E)
}
