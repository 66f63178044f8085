/// Small failure-carrying datatypes shared by the model.
module Wrappers {

  /// A value that may be missing (Python's `None`, or a parse that failed).
  datatype Option<+T> = None | Some(value: T)

  /// The outcome of an operation that either succeeds or raises an error.
  datatype Outcome<+E> = Pass | Fail(error: E)
}
