/** Results of operations that may find nothing or raise. */
module Wrappers {

  datatype Option<+T> = None | Some(value: T)

  /** The outcome of an operation that either returns a value or raises an exception. */
  datatype Result<+T> = Ok(value: T) | Raised
}
