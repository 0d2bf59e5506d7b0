/** Option and Result: the outcomes of operations that the C# code lets throw or return nothing. */
module Wrappers {

  datatype Option<+T> = None | Some(value: T)

  /** A constructor either builds the record or reports the argument check that threw. */
  datatype Result<+R, +E> = Success(value: R) | Failure(error: E)
}
