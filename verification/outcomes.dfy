/** Failure-carrying results shared by the three components. */
module Outcomes {

  /** A value that may be absent; Ruby's `nil` where a lookup finds nothing. */
  datatype Option<+T> = None | Some(value: T)

  /** Either a computed value or the error the original code raises. */
  datatype Result<+T, +E> = Success(value: T) | Failure(error: E)
}
