/** The Option and Result datatypes shared by the ledger modules. */
module Wrappers {

  datatype Option<+T> = None | Some(value: T)

  /** The outcome of a request: a value, or the error the route reports. */
  datatype Result<+T, +E> = Success(value: T) | Failure(error: E)
}
