/** Option and Result, used for pandas' NaN cells and for the pipeline's exceptions. */
module Wrappers {

  /** A value that may be absent; `None` stands for a NaN cell or a Python `None`. */
  datatype Option<+T> = None | Some(value: T)

  /** The outcome of an operation that may raise. */
  datatype Result<+T, +E> = Success(value: T) | Failure(error: E)
}
