/** Optional values and error results shared by every module of the model. */
module Wrappers {
  /** A value that may be absent: a missing dictionary key or a Python `None`. */
  datatype Option<T> = None | Some(value: T)

  /** The outcome of an operation that may raise: `Err` carries which exception the source raises. */
  datatype Result<T, E> = Ok(value: T) | Err(error: E)

  /** The Python exceptions the modelled code can raise. */
  datatype Exception = ValueError | KeyError | IndexError | UnboundLocalError | AssertionError | TypeError | AttributeError
}
