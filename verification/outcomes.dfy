/** Failure-carrying datatypes shared by every module: a Python function that
    either returns a value or raises is modelled as returning a `Result`. */
module Outcomes {

  /** An optional value (Python's `None` versus a present value). */
  datatype Option<+T> = None | Some(value: T)

  /** Either the value a call returned or the exception it raised. */
  datatype Result<+R, +E> = Success(value: R) | Failure(error: E)
}
