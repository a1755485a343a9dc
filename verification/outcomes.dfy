/** Small failure-carrying datatypes shared by the estuary modules. */
module Outcomes {

  /** A value that may be missing; `None` marks a quantity the source would
      compute as inf or NaN after dividing by zero. */
  datatype Option<+T> = None | Some(value: T)

  /** A value or the error that prevented computing it. */
  datatype Result<+T, +E> = Ok(value: T) | Err(error: E)
}
