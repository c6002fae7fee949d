/** Singleton records that may not have been written yet, and the
    failure-carrying outcome of an action. */
module Outcomes {

  /** A singleton table: either nothing has been stored yet, or it holds
      one value. */
  datatype Singleton<+T> = Absent | Present(value: T)

  /** An action either aborts with an error, committing nothing, or
      commits its value. */
  datatype Result<+T, +E> = Ok(value: T) | Err(error: E)
}
