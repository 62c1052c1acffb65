/** Optional values and exception-carrying results shared by the other modules. */
module Outcomes {

  /** A value that may be missing (the source's `null`). */
  datatype Option<+T> = None | Some(value: T)

  /** The .NET exceptions that the modelled code can raise. */
  datatype Exception = ArgumentOutOfRange

  /** Either a value or the exception the call would throw. */
  datatype Result<+T> = Success(value: T) | Failure(error: Exception)
}
