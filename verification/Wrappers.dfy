/** Optional values and results, as the C++ code uses `std::optional` and exceptions. */
module Wrappers {

  datatype Option<+T> = None | Some(value: T)

  /** A computation that either returns a value or throws. */
  datatype Result<+T> = Ok(value: T) | Thrown
}
