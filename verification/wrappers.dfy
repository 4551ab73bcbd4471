/** Optional values and error-carrying results shared by the model. */
module Wrappers {

  /** A value that may be absent, e.g. a histogram value outside every bin. */
  datatype Option<+T> = None | Some(value: T)

  /** Either a computed value or the Python exception the source would raise. */
  datatype Result<+T, +E> = Success(value: T) | Failure(error: E)

  /** The Python exceptions raised by the modelled code paths. */
  datatype PyError =
    | ZeroDivisionError  // `100 * 1000.0 / len(y)` with an empty `y`
    | IndexError         // `rgrid[1]` or `rgrid[-1]` on a grid with fewer than two centres
}
