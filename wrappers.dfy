/** Optional values and results with an error side, used for the one missing
    sensor value a reading may carry and for the two failure paths of the
    pipeline (an empty generation window, an absent raw table). */
module Wrappers {

  /** A value that may be absent; `None` plays the part of a NaN cell. */
  datatype Option<+T> = None | Some(value: T)

  /** Either the produced value or the error that stopped the step. */
  datatype Result<+R, +E> = Success(value: R) | Failure(error: E)
}
