/** Option and Result values used for the driver's "no measurement" outcome and
    for the failure of unpacking a reply of the wrong length. */
module Wrappers {

  datatype Option<+T> = None | Some(value: T)

  datatype Result<+R, +E> = Success(value: R) | Failure(error: E)
}
