/** How an operation of the globe renderer can end without a result. */
module Faults {

  /** InvariantViolation: one of the source's range checks (assert_throw) failed.
      OutOfBounds: the source would index a fixed-size table, blob or the
      framebuffer outside its bounds, which is undefined behaviour there;
      the model stops instead. */
  datatype Fault = InvariantViolation | OutOfBounds

  datatype Option<+T> = None | Some(value: T)

  datatype Result<+T> = Ok(value: T) | Err(fault: Fault)
}
