/** Option, shared by the rewriter (optional return values, recorded parents) and the driver. */
module Wrappers {

  /** Python's `None` or a present value. */
  datatype Option<+T> = None | Some(value: T)
}
