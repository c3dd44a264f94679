/** Failure-carrying values used at the boundary with the prediction model. */
module Wrappers {

  /** `None` stands for a call that raised; `Some(v)` for one that returned `v`. */
  datatype Option<+T> = None | Some(value: T)
}
