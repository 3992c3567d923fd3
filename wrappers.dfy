/** The optional-value datatype used throughout the model. */
module Wrappers {

  /** `None` is an absent value; `Some(value)` a present one. */
  datatype Option<+T> = None | Some(value: T)
}
