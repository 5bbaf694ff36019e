/** The optional-value datatype the model uses where the source stores `null`. */
module Wrappers {

  datatype Option<+T> = None | Some(value: T)
}
