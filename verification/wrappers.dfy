/** The optional-value datatype used for the collaborators' partial results. */
module Wrappers {

  datatype Option<+T> = None | Some(value: T)
}
