/** The optional-value datatype used wherever the source has "maybe absent" (null, a parse that fails). */
module Wrappers {

  datatype Option<+T> = None | Some(value: T)
}
