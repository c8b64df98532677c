/** The optional-value wrapper used for JavaScript's `undefined`/`null` cases. */
module Wrappers {

  datatype Option<+T> = None | Some(value: T)
}
