/** The optional value used throughout the model for JavaScript's `undefined`/`null`
    and for "no match". */
module Wrappers {
  datatype Option<+T> = None | Some(value: T)
}
