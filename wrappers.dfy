/** The optional value used wherever the program has `undefined`/`null` or a falsy argument. */
module Wrappers {
  datatype Option<+T> = None | Some(value: T)
}
