/** An optional value: the model of Swift's `Optional`, as returned by a failable initialiser. */
module Wrappers {

  datatype Option<+T> = None | Some(value: T)
}
