/** The optional result of a search that may come up empty. */
module Wrappers {

  datatype Option<T> = None | Some(value: T)
}
