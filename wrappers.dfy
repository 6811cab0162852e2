/** The optional value used for React state cells that may hold `null`. */
module Wrappers {
  datatype Option<T> = None | Some(value: T)
}
