/** An optional value: an argument left out, or an operation that raised. */
module Wrappers {

  datatype Option<T> = None | Some(value: T)
}
