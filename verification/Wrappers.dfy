/** The Option type shared by every module: a nullable column or pointer. */
module Wrappers {

  datatype Option<+T> = None | Some(value: T)
}
