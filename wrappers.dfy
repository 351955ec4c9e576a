/** The optional value used for Kotlin's nullable types and for readers that can fail. */
module Wrappers {
  datatype Option<+T> = None | Some(value: T)
}
