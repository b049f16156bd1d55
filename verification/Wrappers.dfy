/** The one option type that all modules share. */
module Wrappers {
  datatype Option<T> = Some(value: T) | None
}
