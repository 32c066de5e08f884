/** The optional value used for Swift's `T?` fields and parameters. */
module Wrappers {

  datatype Option<+T> = None | Some(value: T)
}
