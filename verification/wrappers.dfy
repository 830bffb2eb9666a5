/** The optional value used for Swift's `nil`, `NSNotFound` and a failed parse. */
module Wrappers {

  datatype Option<+T> = None | Some(value: T)

}
