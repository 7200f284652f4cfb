/** The optional value used where the Kotlin code returns `null` or throws. */
module Wrappers {

  datatype Option<+T> = None | Some(value: T)
}
