/** The optional-value datatype used where the Java code allows `null`. */
module Wrappers {

  datatype Option<+T> = None | Some(value: T)
}
