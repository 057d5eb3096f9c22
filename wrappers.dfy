/** The optional value used for Java's nullable results (Optional.get, a null file name). */
module Wrappers {

  datatype Option<+T> = None | Some(value: T)
}
