/** Option, standing in for Java's nullable references. */
module Wrappers {

  datatype Option<+T> = None | Some(value: T)
}
