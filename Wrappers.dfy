/** The optional value the model uses wherever the Java code uses null. */
module Wrappers {

  datatype Option<+T> = None | Some(value: T)
}
