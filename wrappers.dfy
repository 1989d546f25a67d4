/** The optional value of the model: Java's nullable references become `Option`. */
module Wrappers {

  datatype Option<+T> = None | Some(value: T)
}
