/** The conventional optional value, used where the Java code works with a
    possibly-absent result. */
module Wrappers {

  datatype Option<+T> = None | Some(value: T)
}
