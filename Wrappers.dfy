/** The Option type used where the page leaves something unset. */
module Wrappers {

  datatype Option<+T> = None | Some(value: T)

}
