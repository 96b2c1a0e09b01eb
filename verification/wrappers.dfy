/** An optional value: the model's stand-in for JavaScript's null and for luxon's invalid DateTime. */
module Wrappers {

  datatype Option<+T> = None | Some(value: T)

}
