/** Small shared datatypes: an optional value, as the source uses `None`. */
module Basics {

  datatype Option<+T> = None | Some(value: T)
}
