/** A minimal Option type for values that may be absent (an unset form field,
    a record the database did not return). */
module Wrappers {

  datatype Option<+T> = None | Some(value: T)
}
