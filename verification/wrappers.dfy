/** Option values for the lookups and validations that can fail. */
module Wrappers {

  datatype Option<+T> = None | Some(value: T)
}
