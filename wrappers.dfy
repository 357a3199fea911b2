/** The optional value used for the writer's validation results and for the
    variable-length-quantity reader. */
module Wrappers {
  datatype Option<+T> = None | Some(value: T)
}
