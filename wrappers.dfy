/** The optional-value datatype the model uses where the program would panic
    or where a specification parser can reject its input. */
module Wrappers {

  datatype Option<+T> = None | Some(value: T)
}
