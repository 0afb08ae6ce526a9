/** The optional-value datatype used for every attribute that an event may lack
    and every fact attribute that may be unset. */
module Wrappers {
  datatype Option<+T> = None | Some(value: T)
}
