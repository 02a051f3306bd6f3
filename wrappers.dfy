/** The optional value the model uses where Python returns `None`. */
module Wrappers {

  datatype Option<+T> = None | Some(value: T)
}
