/** Result types shared by the models of the components. */
module Wrappers {

  datatype Option<+T> = None | Some(value: T)
}
