/** The usual optional value. `None` is used by the model for an expansion that
    runs out of fuel, i.e. a walk that the original program would never finish. */
module Wrappers {

  datatype Option<+T> = None | Some(value: T)
}
