/** The optional value returned by the lookups of the contact book (`None` stands for Python's `None`). */
module Wrappers {
  datatype Option<+T> = None | Some(value: T)
}
