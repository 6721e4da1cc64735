// What several modules use.
module Basics {

  datatype Option<+T> = None | Some(value: T)

  // A byte of which the bits matter.
  type Byte = bv8
}
