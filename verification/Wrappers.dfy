/** Small types shared by the other modules. */
module Wrappers {
  type byte = bv8

  /** The two-way choice used wherever the source has a field or result that may be missing. */
  datatype Option<+T> = None | Some(value: T)
}
