/** Python's `Optional[T]`: either `None` or a present value. */
module Wrappers {
  datatype Option<+T> = None | Some(value: T)
}
