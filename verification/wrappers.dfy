/** The optional value the model uses wherever the C code returns a pointer
    that may be NULL. */
module Wrappers {

  /** `None` stands for a NULL pointer, `Some(v)` for a valid object `v`. */
  datatype Option<+T> = None | Some(value: T)
}
