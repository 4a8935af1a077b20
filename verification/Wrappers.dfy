/** What the modules share: Option, wherever the repository has a pointer that may be null,
    and bytes. */
module Wrappers {
  datatype Option<+T> = None | Some(value: T)

  type byte = x: int | 0 <= x < 256
}
