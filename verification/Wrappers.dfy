module Wrappers {

  /** An optional result: None stands for the source's exception or missing value. */
  datatype Option<+T> = None | Some(value: T)

  type Byte = b: int | 0 <= b < 256
}
