/** Bytes and the one failure type shared by the models. */
module Bytes {
  type u8 = x: int | 0 <= x < 256

  datatype Option<+T> = None | Some(value: T)
}
