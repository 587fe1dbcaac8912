/** Strings as the original has them: sequences of bytes. */
module Bytes {
  newtype byte = x: int | 0 <= x < 256

  type Str = seq<byte>
}
