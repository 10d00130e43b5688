/** Small shared vocabulary: optional values, bytes and abstract instants. */
module Basics {
  datatype Option<+T> = None | Some(value: T)

  newtype byte = x: int | 0 <= x < 256

  type Bytes = seq<byte>

  /** An instant or a duration, in nanoseconds as Go's time package counts them. */
  type Time = int

  const SECOND: Time := 1_000_000_000
  const MINUTE: Time := 60 * SECOND
}
