/** Shapes shared by every component: an optional value, an outcome that may carry an error, bytes. */
module Common {
  datatype Option<+T> = None | Some(value: T) {
    function GetOr(default: T): T {
      if Some? then value else default
    }
  }

  type Byte = x: int | 0 <= x < 256
  type Bytes = seq<Byte>

  /** The byte at a position, 0 past the end. */
  function ByteAt(b: Bytes, i: nat): int {
    if i < |b| then b[i] else 0
  }

  datatype Result<+T, +E> = Ok(value: T) | Err(error: E)
}
