/** Result types and byte strings shared by every module. */
module Prelude {
  datatype Option<+T> = None | Some(value: T)

  datatype Result<+T, +E> = Ok(value: T) | Err(error: E)

  type Byte = b: int | 0 <= b < 256
  type Bytes = seq<Byte>

  /** A number in this many bytes, high byte first; higher bits are dropped. */
  function BigEndian(n: nat, width: nat): (b: Bytes)
    ensures |b| == width
  {
    if width == 0 then [] else BigEndian(n / 256, width - 1) + [n % 256]
  }

  /** The number in the four bytes from this offset on. */
  function Word(b: Bytes, offset: nat): nat
    requires offset + 4 <= |b|
  {
    ((b[offset] as int * 256 + b[offset + 1]) * 256 + b[offset + 2]) * 256 + b[offset + 3]
  }

  /** Chunks of a byte stream, one after the other. */
  function Flat(chunks: seq<Bytes>): Bytes {
    if chunks == [] then [] else chunks[0] + Flat(chunks[1..])
  }
}
