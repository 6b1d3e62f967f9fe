/** Bytes as they stand in buffers and on the wire. */
module Octets {
  type Byte = x: int | 0 <= x < 256

  type Bytes = seq<Byte>

  /** `b[:n]` for any integer n */
  function SliceTo<T>(b: seq<T>, n: int): seq<T> {
    if n >= |b| then b else if n >= 0 then b[..n] else if |b| + n >= 0 then b[..|b| + n] else []
  }
}
