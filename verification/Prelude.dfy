/** Shared vocabulary: optional values, byte strings, and the two clock scales of the platform. */
module Prelude {

  datatype Option<+T> = None | Some(value: T)

  datatype Result<+T, +E> = Ok(value: T) | Err(error: E)

  newtype byte = b: int | 0 <= b < 256

  type Bytes = seq<byte>

  const NANOS := 1_000_000_000
  const DAY := 24 * 3600
  const MIN_INT64 := -0x8000_0000_0000_0000

  /** Whole Unix seconds of a nanosecond clock reading. */
  function Unix(ns: int): int {
    ns / NANOS
  }

  /** Two's complement truncation, as Go's fixed-width integers do it. */
  function Wrap64(x: int): int {
    (x - MIN_INT64) % 0x1_0000_0000_0000_0000 + MIN_INT64
  }

  function Wrap32(x: int): int {
    (x + 0x8000_0000) % 0x1_0000_0000 - 0x8000_0000
  }

  lemma SubsetCardinality<T>(a: set<T>, b: set<T>)
    requires a <= b
    ensures |a| <= |b|
  {
    assert b == a + (b - a);
  }
}
