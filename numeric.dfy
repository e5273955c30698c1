/** Fixed-width integer types of the Go program and the conversions between them. */
module Numeric {

  /** A byte of a Kafka key, value or header value. */
  type byte = x: int | 0 <= x < 0x100

  /** Kafka partition numbers are Go `int32`. */
  type int32 = x: int | -0x8000_0000 <= x < 0x8000_0000

  /** Go `int` on a 64-bit platform. */
  type int64 = x: int | -0x8000_0000_0000_0000 <= x < 0x8000_0000_0000_0000

  /** Go `uint` (and `uint64`) on a 64-bit platform: entity IDs and user IDs. */
  type uint64 = x: int | 0 <= x < 0x1_0000_0000_0000_0000

  const TWO_64: int := 0x1_0000_0000_0000_0000
  const MIN_INT64: int := -0x8000_0000_0000_0000
  const MAX_INT64: int := 0x7FFF_FFFF_FFFF_FFFF
  const MAX_UINT64: int := 0xFFFF_FFFF_FFFF_FFFF

  /** Go's conversion `uint(i)`: the same 64 bits read as unsigned. */
  function IntToUint(i: int64): (u: uint64)
    ensures (u - i) % TWO_64 == 0
    ensures i >= 0 ==> u == i
  {
    if i < 0 then i + TWO_64 else i
  }

  /** Go's conversion `int(u)`: the same 64 bits read as two's complement. */
  function UintToInt(u: uint64): (i: int64)
    ensures (u - i) % TWO_64 == 0
    ensures u <= MAX_INT64 ==> i == u
    ensures u > MAX_INT64 ==> i < 0
  {
    if u <= MAX_INT64 then u else u - TWO_64
  }

  /** The two conversions are inverse to each other. */
  lemma UintIntRoundTrip(u: uint64, i: int64)
    ensures IntToUint(UintToInt(u)) == u
    ensures UintToInt(IntToUint(i)) == i
  {
  }

  /** Go's conversion `string(b)` of a byte slice: one character per byte. */
  function BytesToString(b: seq<byte>): (s: string)
    ensures |s| == |b|
    ensures forall k :: 0 <= k < |b| ==> s[k] as int == b[k]
  {
    seq(|b|, k requires 0 <= k < |b| => b[k] as char)
  }
}
