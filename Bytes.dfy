/** Fixed-width machine integers shared by the eBPF programs and the Go driver,
    and the conversions between them that the source performs implicitly. */
module Bytes {

  type Byte = x: int | 0 <= x < 0x100
  type U16 = x: int | 0 <= x < 0x1_0000
  type U32 = x: int | 0 <= x < 0x1_0000_0000
  type U64 = x: int | 0 <= x < 0x1_0000_0000_0000_0000
  /** Go's `int` on a 64-bit target. */
  type Int64 = x: int | -0x8000_0000_0000_0000 <= x < 0x8000_0000_0000_0000

  datatype Option<T> = None | Some(value: T)

  /** The 64 bits of a signed Go `int`, read as unsigned (two's complement). */
  function Bits64(x: Int64): (r: U64)
    ensures r == x % 0x1_0000_0000_0000_0000
  {
    if x < 0 then x + 0x1_0000_0000_0000_0000 else x
  }

  /** A Go `uint16(x)` or C `(__u16)x` conversion: keep the low 16 bits. */
  function Low16(x: U64): (r: U16) { x % 0x1_0000 }

  /** A Go `uint32(x)` conversion of an unsigned value: keep the low 32 bits. */
  function Low32(x: U64): (r: U32) { x % 0x1_0000_0000 }

  /** Go's `uint16(x)` for a signed `int`: sign-extend, then truncate. */
  function Int64ToU16(x: Int64): (r: U16)
    ensures r == x % 0x1_0000
    ensures 0 <= x < 0x1_0000 ==> r == x
  {
    Low16(Bits64(x))
  }

  lemma ModOfSplit(x: int, q: int, r: int)
    requires x == q * 0x1_0000 + r && 0 <= r < 0x1_0000
    ensures x % 0x1_0000 == r
  {
  }

  /** Truncating to 32 bits and then to 16 is truncating to 16 bits. */
  lemma Low16OfLow32(x: U64)
    ensures Low16(Low32(x)) == x % 0x1_0000
  {
    var q, v := x / 0x1_0000_0000, x % 0x1_0000_0000;
    assert x == q * 0x1_0000_0000 + v;
    var d, r := v / 0x1_0000, v % 0x1_0000;
    assert v == d * 0x1_0000 + r;
    ModOfSplit(x, q * 0x1_0000 + d, r);
  }
}
