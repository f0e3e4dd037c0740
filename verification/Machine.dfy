/**
  Machine words and protocol constants shared by every module.

  C++ unsigned arithmetic is modelled on `int`; the reductions are written out, and
  the subset types below only record the ranges.
 */
module Machine {

  const U16: int := 0x1_0000
  const U32: int := 0x1_0000_0000
  const U64: int := 0x1_0000_0000_0000_0000

  type byte = x: int | 0 <= x < 0x100
  type u16 = x: int | 0 <= x < 0x1_0000
  type u32 = x: int | 0 <= x < 0x1_0000_0000
  type u64 = x: int | 0 <= x < 0x1_0000_0000_0000_0000

  const HEADER_LENGTH: nat := 20       // kTcpHeaderLength
  const MSS: nat := 1460               // kMaxSegmentSize
  const MAX_PACKET: nat := 1480        // kMaxTCPPacketLength
  const WINDOW: nat := 14600           // kMaxBytesInFlight
  const CAPACITY: nat := 262144        // 1024 * 256, the sender's ring buffer
  const SECOND: nat := 1000000         // TimeBase::Delta::fromSeconds(1), in microseconds


  /** A 32-bit result. */
  function Wrap(x: nat): u32 {
    x % U32
  }

  /** 32-bit subtraction. */
  function Minus(a: u32, b: u32): u32 {
    if a >= b then a - b else a - b + U32
  }

  /** 64-bit addition. */
  function Plus64(a: u64, b: u64): u64 {
    if a + b < U64 then a + b else a + b - U64
  }

  /** 64-bit subtraction. */
  function Minus64(a: u64, b: u64): u64 {
    if a >= b then a - b else a - b + U64
  }

  /** Two bytes as a number, the most significant first. */
  function Big16(a: int, b: int): int {
    a * 0x100 + b
  }

  /** Four bytes as a number, the most significant first. */
  function Big32(a: int, b: int, c: int, d: int): int {
    a * 0x100_0000 + b * 0x1_0000 + c * 0x100 + d
  }

  function Min(a: int, b: int): int {
    if a <= b then a else b
  }

  function Max(a: int, b: int): int {
    if a <= b then b else a
  }
}
