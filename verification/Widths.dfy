/** The fixed-width unsigned integers of the agent, the packed dump format and their arithmetic. */
module Widths {
  const TWO32 := 0x1_0000_0000
  const TWO64 := 0x1_0000_0000_0000_0000
  const NS_PER_SEC := 1_000_000_000

  type byte = n: int | 0 <= n < 0x100
  type u16 = n: int | 0 <= n < 0x1_0000
  type u32 = n: int | 0 <= n < 0x1_0000_0000
  type u64 = n: int | 0 <= n < 0x1_0000_0000_0000_0000

  /** `a - b` on 64-bit unsigned operands: wraps when `b` is the larger. */
  function Sub64(a: u64, b: u64): u64 { (a - b) % TWO64 }

  /** `a + b` on 64-bit unsigned operands. */
  function Add64(a: u64, b: u64): u64 { (a + b) % TWO64 }

  /** A signed count of seconds cast to 64 bits and scaled to nanoseconds. */
  function SecToNs(sec: int): u64 { (sec % TWO64) * NS_PER_SEC % TWO64 }

  /** The cast to 32 bits, which keeps the low half. */
  function ToU32(n: int): u32 { n % TWO32 }

  lemma Sub64Exact(a: u64, b: u64)
    requires b <= a
    ensures Sub64(a, b) == a - b
  {
  }

  lemma SecToNsExact(sec: int)
    requires 0 <= sec <= 0x7fff_ffff
    ensures SecToNs(sec) == sec * NS_PER_SEC
  {
  }
}
