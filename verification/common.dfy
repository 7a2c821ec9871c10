/** Values that several components share. */
module Common {

  datatype Option<+T> = None | Some(value: T)

  type Byte = x: int | 0 <= x < 256
  type Bytes = seq<Byte>

  /** Go's 64-bit integers; counters of the kernel are unsigned and wrap around. */
  const U64: int := 0x1_0000_0000_0000_0000
  const MAX_INT: int := 0x7FFF_FFFF_FFFF_FFFF
  const MIN_INT: int := -0x8000_0000_0000_0000

  type Counter = x: int | 0 <= x < U64
  type Int64 = x: int | MIN_INT <= x <= MAX_INT

  function Sub64(a: Counter, b: Counter): Counter {
    if a >= b then a - b else a - b + U64
  }

  function Bit(b: bool): nat {
    if b then 1 else 0
  }

  function Max(a: int, b: int): int {
    if a >= b then a else b
  }

  /** The cycle number of the next scan: every `factor` scans it is 0 and the full set of metrics is sent. */
  function NextCycle(cycleNum: int, factor: int): int {
    if cycleNum + 1 >= factor then 0 else cycleNum + 1
  }
}
