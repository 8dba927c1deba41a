/** Values shared by all the components: Go's fixed-width integers, zero-valued map
    lookups and optional results. */
module Base {
  newtype byte = b: int | 0 <= b < 256

  type Topic = string
  type NodeId = string
  type Bytes = seq<byte>

  /** Number of `uint64` values, and of non-negative `int` values, in Go. */
  const U64: int := 0x1_0000_0000_0000_0000
  const I64: int := 0x8000_0000_0000_0000

  type uint64 = n: int | 0 <= n < U64 witness 0

  datatype Option<+T> = None | Some(value: T)

  /** `n++` on a `uint64`: wraps to 0 after 2^64 - 1. */
  function Inc(n: uint64): uint64 {
    if n == U64 - 1 then 0 else n + 1
  }

  /** `int(a - b)` on `uint64` operands: subtraction wraps modulo 2^64, and the
      conversion reinterprets the upper half as negative. */
  function IntDiff(a: uint64, b: uint64): int {
    var d := if a >= b then a - b else a - b + U64;
    if d < I64 then d else d - U64
  }

  /** `m[k]` in Go: the zero value when the key is missing. */
  function At<K, V>(m: map<K, V>, k: K, zero: V): V {
    if k in m then m[k] else zero
  }

  function Max(a: int, b: int): int {
    if a >= b then a else b
  }
}
