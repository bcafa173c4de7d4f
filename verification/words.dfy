/** Fixed-width machine words of the driver, modelled as bounded naturals,
    with the C wrap-around written out where the source relies on it. */
module Words {

  const TWO_8: nat := 0x100
  const TWO_16: nat := 0x1_0000
  const TWO_32: nat := 0x1_0000_0000
  const TWO_64: nat := 0x1_0000_0000_0000_0000

  type U8 = x: nat | x < 0x100
  type U16 = x: nat | x < 0x1_0000
  type U32 = x: nat | x < 0x1_0000_0000
  type U64 = x: nat | x < 0x1_0000_0000_0000_0000

  datatype Option<T> = None | Some(value: T)

  /** Unsigned 32-bit arithmetic: the result of a C `uint32_t` operation. */
  function Wrap32(x: int): (r: U32)
    ensures 0 <= x < TWO_32 ==> r == x
    ensures (r - x) % TWO_32 == 0
  {
    x % TWO_32
  }

  /** Unsigned 64-bit arithmetic: the result of a C `uint64_t` operation. */
  function Wrap64(x: int): (r: U64)
    ensures 0 <= x < TWO_64 ==> r == x
    ensures (r - x) % TWO_64 == 0
  {
    x % TWO_64
  }

  /** `a - b` on two `uint32_t` operands. */
  function Sub32(a: U32, b: U32): (r: U32)
    ensures a >= b ==> r == a - b
    ensures a < b ==> r == a - b + TWO_32
  {
    Wrap32(a - b)
  }

  /** `a - b` on two `uint64_t` operands. */
  function Sub64(a: U64, b: U64): (r: U64)
    ensures a >= b ==> r == a - b
    ensures a < b ==> r == a - b + TWO_64
  {
    Wrap64(a - b)
  }

  /** A 64-bit word assembled from two consecutive little-endian 32-bit
      words, as a `uint64_t *` view of a `uint32_t` record reads it. */
  function Join64(lo: U32, hi: U32): (r: U64)
    ensures r % TWO_32 == lo && r / TWO_32 == hi
  {
    lo + hi * TWO_32
  }

  /** `x + 1` on a `uint32_t`: the largest value wraps to zero. */
  function Inc32(x: U32): (r: U32)
    ensures x < TWO_32 - 1 ==> r == x + 1
    ensures x == TWO_32 - 1 ==> r == 0
  {
    if x == TWO_32 - 1 then 0 else x + 1
  }

  /** `x - 1` on a `uint32_t`: zero wraps to the largest value. */
  function Dec32(x: U32): (r: U32)
    ensures x > 0 ==> r + 1 == x
    ensures x == 0 ==> r == TWO_32 - 1
  {
    if x == 0 then TWO_32 - 1 else x - 1
  }

  /** The low 32 bits of a 64-bit value (a truncating `uint32_t` store). */
  function Lo32(x: U64): (r: U32)
    ensures Join64(r, x / TWO_32) == x
  {
    x % TWO_32
  }

  /** `align(x, a)` for the alignments the driver uses (1, 2 or 4 bytes):
      the least multiple of `a` not below `x`. */
  function AlignUp(x: nat, a: nat): (r: nat)
    requires a == 1 || a == 2 || a == 4
    ensures r % a == 0
    ensures x <= r < x + a
    ensures x % a == 0 ==> r == x
  {
    if a == 1 then x
    else if a == 2 then x + x % 2
    else if x % 4 == 0 then x
    else x + 4 - x % 4
  }
}
