/** Fixed-width unsigned integers of the C++ sources, and the 64-bit
    arithmetic the bridge relies on (wrap-around, shifts, sign extension). */
module Words {

  const TWO_8: nat := 0x100
  const TWO_12: nat := 0x1000
  const TWO_32: nat := 0x1_0000_0000
  const TWO_39: nat := 0x80_0000_0000
  const TWO_40: nat := 0x100_0000_0000
  const TWO_64: nat := 0x1_0000_0000_0000_0000

  type u8 = x: int | 0 <= x < 0x100
  type u32 = x: int | 0 <= x < 0x1_0000_0000
  type u64 = x: int | 0 <= x < 0x1_0000_0000_0000_0000

  /** `a + b - c` evaluated in uint64_t, where every step wraps modulo 2^64. */
  function Wrap64(x: int): (r: u64)
    ensures r == x % TWO_64
    ensures 0 <= x < TWO_64 ==> r == x
  {
    x % TWO_64
  }

  /** `x >> 32`: the high half of a 64-bit value. */
  function High32(x: u64): (h: u32)
    ensures h * TWO_32 <= x < (h + 1) * TWO_32
  {
    x / TWO_32
  }

  /** `x & ((1ULL << 32) - 1)`, also `(uint32_t)x`: the low half. */
  function Low32(x: u64): (l: u32)
    ensures (x - l) % TWO_32 == 0
  {
    x % TWO_32
  }

  /** The two 32-bit halves written to a pair of registers rebuild the value. */
  lemma SplitJoin(x: u64)
    ensures High32(x) * TWO_32 + Low32(x) == x
  {
  }

  /** Reading a 64-bit pattern as a two's-complement signed number. */
  function Signed64(x: u64): int
  {
    if x < TWO_64 / 2 then x else x - TWO_64
  }

  /** Reading a 40-bit pattern as a two's-complement signed number. */
  function Signed40(x: int): int
    requires 0 <= x < TWO_40
  {
    if x < TWO_39 then x else x - TWO_40
  }

  /** `(uint64_t)(((int64_t)w << 24) >> 24)`: keeps bits 0..39 of `w` and
      copies bit 39 into bits 40..63. */
  function SignExtend40(w: u64): (r: u64)
    ensures r % TWO_40 == w % TWO_40
    ensures r / TWO_40 == if w % TWO_40 < TWO_39 then 0 else 0xFF_FFFF
    ensures Signed64(r) == Signed40(w % TWO_40)
  {
    var low := w % TWO_40;
    if low < TWO_39 then low else low + (TWO_64 - TWO_40)
  }

  /** Bit 40 of a word, the valid flag of a trace beat (`valid_mask`). */
  predicate Bit40(w: u64)
  {
    (w / TWO_40) % 2 == 1
  }

  /** `(addr >> 12) << 12`: the base of the 4 KiB page holding `addr`. */
  function PageOf(addr: u64): (p: u64)
    ensures p % TWO_12 == 0 && p <= addr < p + TWO_12
  {
    addr - addr % TWO_12
  }
}
