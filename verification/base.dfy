/** Machine-level building blocks shared by the SHE engine: the C integer
    widths it uses, an optional value, and the split of a 64-bit secure-element
    address into its low word and its high "address extension" word. */
module Base {

  datatype Option<+T> = None | Some(value: T)

  const TwoTo31: int := 0x8000_0000
  const TwoTo32: int := 0x1_0000_0000

  /** C `int32_t`, the type of the byte counts the transport returns. */
  type Int32 = x: int | -0x8000_0000 <= x < 0x8000_0000

  /** C `uint32_t` used as a byte count. */
  type Uint32 = x: int | 0 <= x < 0x1_0000_0000

  /** The C conversion `(int32_t)n` of a `uint32_t` (two's complement). */
  function AsInt32(n: Uint32): (r: Int32)
    ensures r % TwoTo32 == n
    ensures r >= 0 <==> n < TwoTo31
  {
    if n < TwoTo31 then n else n - TwoTo32
  }

  /** `(uint32_t)(a & 0xFFFFFFFF)`: the low word of an address. */
  function Lo32(a: bv64): (lo: bv32)
    ensures (lo as bv64) == (a & 0xFFFF_FFFF)
  {
    (a & 0xFFFF_FFFF) as bv32
  }

  /** `(uint32_t)((a >> 32) & 0xFFFFFFFF)`: the address extension. */
  function Hi32(a: bv64): (hi: bv32)
    ensures ((hi as bv64) << 32) == (a & 0xFFFF_FFFF_0000_0000)
  {
    ((a >> 32) & 0xFFFF_FFFF) as bv32
  }

  /** Reassembles an address from its extension and its low word. */
  function Join64(hi: bv32, lo: bv32): bv64
  {
    ((hi as bv64) << 32) | (lo as bv64)
  }

  /** Splitting an address loses nothing: the two words give it back. */
  lemma SplitJoin(a: bv64)
    ensures Join64(Hi32(a), Lo32(a)) == a
  {
  }

  /** And the two words of a joined address are the words it was made of. */
  lemma JoinSplit(hi: bv32, lo: bv32)
    ensures Hi32(Join64(hi, lo)) == hi
    ensures Lo32(Join64(hi, lo)) == lo
  {
  }
}
