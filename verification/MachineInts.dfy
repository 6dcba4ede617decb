/** The machine integers of the source and their saturating operations. */
module MachineInts {

  const U16_MAX: nat := 0xFFFF
  const U32_MAX: nat := 0xFFFF_FFFF
  const U64_MAX: nat := 0xFFFF_FFFF_FFFF_FFFF

  type u16 = n: int | 0 <= n <= U16_MAX
  type u32 = n: int | 0 <= n <= U32_MAX
  type u64 = n: int | 0 <= n <= U64_MAX
  type byte = n: int | 0 <= n < 256

  function Pow2(n: nat): nat {
    if n == 0 then 1 else 2 * Pow2(n - 1)
  }

  lemma {:induction false} Doubled(n: nat, k: nat)
    requires k <= n
    ensures Pow2(n) == Pow2(k) * Pow2(n - k)
  {
    if k > 0 {
      Doubled(n - 1, k - 1);
    }
  }

  /** The types hold the numbers of 16, 32 and 64 bits. */
  lemma Widths()
    ensures U16_MAX + 1 == Pow2(16) && U32_MAX + 1 == Pow2(32) && U64_MAX + 1 == Pow2(64)
  {
    hide Pow2;
    EightBits();
    Doubled(16, 8);
    Doubled(32, 16);
    Doubled(64, 32);
  }

  lemma EightBits()
    ensures Pow2(8) == 256
  {
  }

  function Min(a: int, b: int): int {
    if a <= b then a else b
  }

  function Max(a: int, b: int): int {
    if a >= b then a else b
  }

  /** `saturating_add` on u16, u32 and u64; `saturating_sub` on u16. */
  function SatAdd16(a: u16, b: u16): u16 {
    Min(a + b, U16_MAX)
  }

  function SatSub16(a: u16, b: u16): u16 {
    Max(a - b, 0)
  }

  function SatAdd32(a: u32, b: u32): u32 {
    Min(a + b, U32_MAX)
  }

  function SatAdd64(a: u64, b: u64): u64 {
    Min(a + b, U64_MAX)
  }
}
