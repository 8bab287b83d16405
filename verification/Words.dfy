/** The program's unsigned 64-bit words. */
module Words {

  const U64_MAX: nat := 0xFFFF_FFFF_FFFF_FFFF

  type u64 = x: int | 0 <= x <= U64_MAX

  function SatAdd(a: nat, b: nat): u64 { if a + b <= U64_MAX then a + b else U64_MAX }
}
