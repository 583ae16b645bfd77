/** 64-bit machine words: naturals below 2^64, and the all-ones bit pattern. */
module Words {

  const W: nat := 0x1_0000_0000_0000_0000

  type U64 = x: int | 0 <= x < 0x1_0000_0000_0000_0000

  const ONES: bv64 := 0xffff_ffff_ffff_ffff
}
