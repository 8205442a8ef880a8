/**
  The machine words that bound sizes and counters.
 */
module Words {
  const WORD: nat := 0x1_0000_0000
  const U64_MAX: nat := 0xffff_ffff_ffff_ffff
}
