/** Sizes that the hardware fixes. */
module Machine {
  const PAGE_SIZE: nat := 0x1000
  /** Registers hold numbers below this. */
  const WORD_END: nat := 0x1_0000_0000_0000_0000
}
