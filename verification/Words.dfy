/** Machine words. */
module Words {
  /** How many values a 64-bit word has. */
  const WORD := 0x1_0000_0000_0000_0000
}
