/** The machine's unsigned integers. */
module Words {
  type byte = x: int | 0 <= x < 0x100
  type uint32 = x: int | 0 <= x < 0x1_0000_0000
}
