/** Where C integers of 32 bits end. */
module Widths {
  const TWO_31 := 0x8000_0000
  const TWO_32 := 0x1_0000_0000
}
