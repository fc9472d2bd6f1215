/** The widths of C integers that values are cut to. */
module Widths {

  const UINT8 := 0x100
  const UINT16 := 0x1_0000

  type Uint16 = n: nat | n < UINT16
}
