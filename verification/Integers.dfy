/** The fixed-width integers of the source. */
module Integers {

  type uint32 = n: nat | n < 0x1_0000_0000

  type uint64 = n: nat | n < 0x1_0000_0000_0000_0000

  type int64 = n: int | -0x8000_0000_0000_0000 <= n < 0x8000_0000_0000_0000

  const UINT64 := 0x1_0000_0000_0000_0000
  const MAX_UINT64 := UINT64 - 1
}
