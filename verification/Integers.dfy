/** The integer ranges of the source's types. */
module Integers {

  type UInt16 = n: nat | n < 0x1_0000
  type UInt32 = n: nat | n < 0x1_0000_0000

  const INT_MIN := -0x8000_0000
  const INT_MAX := 0x7fff_ffff
}
