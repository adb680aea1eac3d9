/** The fixed-width integer type of the game's amounts of money. */
module Primitives {
  /** The range of a C# `long`. */
  type Int64 = x: int | -0x8000_0000_0000_0000 <= x < 0x8000_0000_0000_0000
}
