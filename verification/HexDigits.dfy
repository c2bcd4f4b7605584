/** Hexadecimal digits as they are written. */
module HexDigits {
  import opened BitStrings

  type Nibble = n: nat | n < 16

  datatype Hex = Hex(value: Nibble, upper: bool)

  /** Byte n of "0123456789abcdef", or of "0123456789ABCDEF". */
  function HexByte(h: Hex): Byte {
    if h.upper then [48, 49, 50, 51, 52, 53, 54, 55, 56, 57, 65, 66, 67, 68, 69, 70][h.value]
    else [48, 49, 50, 51, 52, 53, 54, 55, 56, 57, 97, 98, 99, 100, 101, 102][h.value]
  }
}
