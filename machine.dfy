/** Machine integers of the C++ library: `unsigned int` and `int`, both 32 bits wide. */
module Machine {

  /** 2^32, the number of values of a 32-bit `unsigned int`. */
  const UintModulus: int := 0x1_0000_0000

  /** C++ `unsigned int`. */
  newtype uint32 = x: int | 0 <= x < 0x1_0000_0000

  /** C++ `int`. */
  newtype int32 = x: int | -0x8000_0000 <= x < 0x8000_0000

  /** An integer reduced modulo 2^32 into the range of `unsigned int`. */
  function Wrap(x: int): (y: uint32)
    ensures 0 <= x < UintModulus ==> y as int == x
    ensures UintModulus <= x < 2 * UintModulus ==> y as int == x - UintModulus
    ensures -UintModulus <= x < 0 ==> y as int == x + UintModulus
  {
    (x % UintModulus) as uint32
  }
}
