/**
 Converting between numbers below 256 and 8-bit vectors loses nothing.
 */
module ByteBits {
  lemma ByteToBits(n: int)
    requires 0 <= n < 256
    ensures (n as bv8) as int == n
  {
  }

  lemma BitsToByte(x: bv8)
    ensures (x as int) as bv8 == x
  {
  }
}
