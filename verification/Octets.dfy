/** Bytes and the naturals below 256 are the same thing. */
module Octets {

  /** The byte reached by counting up from zero. */
  function NthByte(n: nat): (b: bv8)
    requires n < 256
    ensures b as int == n
  {
    if n == 0 then 0 else NthByte(n - 1) + 1
  }

  lemma ByteOfNat(n: int)
    requires 0 <= n < 256
    ensures (n as bv8) as int == n
  {
    NatOfByte(NthByte(n));
  }

  lemma NatOfByte(b: bv8)
    ensures (b as int) < 256 && (b as int) as bv8 == b
  {
  }
}
