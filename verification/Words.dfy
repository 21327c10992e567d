/** Arithmetic modulo 2^32. */
module Words {

  const TWO_32: int := 0x1_0000_0000

  lemma ModShift(x: int, m: int)
    ensures (x + m * TWO_32) % TWO_32 == x % TWO_32
  {
  }
}
