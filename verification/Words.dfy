/** 32-bit words, and the smaller of two numbers. */
module Words {
  const WORD: nat := 0x1_0000_0000

  type word = x: int | 0 <= x < WORD

  function Min(a: nat, b: nat): nat {
    if a < b then a else b
  }
}
