/** Sizes and machine words, as the other modules count with them. */
module Numbers {
  const WORD := 0x1_0000_0000

  function Min(a: nat, b: nat): nat {
    if a < b then a else b
  }

  /** Whole words do not change what is left of a number. */
  lemma ModShift(x: int, k: int)
    ensures (x + k * WORD) % WORD == x % WORD
  {
  }
}
