/** Clock ticks: true time is unbounded, the firmware only sees its low 32 bits. */
module Ticks {
  import opened Numbers

  const HALF := 0x8000_0000

  /** The 32-bit counter value at a true time. */
  function Word(t: int): (w: int)
    ensures 0 <= w < WORD
  {
    t % WORD
  }

  /** timer_is_before: the sign of the 32-bit difference. */
  predicate IsBefore(a: int, b: int) {
    (a - b) % WORD >= HALF
  }

  /** Two times less than half a wrap apart compare as they should. */
  lemma IsBeforeIsEarlier(a: int, b: int)
    requires -HALF <= a - b < HALF
    ensures IsBefore(Word(a), Word(b)) <==> a < b
  {
    WordDifference(a, b);
    if a < b {
      assert (a - b) % WORD == a - b + WORD;
    }
  }

  lemma WordDifference(a: int, b: int)
    ensures (Word(a) - Word(b)) % WORD == (a - b) % WORD
  {
    var p, q := a / WORD, b / WORD;
    assert Word(a) - Word(b) == (a - b) + (q - p) * WORD;
    ModShift(a - b, q - p);
  }

  lemma WordAdd(t: int, d: int)
    ensures Word(Word(t) + d) == Word(t + d)
  {
    ModShift(t + d, -(t / WORD));
  }
}
