/** The operations on words by what they do to the bits. */
module Sha256Words {
  import opened Sha256Spec

  /** Rotating right, for every word and amount: the low 32 - n bits of the result are the high ones of x, and its
      high n bits are the low ones of x. */
  lemma RotatesRight(x: Word, n: Word)
    requires 0 < n < 32
    ensures RotR(x, n) & (0xffff_ffff >> n) == x >> n
    ensures RotR(x, n) >> (32 - n) == x & (0xffff_ffff >> (32 - n))
  {
  }

  // Bit k of the word, counted from the least significant and around the word.
  function Bit(x: Word, k: Word): Word { (x >> (k & 31)) & 1 }

  // Each amount the standard rotates by.
  lemma RotatedBy2(x: Word, k: Word)
    requires k < 32
    ensures Bit(RotR(x, 2), k) == Bit(x, k + 2)
  {
  }

  lemma RotatedBy6(x: Word, k: Word)
    requires k < 32
    ensures Bit(RotR(x, 6), k) == Bit(x, k + 6)
  {
  }

  lemma RotatedBy7(x: Word, k: Word)
    requires k < 32
    ensures Bit(RotR(x, 7), k) == Bit(x, k + 7)
  {
  }

  lemma RotatedBy11(x: Word, k: Word)
    requires k < 32
    ensures Bit(RotR(x, 11), k) == Bit(x, k + 11)
  {
  }

  lemma RotatedBy13(x: Word, k: Word)
    requires k < 32
    ensures Bit(RotR(x, 13), k) == Bit(x, k + 13)
  {
  }

  lemma RotatedBy17(x: Word, k: Word)
    requires k < 32
    ensures Bit(RotR(x, 17), k) == Bit(x, k + 17)
  {
  }

  lemma RotatedBy18(x: Word, k: Word)
    requires k < 32
    ensures Bit(RotR(x, 18), k) == Bit(x, k + 18)
  {
  }

  lemma RotatedBy19(x: Word, k: Word)
    requires k < 32
    ensures Bit(RotR(x, 19), k) == Bit(x, k + 19)
  {
  }

  lemma RotatedBy22(x: Word, k: Word)
    requires k < 32
    ensures Bit(RotR(x, 22), k) == Bit(x, k + 22)
  {
  }

  lemma RotatedBy25(x: Word, k: Word)
    requires k < 32
    ensures Bit(RotR(x, 25), k) == Bit(x, k + 25)
  {
  }

  /** Bit by bit, for every amount the standard rotates by: bit k of the result is bit k + n, around the word. */
  lemma RotatedBits(x: Word, k: Word)
    requires k < 32
    ensures Bit(RotR(x, 2), k) == Bit(x, k + 2)
    ensures Bit(RotR(x, 6), k) == Bit(x, k + 6)
    ensures Bit(RotR(x, 7), k) == Bit(x, k + 7)
    ensures Bit(RotR(x, 11), k) == Bit(x, k + 11)
    ensures Bit(RotR(x, 13), k) == Bit(x, k + 13)
    ensures Bit(RotR(x, 17), k) == Bit(x, k + 17)
    ensures Bit(RotR(x, 18), k) == Bit(x, k + 18)
    ensures Bit(RotR(x, 19), k) == Bit(x, k + 19)
    ensures Bit(RotR(x, 22), k) == Bit(x, k + 22)
    ensures Bit(RotR(x, 25), k) == Bit(x, k + 25)
  {
    hide RotR, Bit;
    RotatedBy2(x, k);
    RotatedBy6(x, k);
    RotatedBy7(x, k);
    RotatedBy11(x, k);
    RotatedBy13(x, k);
    RotatedBy17(x, k);
    RotatedBy18(x, k);
    RotatedBy19(x, k);
    RotatedBy22(x, k);
    RotatedBy25(x, k);
  }

  /** Words are added modulo 2^32: the sum is the low half of the sum without a carry out. */
  lemma AddsModulo(x: Word, y: Word)
    ensures Plus(x, y) as bv64 == ((x as bv64) + (y as bv64)) & 0xffff_ffff
  {
  }
}
