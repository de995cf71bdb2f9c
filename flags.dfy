/** Facts about 32-bit flag words that the flag lemmas build on. */
module Flags {

  /** None of `bits` is set in `word`. */
  predicate Clear(word: bv32, bits: bv32)
  {
    word & bits == 0
  }

  lemma AndDistributesOverOr(x: bv32, y: bv32, bits: bv32)
    ensures (x | y) & bits == (x & bits) | (y & bits)
  {
  }

  lemma OrIsZero(x: bv32, y: bv32)
    ensures x | y == 0 <==> x == 0 && y == 0
  {
  }

  /** Bits are absent from an OR exactly when they are absent from both operands. */
  lemma OrClear(x: bv32, y: bv32, bits: bv32)
    ensures Clear(x | y, bits) <==> Clear(x, bits) && Clear(y, bits)
  {
    AndDistributesOverOr(x, y, bits);
    OrIsZero(x & bits, y & bits);
  }

  /** OrClear, for a word already known to be the OR. */
  lemma OrClearAt(c: bv32, x: bv32, y: bv32, bits: bv32)
    requires c == x | y
    ensures Clear(c, bits) <==> Clear(x, bits) && Clear(y, bits)
  {
    OrClear(x, y, bits);
  }

  lemma ZeroClear(bits: bv32)
    ensures Clear(0, bits)
  {
  }

  lemma ClearOfComplement(c: bv32, f: bv32)
    ensures Clear(c, f & !c)
  {
  }

  lemma CoveredIfClear(c: bv32, f: bv32)
    requires Clear(f, f & !c)
    ensures c & f == f
  {
  }

  /** A word that has `bit` set and no bit outside it is `bit` itself. */
  lemma OnlyBit(c: bv32, bit: bv32)
    requires c & bit == bit
    requires Clear(c, !bit)
    ensures c == bit
  {
  }
}
