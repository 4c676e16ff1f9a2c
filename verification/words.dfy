/** 16-bit segments and the bit-level helpers of DLNC.cpp.

    A segment is a `uint16_t`. The C++ code promotes segments to `int` before
    shifting, OR-ing and XOR-ing, then truncates back to 16 bits on return or
    assignment. Every such expression only ever keeps the low 16 bits of its
    operands' low 16 bits, so it is modelled directly in 16-bit bit-vector
    arithmetic (`bv16`), where the truncation is built in.
 */
module Words {

  /** A `uint16_t` segment. */
  type Word = bv16

  /** Number of bits in a segment. */
  const WordBits: nat := 16

  /** `rotateLeft16(val, shift)`: `(val << shift) | (val >> (16 - shift))`
      truncated to 16 bits. The source only ever passes shifts 0..16; a shift of
      16 (reached from the inverse diffusion step) shifts a promoted `int` left
      by 16, which is signed overflow for `val >= 0x8000` in C++ before C++20.
      That undefined behaviour is not modelled: the bits above 16 are dropped
      by the truncation either way. */
  function RotateLeft(v: Word, shift: Word): (r: Word)
    requires shift <= 16
    ensures v == 0 ==> r == 0
    ensures shift == 0 || shift == 16 ==> r == v
  {
    (v << shift) | (v >> (16 - shift))
  }

  /** What makes `RotateLeft` a rotation: the low `16 - shift` bits of `v`
      move up by `shift` places, and its high `shift` bits wrap round to the
      bottom. */
  lemma RotateLeftMovesBits(v: Word, shift: Word)
    requires shift <= 16
    ensures RotateLeft(v, shift) >> shift == v & (0xFFFF >> shift)
    ensures RotateLeft(v, shift) & (0xFFFF >> (16 - shift)) == v >> (16 - shift)
  {
  }

  /** The two halves of `RotateLeftMovesBits` determine the rotated word:
      any word whose bits moved that way is the rotation. */
  lemma RotateLeftUnique(v: Word, shift: Word, r: Word)
    requires shift <= 16
    requires r >> shift == v & (0xFFFF >> shift)
    requires r & (0xFFFF >> (16 - shift)) == v >> (16 - shift)
    ensures r == RotateLeft(v, shift)
  {
  }

  /** Rotating left by `k` and then by `16 - k` gives back the original word,
      and so does the opposite order: the two rotations are inverse
      bijections on 16-bit words. */
  lemma RotateLeftInverse(v: Word, k: Word)
    requires k <= 16
    ensures RotateLeft(RotateLeft(v, k), 16 - k) == v
    ensures RotateLeft(RotateLeft(v, 16 - k), k) == v
  {
  }

  /** A rotation is injective; in particular only 0 rotates to 0. */
  lemma RotateLeftInjective(v: Word, w: Word, k: Word)
    requires k <= 16
    ensures RotateLeft(v, k) == RotateLeft(w, k) ==> v == w
    ensures RotateLeft(v, k) == 0 <==> v == 0
  {
    RotateLeftInverse(v, k);
    RotateLeftInverse(w, k);
    RotateLeftInverse(0, k);
  }

  /** Bit `k` of `x` is set: the test `x & (1 << k)` of the permutation loops. */
  predicate BitSet(x: Word, k: nat)
    requires k < WordBits
  {
    x & (1 << k) != 0
  }

  /** Setting bit `a` with `x | (1 << a)` sets exactly that bit and keeps all others. */
  lemma BitSetAfterOr(x: Word, a: nat, c: nat)
    requires a < WordBits && c < WordBits
    ensures BitSet(x | (1 << a), c) <==> BitSet(x, c) || a == c
  {
    OrMask(x, a, c);
  }

  lemma OrMask(x: Word, a: nat, c: nat)
    requires a < WordBits && c < WordBits
    ensures (x | (1 << a)) & (1 << c) != 0 <==> x & (1 << c) != 0 || a == c
  {
  }

  /** The all-zero word has no bit set. */
  lemma NoBitOfZero(c: nat)
    requires c < WordBits
    ensures !BitSet(0, c)
  {
  }

  /** Two words with the same sixteen bits are equal. */
  lemma WordExtensionality(x: Word, y: Word)
    requires forall k: nat :: k < WordBits ==> BitSet(x, k) == BitSet(y, k)
    ensures x == y
  {
    // The bit-vector reasoning happens in a quantifier-free helper.
    SameSixteenBits(x, y);
  }

  lemma SameSixteenBits(x: Word, y: Word)
    requires BitSet(x, 0) == BitSet(y, 0) && BitSet(x, 1) == BitSet(y, 1)
    requires BitSet(x, 2) == BitSet(y, 2) && BitSet(x, 3) == BitSet(y, 3)
    requires BitSet(x, 4) == BitSet(y, 4) && BitSet(x, 5) == BitSet(y, 5)
    requires BitSet(x, 6) == BitSet(y, 6) && BitSet(x, 7) == BitSet(y, 7)
    requires BitSet(x, 8) == BitSet(y, 8) && BitSet(x, 9) == BitSet(y, 9)
    requires BitSet(x, 10) == BitSet(y, 10) && BitSet(x, 11) == BitSet(y, 11)
    requires BitSet(x, 12) == BitSet(y, 12) && BitSet(x, 13) == BitSet(y, 13)
    requires BitSet(x, 14) == BitSet(y, 14) && BitSet(x, 15) == BitSet(y, 15)
    ensures x == y
  {
  }
}
