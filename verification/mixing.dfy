/** Layer B of a round: `nonlinearMix` and the placeholder loop `decryptBlock`
    runs in its place. */
module Mixing {
  import opened Words
  import opened Blocks

  /** `const uint16_t Q = 65537`: the literal does not fit in 16 bits, so the
      constant holds `65537 mod 2^16`, which is 1. */
  const Q: int := 65537 % 0x1_0000

  /** A modulus a `uint16_t` can hold, other than 0. */
  type Modulus = q: int | 0 < q < 0x1_0000 witness 1

  /** `(segments[i] * (segments[(i+1)%8] + roundKey[i])) % Q` with every
      operand promoted to `int`. The product can reach about 2^33, above
      `INT_MAX`, which is signed overflow and undefined behaviour in C++; the
      model computes it exactly instead. The remainder lies below `q`. */
  function MixRemainder(x: Word, y: Word, k: Word, q: Modulus): (v: int)
    ensures 0 <= v < q
  {
    (x as int * (y as int + k as int)) % q
  }

  /** The remainder stored back into a segment; being below `q`, it fits in
      16 bits and loses nothing. A zero segment stays zero, whatever its
      neighbour, its key segment and the modulus. */
  function MixValue(x: Word, y: Word, k: Word, q: Modulus): (v: Word)
    ensures x == 0 ==> v == 0
  {
    assert x == 0 ==> MixRemainder(x, y, k, q) == 0;
    MixRemainder(x, y, k, q) as bv16
  }

  /** Modulo 1 every product leaves 0. */
  lemma MixValueModOne(x: Word, y: Word, k: Word)
    ensures MixValue(x, y, k, 1) == 0
  {
    assert MixRemainder(x, y, k, 1) == 0;
  }

  /** The first `n` steps of the in-place loop `for (i = 0; i < 8; i++)`
      whose step `i` stores `mix(segments[i], segments[(i+1)%8], key[i])`.
      Step `i < 7` reads the next segment, still unchanged; step 7 reads
      `segments[0]`, which step 0 has already overwritten. */
  function MixLoop(s: Block, k: Block, mix: (Word, Word, Word) -> Word, n: nat): (r: Block)
    requires n <= Segments
    ensures forall i :: 0 <= i < n && i < Segments - 1 ==> r[i] == mix(s[i], s[i + 1], k[i])
    ensures n == Segments ==> r[Segments - 1] == mix(s[Segments - 1], r[0], k[Segments - 1])
    ensures forall i :: n <= i < Segments ==> r[i] == s[i]
  {
    if n == 0 then s
    else
      var t := MixLoop(s, k, mix, n - 1);
      var next := if n < Segments then t[n] else t[0];
      t[n - 1 := mix(t[n - 1], next, k[n - 1])]
  }

  /** `nonlinearMix` with modulus `q`. Segments 0..6 are mixed with the
      original next segment; segment 7 is mixed with the new segment 0. */
  function MixWith(s: Block, k: Block, q: Modulus): (r: Block)
    ensures forall i :: 0 <= i < Segments - 1 ==> r[i] == MixValue(s[i], s[i + 1], k[i], q)
    ensures r[Segments - 1] == MixValue(s[Segments - 1], MixValue(s[0], s[1], k[0], q), k[Segments - 1], q)
  {
    MixLoop(s, k, (x, y, c) => MixValue(x, y, c, q), Segments)
  }

  /** `nonlinearMix(segments, roundKey)`: with `Q` holding 1, every segment
      becomes 0, whatever the block and the key. */
  function NonlinearMix(s: Block, k: Block): (r: Block)
    ensures r == ZeroBlock
  {
    MixModOne(s, k);
    MixWith(s, k, Q)
  }

  /** Mixing modulo 1 clears every segment. */
  lemma MixModOne(s: Block, k: Block)
    ensures MixWith(s, k, 1) == ZeroBlock
  {
    var r := MixWith(s, k, 1);
    forall i | 0 <= i < Segments
      ensures r[i] == 0
    {
      var next := if i < Segments - 1 then s[i + 1] else r[0];
      MixValueModOne(s[i], next, k[i]);
    }
  }

  /** The first `n` steps of `for (i = 7; i >= 0; i--) block[i] = block[i];`,
      counted from segment 7 down. */
  function InverseMixLoop(b: Block, n: nat): (r: Block)
    requires n <= Segments
    ensures r == b
  {
    if n == 0 then b
    else
      var t := InverseMixLoop(b, n - 1);
      t[Segments - 1 - (n - 1) := t[Segments - 1 - (n - 1)]]
  }

  /** The inverse Layer B of `decryptBlock`: leaves the block unchanged. */
  function InverseMix(b: Block): (r: Block)
    ensures r == b
  {
    InverseMixLoop(b, Segments)
  }
}
