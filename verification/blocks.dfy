/** Blocks, keys and the flat 128-bit view of a block used by the
    bit-permutation layer. */
module Blocks {
  import opened Words

  /** Segments per block. */
  const Segments: nat := 8

  /** Bits per block. */
  const BlockBits: nat := 128

  /** Rounds of the cipher, and so round keys per master key. */
  const Rounds: nat := 10

  /** An `array<uint16_t, 8>`: a plaintext or ciphertext block, a master key
      or one round key. */
  type Block = s: seq<Word> | |s| == Segments witness [0, 0, 0, 0, 0, 0, 0, 0]

  /** An `array<array<uint16_t, 8>, 10>` of round keys. */
  type RoundKeys = s: seq<Block> | |s| == Rounds
    witness [ZeroBlock, ZeroBlock, ZeroBlock, ZeroBlock, ZeroBlock,
             ZeroBlock, ZeroBlock, ZeroBlock, ZeroBlock, ZeroBlock]

  /** The `{0}`-initialised block the permutation loops OR bits into. */
  const ZeroBlock: Block := [0, 0, 0, 0, 0, 0, 0, 0]

  /** Bit `i` of the block viewed as one 128-bit string: bit `i % 16` of
      segment `i / 16`, as in `block[fromBit/16] & (1 << (fromBit%16))`. */
  predicate TestBit(b: Block, i: nat)
    requires i < BlockBits
  {
    BitSet(b[i / WordBits], i % WordBits)
  }

  /** `permuted[toBit/16] |= (1 << (toBit%16))`: sets bit `i` of the flat view
      and leaves every other bit as it was. */
  function SetBit(b: Block, i: nat): (r: Block)
    requires i < BlockBits
    ensures forall j: nat :: j < BlockBits ==> (TestBit(r, j) <==> TestBit(b, j) || j == i)
  {
    var s := i / WordBits;
    var r: Block := b[s := b[s] | (1 << (i % WordBits))];
    assert forall j: nat :: j < BlockBits ==> (TestBit(r, j) <==> TestBit(b, j) || j == i) by {
      forall j: nat | j < BlockBits
        ensures TestBit(r, j) <==> TestBit(b, j) || j == i
      {
        if j / WordBits == s {
          BitSetAfterOr(b[s], i % WordBits, j % WordBits);
        }
      }
    }
    r
  }

  /** No bit of the zero block is set. */
  lemma ZeroBlockHasNoBits(i: nat)
    requires i < BlockBits
    ensures !TestBit(ZeroBlock, i)
  {
    NoBitOfZero(i % WordBits);
  }

  /** Two blocks that agree on all 128 bits are the same block. */
  lemma BlockExtensionality(a: Block, b: Block)
    requires forall i: nat :: i < BlockBits ==> TestBit(a, i) == TestBit(b, i)
    ensures a == b
  {
    forall s | 0 <= s < Segments
      ensures a[s] == b[s]
    {
      forall k: nat | k < WordBits
        ensures BitSet(a[s], k) == BitSet(b[s], k)
      {
        var i := s * WordBits + k;
        assert i / WordBits == s && i % WordBits == k;
        assert TestBit(a, i) == TestBit(b, i);
      }
      WordExtensionality(a[s], b[s]);
    }
  }

  /** Positions of the set bits of a block. */
  function SetBits(b: Block): (s: set<nat>)
    ensures forall i :: i in s ==> i < BlockBits
  {
    set i: nat | i < BlockBits && TestBit(b, i)
  }

  /** Number of set bits of a block. */
  function PopCount(b: Block): nat
  {
    |SetBits(b)|
  }
}
