/** `expandKey`: ten round keys from one master key. */
module KeySchedule {
  import opened Words
  import opened Blocks

  /** The value XORed into every segment in round `r`: the `int` product
      `(r+1) * 0x1F1F`, which exceeds 16 bits in rounds 8 and 9. Only its low 16 bits
      reach the stored segment, so it is computed in 16-bit wrap-around
      arithmetic. */
  function RoundMask(r: nat): Word
    requires r < Rounds
  {
    ((r + 1) as bv16) * 0x1F1F
  }

  /** The value added to every segment in round `r`. */
  function RoundAddend(r: nat): Word
    requires r < Rounds
  {
    r as bv16
  }

  /** One round-key segment, `(masterKey[i] ^ mask) + addend`, with the
      `int` result truncated to 16 bits on assignment. Only the low 16 bits of
      the operands reach the low 16 bits of an XOR or a sum, so the
      computation is exact in 16-bit wrap-around arithmetic. */
  function KeyWord(m: Word, mask: Word, addend: Word): Word
  {
    (m ^ mask) + addend
  }

  /** Recovers a master-key segment from a round-key segment. */
  function MasterWord(k: Word, mask: Word, addend: Word): Word
  {
    (k - addend) ^ mask
  }

  /** `KeyWord` and `MasterWord` are inverse bijections on segments. */
  lemma KeyWordInverse(m: Word, k: Word, mask: Word, addend: Word)
    ensures MasterWord(KeyWord(m, mask, addend), mask, addend) == m
    ensures KeyWord(MasterWord(k, mask, addend), mask, addend) == k
  {
    MasterAfterKey(m, mask, addend);
    KeyAfterMaster(k, mask, addend);
  }

  /** With fixed mask and addend, distinct master-key segments give distinct
      round-key segments. */
  lemma KeyWordInjective(m1: Word, m2: Word, mask: Word, addend: Word)
    ensures KeyWord(m1, mask, addend) == KeyWord(m2, mask, addend) <==> m1 == m2
  {
    MasterAfterKey(m1, mask, addend);
    MasterAfterKey(m2, mask, addend);
  }

  // Wrap-around cancellation is cheap for the solver only when the sum and
  // the difference meet in one term, so the round trips go through the
  // unfolded definitions.

  lemma MasterAfterKey(m: Word, mask: Word, addend: Word)
    ensures MasterWord(KeyWord(m, mask, addend), mask, addend) == m
  {
    KeyWordUnfold(m, mask, addend);
    MasterOfSum(m, mask, addend);
  }

  lemma KeyAfterMaster(k: Word, mask: Word, addend: Word)
    ensures KeyWord(MasterWord(k, mask, addend), mask, addend) == k
  {
    MasterWordUnfold(k, mask, addend);
    KeyOfDifference(k, mask, addend);
  }

  lemma KeyWordUnfold(m: Word, mask: Word, addend: Word)
    ensures KeyWord(m, mask, addend) == (m ^ mask) + addend
  {
  }

  lemma MasterWordUnfold(k: Word, mask: Word, addend: Word)
    ensures MasterWord(k, mask, addend) == (k - addend) ^ mask
  {
  }

  lemma MasterOfSum(m: Word, mask: Word, addend: Word)
    ensures MasterWord((m ^ mask) + addend, mask, addend) == m
  {
  }

  lemma KeyOfDifference(k: Word, mask: Word, addend: Word)
    ensures KeyWord((k - addend) ^ mask, mask, addend) == k
  {
  }

  /** `expandKey(masterKey)`: `roundKeys[r][i] = ((masterKey[i] ^ ((r+1) *
      0x1F1F)) + r) mod 2^16` for every round `r` and segment `i`. Each
      round-key segment determines its master-key segment. */
  function ExpandKey(mk: Block): (rks: RoundKeys)
    ensures forall r, i :: 0 <= r < Rounds && 0 <= i < Segments ==>
              MasterWord(rks[r][i], RoundMask(r), RoundAddend(r)) == mk[i]
  {
    var rks: RoundKeys := seq(Rounds, r requires 0 <= r < Rounds =>
      seq(Segments, i requires 0 <= i < Segments => KeyWord(mk[i], RoundMask(r), RoundAddend(r))));
    assert forall r, i :: 0 <= r < Rounds && 0 <= i < Segments ==>
             MasterWord(rks[r][i], RoundMask(r), RoundAddend(r)) == mk[i] by {
      forall r, i | 0 <= r < Rounds && 0 <= i < Segments
        ensures MasterWord(rks[r][i], RoundMask(r), RoundAddend(r)) == mk[i]
      {
        KeyWordInverse(mk[i], rks[r][i], RoundMask(r), RoundAddend(r));
      }
    }
    rks
  }

  /** For a fixed round, the map from master key to round key is injective:
      any one round key determines the master key. */
  lemma RoundKeyDeterminesMasterKey(m1: Block, m2: Block, r: nat)
    requires r < Rounds
    ensures ExpandKey(m1)[r] == ExpandKey(m2)[r] <==> m1 == m2
  {
    if ExpandKey(m1)[r] == ExpandKey(m2)[r] {
      forall i | 0 <= i < Segments
        ensures m1[i] == m2[i]
      {
        assert ExpandKey(m1)[r][i] == ExpandKey(m2)[r][i];
      }
    }
  }

  /** The master key of the demonstration in `main`. */
  const DemoKey: Block := [0x1234, 0x5678, 0x9ABC, 0xDEF0, 0x1111, 0x2222, 0x3333, 0x4444]

  /** Its round-9 key, `(masterKey[i] ^ 0x3736) + 9`: the product
      `10 * 0x1F1F = 0x13736` loses its 17th bit. */
  const DemoLastRoundKey: Block := [0x250B, 0x6157, 0xAD93, 0xE9CF, 0x2630, 0x151D, 0x040E, 0x737B]

  lemma DemoRoundKey()
    ensures ExpandKey(DemoKey)[Rounds - 1] == DemoLastRoundKey
  {
    var rk := ExpandKey(DemoKey)[Rounds - 1];
    assert RoundMask(Rounds - 1) == 0x3736;
    forall i | 0 <= i < Segments
      ensures rk[i] == DemoLastRoundKey[i]
    {
      KeyWordUnfold(DemoKey[i], RoundMask(Rounds - 1), RoundAddend(Rounds - 1));
    }
  }
}
