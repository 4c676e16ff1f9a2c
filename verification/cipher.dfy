/** `encryptBlock` and `decryptBlock`: ten rounds of the three layers, and
    what they compute. */
module Cipher {
  import opened Words
  import opened Blocks
  import opened Permutation
  import opened BitPermutation
  import opened Mixing
  import opened Diffusion
  import opened KeySchedule

  /** The permutation table of round `r`: `generatePermutation(0xDEADBEEF ^ r,
      blockIndex)`. Both directions build the same table. */
  function RoundPermutation(r: nat, blockIndex: int, engine: Engine): (perm: Table)
    requires r < Rounds
    ensures IsBijection(perm)
  {
    GeneratePermutation(RoundSeed(r), blockIndex, engine)
  }

  /** The ten tables of one block, indexed by round. */
  type Tables = nat -> Table

  /** Every round's table is a bijection of 0..127. This is all the rounds
      ask of their tables, and it holds for whatever `std::shuffle` returns,
      since a shuffle of the identity table is a rearrangement of it. */
  ghost predicate AllBijections(tables: Tables)
  {
    forall r :: 0 <= r < Rounds ==> IsBijection(tables(r))
  }

  /** The tables `encryptBlock` and `decryptBlock` both build for block
      `blockIndex`: round `r` uses `RoundPermutation(r, blockIndex, engine)`
      (lines 51 and 91). The block index and the engine reach the cipher only
      through these tables. */
  function RoundTables(blockIndex: int, engine: Engine): (tables: Tables)
    ensures AllBijections(tables)
  {
    (r: nat) => if r < Rounds then RoundPermutation(r, blockIndex, engine) else Identity()
  }

  /** One encryption round: Layer A (bit permutation), Layer B (mixing),
      Layer C (rotation and XOR). Since the mixing leaves the zero block, the
      round's output is its round key, whatever the input. */
  function EncryptRound(b: Block, rk: Block, perm: Table): (r: Block)
    requires IsBijection(perm)
    ensures r == rk
  {
    DiffuseLayerOfZero(rk);
    DiffuseLayer(NonlinearMix(Permute(b, perm), rk), rk)
  }

  /** The first `n` rounds of `encryptBlock`. After at least one round the
      block is the key of the last round run. */
  function EncryptLoop(b: Block, rks: RoundKeys, tables: Tables, n: nat): (r: Block)
    requires n <= Rounds && AllBijections(tables)
    ensures n == 0 ==> r == b
    ensures n > 0 ==> r == rks[n - 1]
  {
    if n == 0 then b
    else EncryptRound(EncryptLoop(b, rks, tables, n - 1), rks[n - 1], tables(n - 1))
  }

  /** `encryptBlock(block, roundKeys, blockIndex)` with the tables of
      `RoundTables(blockIndex, engine)`: the ciphertext is the last round key,
      the same for every plaintext and every family of bijective tables, so
      for every block index and engine. */
  function EncryptBlock(b: Block, rks: RoundKeys, tables: Tables): (c: Block)
    requires AllBijections(tables)
    ensures c == rks[Rounds - 1]
  {
    EncryptLoop(b, rks, tables, Rounds)
  }

  /** One decryption round: inverse Layer C, the placeholder Layer B, then the
      bit permutation with the `invPerm` table. Scattering bit `j` to
      `invPerm[j]` is gathering: output bit `i` is bit `perm[i]` of the
      undiffused block. */
  function DecryptRound(b: Block, rk: Block, perm: Table): (r: Block)
    requires IsBijection(perm)
    ensures forall i :: 0 <= i < BlockBits ==> (TestBit(r, i) <==> TestBit(UndiffuseLayer(b, rk), perm[i]))
  {
    var u := UndiffuseLayer(b, rk);
    var inv := InvertPermutation(perm, Uninitialised());
    var r := Permute(InverseMix(u), inv);
    assert forall i :: 0 <= i < BlockBits ==> (TestBit(r, i) <==> TestBit(u, perm[i])) by {
      forall i | 0 <= i < BlockBits
        ensures TestBit(r, i) <==> TestBit(u, perm[i])
      {
        assert inv[perm[i]] == i;
      }
    }
    r
  }

  /** Decryption inverts the two layers it has real inverses for: a round
      that skipped the mixing would be undone exactly. */
  lemma DecryptRoundUndoesPermuteAndDiffuse(b: Block, rk: Block, perm: Table)
    requires IsBijection(perm)
    ensures DecryptRound(DiffuseLayer(Permute(b, perm), rk), rk, perm) == b
  {
    DiffuseLayerInverse(Permute(b, perm), rk);
    PermuteInverse(b, perm, Uninitialised());
  }

  /** A decryption round is injective, so it loses no information: the
      information is lost on the encryption side. */
  lemma DecryptRoundInjective(b1: Block, b2: Block, rk: Block, perm: Table)
    requires IsBijection(perm)
    ensures DecryptRound(b1, rk, perm) == DecryptRound(b2, rk, perm) <==> b1 == b2
  {
    var inv := InvertPermutation(perm, Uninitialised());
    if DecryptRound(b1, rk, perm) == DecryptRound(b2, rk, perm) {
      PermuteInverse(UndiffuseLayer(b1, rk), inv, Uninitialised());
      PermuteInverse(UndiffuseLayer(b2, rk), inv, Uninitialised());
      InverseOfInverse(perm, Uninitialised());
      DiffuseLayerInverse(b1, rk);
      DiffuseLayerInverse(b2, rk);
    }
  }

  /** `decryptBlock` after it has run rounds `n-1` down to 0 (the loop runs
      `r = 9` down to `0`). */
  function DecryptLoop(b: Block, rks: RoundKeys, tables: Tables, n: nat): (r: Block)
    requires n <= Rounds && AllBijections(tables)
    decreases n
  {
    if n == 0 then b
    else DecryptLoop(DecryptRound(b, rks[n - 1], tables(n - 1)), rks, tables, n - 1)
  }

  /** `decryptBlock(block, roundKeys, blockIndex)` with the tables of
      `RoundTables(blockIndex, engine)`. */
  function DecryptBlock(c: Block, rks: RoundKeys, tables: Tables): Block
    requires AllBijections(tables)
  {
    DecryptLoop(c, rks, tables, Rounds)
  }

  /** Every number of decryption rounds is injective. */
  lemma {:induction false} DecryptLoopInjective(b1: Block, b2: Block, rks: RoundKeys, tables: Tables, n: nat)
    requires n <= Rounds && AllBijections(tables)
    ensures DecryptLoop(b1, rks, tables, n) == DecryptLoop(b2, rks, tables, n) <==> b1 == b2
    decreases n
  {
    if n > 0 {
      var perm := tables(n - 1);
      var d1 := DecryptRound(b1, rks[n - 1], perm);
      var d2 := DecryptRound(b2, rks[n - 1], perm);
      if DecryptLoop(d1, rks, tables, n - 1) == DecryptLoop(d2, rks, tables, n - 1) {
        DecryptLoopInjective(d1, d2, rks, tables, n - 1);
        DecryptRoundInjective(b1, b2, rks[n - 1], perm);
      }
    }
  }

  /** `decryptBlock` is injective: distinct ciphertexts decrypt differently. */
  lemma DecryptBlockInjective(c1: Block, c2: Block, rks: RoundKeys, tables: Tables)
    requires AllBijections(tables)
    ensures DecryptBlock(c1, rks, tables) == DecryptBlock(c2, rks, tables) <==> c1 == c2
  {
    DecryptLoopInjective(c1, c2, rks, tables, Rounds);
  }

  /** Encrypting then decrypting yields one fixed block, the decryption of
      the last round key, whatever the plaintext. */
  lemma RoundTripIsConstant(b: Block, rks: RoundKeys, tables: Tables)
    requires AllBijections(tables)
    ensures DecryptBlock(EncryptBlock(b, rks, tables), rks, tables) == DecryptBlock(rks[Rounds - 1], rks, tables)
  {
  }

  /** Exactly one plaintext survives the round trip: the decryption of the
      last round key. */
  lemma RoundTripSurvivor(b: Block, rks: RoundKeys, tables: Tables)
    requires AllBijections(tables)
    ensures DecryptBlock(EncryptBlock(b, rks, tables), rks, tables) == b
            <==> b == DecryptBlock(rks[Rounds - 1], rks, tables)
  {
    RoundTripIsConstant(b, rks, tables);
  }

  /** The block with every bit set. */
  const AllOnes: Block := [0xFFFF, 0xFFFF, 0xFFFF, 0xFFFF, 0xFFFF, 0xFFFF, 0xFFFF, 0xFFFF]

  /** The demonstration ciphertext, block 0 of `main`, is the last round key
      of the demonstration key, whatever the random engine produces. */
  lemma DemoCiphertext(engine: Engine)
    ensures EncryptBlock(DemoPlaintext, ExpandKey(DemoKey), RoundTables(0, engine)) == DemoLastRoundKey
  {
    DemoRoundKey();
  }

  /** The plaintext of the demonstration in `main`. */
  const DemoPlaintext: Block := [0xAAAA, 0xBBBB, 0xCCCC, 0xDDDD, 0x1111, 0x2222, 0x3333, 0x4444]

  /** For every key schedule and every family of bijective tables,
      decryption does not invert encryption: the zero block or the all-ones
      block fails to come back. */
  lemma RoundTripFails(rks: RoundKeys, tables: Tables)
    requires AllBijections(tables)
    ensures DecryptBlock(EncryptBlock(ZeroBlock, rks, tables), rks, tables) != ZeroBlock
         || DecryptBlock(EncryptBlock(AllOnes, rks, tables), rks, tables) != AllOnes
  {
    RoundTripSurvivor(ZeroBlock, rks, tables);
    RoundTripSurvivor(AllOnes, rks, tables);
  }
}
