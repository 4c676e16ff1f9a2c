# A Dafny model of the Dynamic Layered Nonlinear Cipher

`DLNC.cpp` implements a toy substitution–permutation block cipher. A block is
eight 16-bit segments (128 bits). `expandKey` derives ten round keys from an
eight-segment master key. `encryptBlock` runs ten rounds of three layers:

- Layer A permutes the 128 bits with a table from `generatePermutation`. The
  table is a shuffle seeded by `0xDEADBEEF ^ r` and the block index.
- Layer B is the modular mixing `nonlinearMix`.
- Layer C rotates each segment by its round-key segment and XORs the key
  segment in.

`decryptBlock` runs the rounds backwards. It inverts Layer C. In place of
Layer B it runs a placeholder loop. It inverts Layer A with the inverse table
`invPerm`.

The model covers every function of the file except `main`, as pure
functions over immutable values:

| module | file | models |
|---|---|---|
| `Words` | `words.dfy` | `uint16_t` segments as `bv16`, `rotateLeft16`, single-bit tests |
| `Blocks` | `blocks.dfy` | blocks, round keys, and the flat 128-bit view the permutation loops use |
| `Permutation` | `permutation.dfy` | `generatePermutation`, the round seed, the `invPerm` loop |
| `BitPermutation` | `bit_permutation.dfy` | the bit-permutation loop run by both directions |
| `KeySchedule` | `key_schedule.dfy` | `expandKey` |
| `Mixing` | `mixing.dfy` | `nonlinearMix` and the placeholder inverse loop |
| `Diffusion` | `diffusion.dfy` | Layer C and its inverse |
| `Cipher` | `cipher.dfy` | `encryptBlock`, `decryptBlock`, and what the two compute together |

What the model shows about the code as written:

- Every building block except the mixing is a bijection with a proved
  inverse:
  - the shuffled table, for every possible random engine;
  - the bit permutation and its `invPerm` counterpart;
  - the rotate-and-XOR layer, including key segments that are multiples of 16;
  - the key-schedule map for a fixed round.
- `const uint16_t Q = 65537` stores `65537 mod 2^16 = 1`, so every mixing step
  computes a remainder modulo 1. Every segment therefore becomes 0.
- As a result `encryptBlock` returns the last round key `roundKeys[9]` for every
  plaintext and block index (`Cipher.EncryptBlock`).
- `decryptBlock` is injective, and exactly one plaintext survives the round
  trip (`Cipher.RoundTripSurvivor`). For every key schedule, the zero block
  or the all-ones block fails to come back (`Cipher.RoundTripFails`).
- The block-level results assume only that each round's table is a
  bijection. They are stated for every family of ten bijective tables, so
  they hold for whatever tables the library shuffle returns for each block
  index.

The source's own comments promise more than its code does:

- The comment on line 29 calls Q a "prime slightly above 2^16"; the code
  stores 1.
- The comment on line 81 announces an "inverse nonlinear mixing (modular
  inverse)", and line 85 says a "modular inverse calculation [is] needed for
  real implementation"; lines 83-88 are a self-assignment placeholder.
- Line 73 heads `decryptBlock` "Decryption (inverse layers)", that is, it
  should undo `encryptBlock`: `decryptBlock(encryptBlock(b)) == b` for every
  block.

The model follows the code. It proves that the round trip fails, and that it
does hold for a round with the mixing layer removed
(`Cipher.DecryptRoundUndoesPermuteAndDiffuse`).

## Model

| member | source | states |
|---|---|---|
| `Words.RotateLeft` | DLNC.cpp:14-16 | rotating 0 gives 0, and a shift of 0 or of 16 returns the word unchanged (16 is the inverse shift for key segments that are multiples of 16) |
| `Words.RotateLeftMovesBits` | DLNC.cpp:14-16 | for every shift k in 0..16, the low 16 - k bits of the word reappear k places higher and its high k bits reappear at the bottom: a 16-bit left rotation |
| `Words.RotateLeftUnique` | DLNC.cpp:14-16 | a word whose bits moved as `RotateLeftMovesBits` states is the rotation, so those two facts define `rotateLeft16` completely |
| `Words.RotateLeftInverse` | DLNC.cpp:14-16 | for every shift k in 0..16, rotating by k and then by 16 - k returns the word, in either order |
| `Words.RotateLeftInjective` | DLNC.cpp:14-16 | distinct words rotate to distinct words, and only 0 rotates to 0 |
| `Words.BitSet` | DLNC.cpp:56 | the test `x & (1 << k)` on one segment: whether bit k of the segment is set |
| `Blocks.TestBit` | DLNC.cpp:99 | the test `block[fromBit/16] & (1 << (fromBit%16))`: whether flat bit `fromBit` of the block is set |
| `Blocks.SetBit` | DLNC.cpp:57 | OR-ing `1 << (toBit%16)` into segment `toBit/16` sets flat bit `toBit` and changes no other bit |
| `Permutation.Identity` | DLNC.cpp:21 | the initial table maps every position to itself and is a bijection of 0..127 |
| `Permutation.Swap` | DLNC.cpp:23 | one exchange step of the shuffle keeps the multiset of entries and keeps a bijection a bijection |
| `Permutation.Shuffle` | DLNC.cpp:23 | a descending swap-based shuffle with an arbitrary choice at each step rearranges the table without duplicating or losing an entry, and keeps a bijection a bijection |
| `Permutation.GeneratePermutation` | DLNC.cpp:19-25 | for every seed, block index and random engine the table is a bijection of 0..127; as a function of its arguments it is deterministic |
| `Permutation.RoundSeed` | DLNC.cpp:51 | the seed `0xDEADBEEF ^ r` of round r in 0..9 equals `0xDEADBEEF - r`, so the ten rounds get ten different seeds |
| `Permutation.InvertLoop` | DLNC.cpp:93 | after n steps, each position named by `perm[0..n-1]` holds an index i < n with `perm[i]` equal to it; every other position keeps its initial contents; for an injective table `invPerm[perm[i]] == i` |
| `Permutation.InvertPermutation` | DLNC.cpp:91-93 | for a bijection `perm`, `invPerm` is a bijection with `invPerm[perm[i]] == i` and `perm[invPerm[j]] == j` |
| `Permutation.Uninitialised` | DLNC.cpp:92 | the contents of the uninitialised `array<int,128> invPerm`, taken as 128 zeros; `InverseIgnoresInitialContents` shows any other contents give the same table |
| `Permutation.InverseIgnoresInitialContents` | DLNC.cpp:92-93 | the uninitialised contents of `invPerm` do not affect the inverse of a bijection |
| `Permutation.InverseOfInverse` | DLNC.cpp:91-93 | building the inverse table of the inverse table gives back `perm` |
| `BitPermutation.PermuteLoop` | DLNC.cpp:52-59 | after visiting input bits 0..n-1, an output bit is set exactly when some visited set input bit is sent to it |
| `BitPermutation.Permute` | DLNC.cpp:52-60 | with an injective table, output bit `t[i]` equals input bit i; every set output bit is a table entry |
| `BitPermutation.PermuteInverse` | DLNC.cpp:95-103 | permuting by `invPerm` undoes permuting by `perm`, and the other way round |
| `BitPermutation.SetBitsOfPermute` | DLNC.cpp:53-59 | the set bits of the output are exactly the images of the set bits of the input |
| `BitPermutation.PermutePreservesPopCount` | DLNC.cpp:53-59 | the permutation layer keeps the number of set bits |
| `KeySchedule.ExpandKey` | DLNC.cpp:36-44 | every round-key segment gives back its master-key segment when the round's addend is subtracted and its mask XORed in |
| `KeySchedule.RoundMask` | DLNC.cpp:40 | the XOR mask `(r+1)*0x1F1F` of round r: the `int` product truncated to 16 bits, which wraps in rounds 8 and 9 (`DemoRoundKey` relies on the wrap) |
| `KeySchedule.RoundAddend` | DLNC.cpp:40 | the `+ r` of round r, as a 16-bit value |
| `KeySchedule.KeyWord` | DLNC.cpp:40 | one round-key segment `(masterKey[i] ^ ((r+1)*0x1F1F)) + r` in 16-bit wrap-around arithmetic; its properties are stated by `KeyWordInverse` and `KeyWordInjective` |
| `KeySchedule.KeyWordInverse` | DLNC.cpp:40 | `(m ^ mask) + addend` modulo 2^16 and `(k - addend) ^ mask` modulo 2^16 are inverse bijections on segments |
| `KeySchedule.KeyWordInjective` | DLNC.cpp:40 | two master-key segments give the same round-key segment exactly when they are equal |
| `KeySchedule.RoundKeyDeterminesMasterKey` | DLNC.cpp:38-42 | for each round r, two master keys have the same round key r exactly when they are equal |
| `KeySchedule.DemoRoundKey` | DLNC.cpp:40 | for the master key of `main`, round key 9 is `(masterKey[i] ^ 0x3736) + 9`: the product `10 * 0x1F1F = 0x13736` loses its 17th bit |
| `Mixing.MixRemainder` | DLNC.cpp:31 | the remainder of a mixing step is in 0..q-1 |
| `Mixing.MixValue` | DLNC.cpp:31 | the remainder stored back into the segment; a zero segment mixes to zero for every neighbour, key segment and modulus |
| `Mixing.MixValueModOne` | DLNC.cpp:29-31 | with the modulus 1 that Q actually holds, a mixing step stores 0 whatever the segments and key |
| `Mixing.MixLoop` | DLNC.cpp:30-32 | steps 0..6 mix a segment with the unchanged next segment; step 7 mixes segment 7 with the already updated segment 0; unvisited segments are unchanged |
| `Mixing.MixWith` | DLNC.cpp:28-33 | for any 16-bit modulus, segments 0..6 depend on the original next segment and segment 7 on the new segment 0 |
| `Mixing.MixModOne` | DLNC.cpp:29-32 | mixing modulo 1 clears the whole block |
| `Mixing.NonlinearMix` | DLNC.cpp:28-33 | `nonlinearMix` turns every block into the zero block, whatever the round key |
| `Mixing.InverseMixLoop` | DLNC.cpp:83-88 | any number of steps of the placeholder loop leave the block unchanged |
| `Mixing.InverseMix` | DLNC.cpp:81-88 | the inverse mixing layer is the identity |
| `Diffusion.Shift` | DLNC.cpp:67 | the rotation amount `roundKey[i] % 16` is below 16 |
| `Diffusion.Diffuse` | DLNC.cpp:67 | when the key segment is a multiple of 16 the segment is not rotated, so the step is a plain XOR with the key segment |
| `Diffusion.Undiffuse` | DLNC.cpp:78 | when the key segment is a multiple of 16 the inverse rotation by 16 is the identity, so the step is a plain XOR |
| `Diffusion.DiffuseInverse` | DLNC.cpp:66-68 | for every segment and key segment, the inverse step of line 78 undoes the forward step, and the other way round |
| `Diffusion.DiffuseZero` | DLNC.cpp:67 | a zero segment diffuses to the key segment |
| `Diffusion.DiffuseLayer` | DLNC.cpp:66-68 | the Layer C loop of `encryptBlock`, segment by segment; its properties are stated by `DiffuseLayerInverse` and `DiffuseLayerOfZero` |
| `Diffusion.UndiffuseLayer` | DLNC.cpp:77-79 | the inverse Layer C loop of `decryptBlock`, segment by segment; its property is stated by `DiffuseLayerInverse` |
| `Diffusion.DiffuseLayerInverse` | DLNC.cpp:66-79 | `UndiffuseLayer`, the inverse Layer C loop, undoes `DiffuseLayer`, the forward loop, on whole blocks, and the other way round |
| `Diffusion.DiffuseLayerOfZero` | DLNC.cpp:66-68 | `DiffuseLayer`, the Layer C loop, maps the zero block to the round key |
| `Cipher.RoundPermutation` | DLNC.cpp:51 | the table of every round is a bijection, and decryption rebuilds the same table (line 91) |
| `Cipher.RoundTables` | DLNC.cpp:51 | the ten tables both directions build for a block, `generatePermutation(0xDEADBEEF ^ r, blockIndex)` for round r (rebuilt at line 91); every one is a bijection |
| `Cipher.EncryptRound` | DLNC.cpp:50-68 | one encryption round outputs its round key, whatever the input block and table |
| `Cipher.EncryptLoop` | DLNC.cpp:49-69 | for any bijective tables, after n >= 1 rounds the block is round key n-1; after none it is the input |
| `Cipher.EncryptBlock` | DLNC.cpp:48-71 | the ciphertext is `roundKeys[9]` for every plaintext and every family of bijective tables, hence for every block index |
| `Cipher.DemoCiphertext` | DLNC.cpp:48-71 | the ciphertext of `main`'s plaintext under `main`'s key is the same fixed block for every random engine |
| `Cipher.DecryptRound` | DLNC.cpp:76-103 | output bit i of a decryption round is bit `perm[i]` of the block after inverse Layer C: scattering through `invPerm` gathers through `perm` |
| `Cipher.DecryptRoundUndoesPermuteAndDiffuse` | DLNC.cpp:76-103 | a decryption round exactly undoes an encryption round without its mixing layer |
| `Cipher.DecryptLoop` | DLNC.cpp:75-104 | the decryption rounds run from round 9 down to round 0, each with its own round key and table; its property is stated by `DecryptLoopInjective` for every family of bijective tables |
| `Cipher.DecryptBlock` | DLNC.cpp:74-106 | `decryptBlock`: all ten rounds from 9 down to 0; its properties are stated by `DecryptBlockInjective`, `RoundTripIsConstant` and `RoundTripSurvivor` |
| `Cipher.DecryptRoundInjective` | DLNC.cpp:75-104 | two blocks decrypt to the same block in one round exactly when they are equal |
| `Cipher.DecryptLoopInjective` | DLNC.cpp:75-104 | any number of decryption rounds is injective |
| `Cipher.DecryptBlockInjective` | DLNC.cpp:74-106 | for every family of bijective tables, two ciphertexts decrypt to the same block exactly when they are equal |
| `Cipher.RoundTripIsConstant` | DLNC.cpp:48-106 | for every family of bijective tables, encrypting and then decrypting yields one fixed block, whatever the plaintext |
| `Cipher.RoundTripSurvivor` | DLNC.cpp:48-106 | for every family of bijective tables, `decryptBlock(encryptBlock(b)) == b` holds for exactly one plaintext, the decryption of `roundKeys[9]` |
| `Cipher.RoundTripFails` | DLNC.cpp:48-106 | for every key schedule and every family of bijective tables, the zero block or the all-ones block does not survive the round trip |

## Left out

- `main` (lines 110-133): console output only. Its key and plaintext appear
  as `KeySchedule.DemoKey` and `Cipher.DemoPlaintext`.
- The concrete output of `seed_seq`, `default_random_engine` and
  `std::shuffle`. These are implementation-defined. The engine is a
  parameter, `Engine`, giving the raw draw at each shuffle step. The shuffle
  is modelled as a descending swap-based shuffle in which step k exchanges
  position k with an arbitrary position in 0..k. With every choice free,
  such a shuffle reaches every permutation of the table (the standard
  Fisher–Yates argument, not proved here). The cipher-level properties do
  not depend on this: they are stated for every family of bijective tables.
- The `const` mismatch at line 63. `encryptBlock` takes `roundKeys` by
  `const` reference (line 48), but `nonlinearMix` takes its `roundKey` by
  non-`const` reference (line 28). Binding one to the other is ill-formed,
  so the file does not compile as written. The model treats `roundKey` as
  read-only, as if declared `const`. Line 31 only reads it, so this changes
  no behaviour.
- The `static_cast<int>` of the 64-bit seed at line 22 and the `int`
  parameter `blockIndex`. Both are passed through unchanged to the abstract
  engine.
- Storage of permutation tables. Decryption calls the generator again with
  the same arguments (line 91), and the model uses the same function for
  both directions, which is what "deterministic" means here.
- Undefined behaviour from signed `int` overflow. The product on line 31 can
  exceed 2^31 - 1, and `val << 16` on line 15 can overflow when the inverse
  shift is 16. The model computes with unbounded integers and then
  truncates to 16 bits where the source stores into a `uint16_t`. With Q
  holding 1, the overflowing product changes nothing the model states.
- `Mixing.MixWith`: the modulus ranges over 1..65535, the values a
  `uint16_t` can hold other than 0. A modulus of 0 would be a division by
  zero, and the source never uses one.
- The locals `nextSeg` and `inv` of the placeholder loop (lines 84-85). They
  are never read, and no modular inverse is computed anywhere.
- Avalanche and other statistical claims about the cipher. They are not
  properties of individual inputs.
- The order in which `std::shuffle` visits positions and how it reduces
  raw draws into range. The C++ standard leaves both unspecified, and
  libstdc++ walks upwards and sometimes takes two positions from one draw.
  The model walks downwards and reduces with `% (k + 1)`. Only the set of
  reachable tables matters to the properties, and that set is the same.
