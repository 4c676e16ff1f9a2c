/** Layer C of a round: each segment is rotated by its round-key segment and
    XORed with it; `decryptBlock` XORs first and rotates the rest of the way
    round. */
module Diffusion {
  import opened Words
  import opened Blocks

  /** The rotation amount `roundKey[i] % 16`, in 0..15. */
  function Shift(k: Word): (s: Word)
    ensures s < 16
  {
    k % 16
  }

  /** `rotateLeft16(block[i], roundKeys[r][i] % 16) ^ roundKeys[r][i]`.
      A key segment that is a multiple of 16 does not rotate, leaving a plain
      XOR. */
  function Diffuse(w: Word, k: Word): (r: Word)
    ensures Shift(k) == 0 ==> r == w ^ k
  {
    RotateLeft(w, Shift(k)) ^ k
  }

  /** `rotateLeft16(block[i] ^ roundKeys[r][i], 16 - (roundKeys[r][i] % 16))`.
      The shift is 16 when the key segment is a multiple of 16; a rotation by
      16 is the identity, matching the rotation by 0 on the encryption side. */
  function Undiffuse(w: Word, k: Word): (r: Word)
    ensures Shift(k) == 0 ==> r == w ^ k
  {
    RotateLeft(w ^ k, 16 - Shift(k))
  }

  /** The inverse step undoes the forward step and the other way round, for
      every key segment, including those with `k % 16 == 0`. */
  lemma DiffuseInverse(w: Word, k: Word)
    ensures Undiffuse(Diffuse(w, k), k) == w
    ensures Diffuse(Undiffuse(w, k), k) == w
  {
    UndiffuseAfterDiffuse(w, k);
    DiffuseAfterUndiffuse(w, k);
  }

  lemma UndiffuseAfterDiffuse(w: Word, k: Word)
    ensures Undiffuse(Diffuse(w, k), k) == w
  {
    RotateLeftInverse(w, Shift(k));
  }

  lemma DiffuseAfterUndiffuse(w: Word, k: Word)
    ensures Diffuse(Undiffuse(w, k), k) == w
  {
    RotateLeftInverse(w ^ k, Shift(k));
  }

  /** A zero segment diffuses to the key segment itself. */
  lemma DiffuseZero(k: Word)
    ensures Diffuse(0, k) == k
  {
  }

  /** The Layer C loop of `encryptBlock` over all eight segments. */
  function DiffuseLayer(b: Block, rk: Block): Block
  {
    seq(Segments, i requires 0 <= i < Segments => Diffuse(b[i], rk[i]))
  }

  /** The inverse Layer C loop of `decryptBlock`. */
  function UndiffuseLayer(b: Block, rk: Block): Block
  {
    seq(Segments, i requires 0 <= i < Segments => Undiffuse(b[i], rk[i]))
  }

  /** The two layers are inverse bijections on blocks. */
  lemma DiffuseLayerInverse(b: Block, rk: Block)
    ensures UndiffuseLayer(DiffuseLayer(b, rk), rk) == b
    ensures DiffuseLayer(UndiffuseLayer(b, rk), rk) == b
  {
    var d := DiffuseLayer(b, rk);
    var u := UndiffuseLayer(b, rk);
    forall i | 0 <= i < Segments
      ensures UndiffuseLayer(d, rk)[i] == b[i] && DiffuseLayer(u, rk)[i] == b[i]
    {
      DiffuseInverse(b[i], rk[i]);
    }
  }

  /** The zero block diffuses to the round key itself. */
  lemma DiffuseLayerOfZero(rk: Block)
    ensures DiffuseLayer(ZeroBlock, rk) == rk
  {
    forall i | 0 <= i < Segments
      ensures DiffuseLayer(ZeroBlock, rk)[i] == rk[i]
    {
      DiffuseZero(rk[i]);
    }
  }
}
