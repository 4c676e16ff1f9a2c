/** Layer A of a round: the 128-bit permutation loop of `encryptBlock`, which
    `decryptBlock` runs again with the inverse table. */
module BitPermutation {
  import opened Blocks
  import opened Permutation

  /** The bit loop over input bits `0 .. n-1`, starting from the zero block:
      for each set input bit `i`, output bit `t[i]` is set. After `n` steps an
      output bit is set exactly when some already visited input bit that is
      set is sent to it; the loop sets no other bit. */
  function PermuteLoop(b: Block, t: Table, n: nat): (r: Block)
    requires InRange(t) && n <= BlockBits
    ensures forall j: nat :: j < BlockBits ==>
              (TestBit(r, j) <==> exists i :: 0 <= i < n && t[i] == j && TestBit(b, i))
  {
    if n == 0 then
      assert forall j: nat :: j < BlockBits ==> !TestBit(ZeroBlock, j) by {
        forall j: nat | j < BlockBits
          ensures !TestBit(ZeroBlock, j)
        {
          ZeroBlockHasNoBits(j);
        }
      }
      ZeroBlock
    else
      var r := PermuteLoop(b, t, n - 1);
      if TestBit(b, n - 1) then SetBit(r, t[n - 1]) else r
  }

  /** The permutation layer with table `t`: `perm` when encrypting, `invPerm`
      when decrypting. With an injective table, input bit `i` lands at
      position `t[i]`; every set output bit is some table entry. */
  function Permute(b: Block, t: Table): (r: Block)
    requires InRange(t)
    ensures Injective(t) ==> forall i :: 0 <= i < BlockBits ==> (TestBit(r, t[i]) <==> TestBit(b, i))
    ensures forall j: nat :: j < BlockBits && TestBit(r, j) ==> j in t
  {
    PermuteLoop(b, t, BlockBits)
  }

  /** The table built from `invPerm` undoes the permutation by `perm`, and the
      other way round. */
  lemma PermuteInverse(b: Block, p: Table, init: seq<int>)
    requires IsBijection(p) && |init| == BlockBits
    ensures Permute(Permute(b, p), InvertPermutation(p, init)) == b
    ensures Permute(Permute(b, InvertPermutation(p, init)), p) == b
  {
    var inv := InvertPermutation(p, init);
    UndoPermute(b, p, inv);
    UndoPermute(b, inv, p);
  }

  /** If `u[t[j]] == j` for every position, permuting by `t` then by `u`
      is the identity. */
  lemma UndoPermute(b: Block, t: Table, u: Table)
    requires IsBijection(t) && IsBijection(u)
    requires forall j :: 0 <= j < BlockBits ==> u[t[j]] == j
    ensures Permute(Permute(b, t), u) == b
  {
    var c := Permute(b, t);
    var d := Permute(c, u);
    forall j: nat | j < BlockBits
      ensures TestBit(d, j) == TestBit(b, j)
    {
      assert u[t[j]] == j;
      assert TestBit(d, u[t[j]]) == TestBit(c, t[j]);
    }
    BlockExtensionality(d, b);
  }

  /** The set bits of the permuted block are the images of the set bits of
      the input block. */
  lemma SetBitsOfPermute(b: Block, t: Table)
    requires IsBijection(t)
    ensures SetBits(Permute(b, t)) == set i | i in SetBits(b) :: t[i] as nat
  {
    var r := Permute(b, t);
    var image := set i | i in SetBits(b) :: t[i] as nat;
    forall j | j in SetBits(r)
      ensures j in image
    {
      var i :| 0 <= i < |t| && t[i] == j;
      assert TestBit(b, i);
    }
  }

  /** The permutation layer keeps the number of set bits. */
  lemma PermutePreservesPopCount(b: Block, t: Table)
    requires IsBijection(t)
    ensures PopCount(Permute(b, t)) == PopCount(b)
  {
    SetBitsOfPermute(b, t);
    InjectiveImageSize(SetBits(b), t);
  }

  /** An injective table maps a set of positions onto a set of the same size. */
  lemma {:induction false} InjectiveImageSize(s: set<nat>, t: Table)
    requires IsBijection(t)
    requires forall i :: i in s ==> i < BlockBits
    ensures |set i | i in s :: t[i] as nat| == |s|
    decreases s
  {
    if s != {} {
      var x :| x in s;
      var rest := s - {x};
      InjectiveImageSize(rest, t);
      assert (set i | i in s :: t[i] as nat) == (set i | i in rest :: t[i] as nat) + {t[x] as nat};
      assert t[x] as nat !in (set i | i in rest :: t[i] as nat);
    }
  }
}
