/** Permutation tables of the 128 bit positions: `generatePermutation` and the
    `invPerm` table that `decryptBlock` builds from it. */
module Permutation {
  import opened Blocks

  /** An `array<int, 128>` of bit positions. */
  type Table = seq<int>

  /** Every entry is a bit position, so the table can drive the bit loops. */
  predicate InRange(t: Table)
  {
    && |t| == BlockBits
    && forall i :: 0 <= i < |t| ==> 0 <= t[i] < BlockBits
  }

  /** No bit position appears twice. */
  predicate Injective(t: Table)
  {
    forall i, j :: 0 <= i < |t| && 0 <= j < |t| && i != j ==> t[i] != t[j]
  }

  /** Every bit position appears. */
  predicate Surjective(t: Table)
  {
    forall v :: 0 <= v < BlockBits ==> v in t
  }

  /** A bijection of 0..127. */
  predicate IsBijection(t: Table)
  {
    InRange(t) && Injective(t) && Surjective(t)
  }

  /** `for (i = 0; i < 128; i++) perm[i] = i;` */
  function Identity(): (t: Table)
    ensures IsBijection(t)
    ensures forall i :: 0 <= i < |t| ==> t[i] == i
  {
    var t := seq(BlockBits, i => i);
    assert forall v :: 0 <= v < BlockBits ==> v in t by {
      forall v | 0 <= v < BlockBits
        ensures v in t
      {
        assert t[v] == v;
      }
    }
    t
  }

  /** Exchanges entries `i` and `j`; the only step a swap-based shuffle takes. */
  function Swap(t: Table, i: nat, j: nat): (r: Table)
    requires i < |t| && j < |t|
    ensures |r| == |t| && multiset(r) == multiset(t)
    ensures IsBijection(t) ==> IsBijection(r)
  {
    SwapKeepsElements(t, i, j);
    SwapKeepsBijection(t, i, j);
    t[i := t[j]][j := t[i]]
  }

  lemma SwapKeepsElements(t: Table, i: nat, j: nat)
    requires i < |t| && j < |t|
    ensures multiset(t[i := t[j]][j := t[i]]) == multiset(t)
  {
    if i != j {
      assert multiset(t[i := t[j]]) == multiset(t) - multiset{t[i]} + multiset{t[j]};
    }
  }

  lemma SwapKeepsBijection(t: Table, i: nat, j: nat)
    requires i < |t| && j < |t|
    ensures IsBijection(t) ==> IsBijection(t[i := t[j]][j := t[i]])
  {
    var r := t[i := t[j]][j := t[i]];
    forall v | 0 <= v < BlockBits && IsBijection(t)
      ensures v in r
    {
      assert v in t;
      var k :| 0 <= k < |t| && t[k] == v;
      if k == i {
        assert r[j] == v;
      } else if k == j {
        assert r[i] == v;
      } else {
        assert r[k] == v;
      }
    }
  }

  /** A descending swap-based shuffle over positions `i` down to 1: position
      `k` is exchanged with position `draw(k) % (k + 1)`. Since `draw` is
      arbitrary, the choice at each step is any position in `0..k`, and so
      every permutation of `t` is reachable; the properties proved for every
      draw therefore cover whatever table `std::shuffle` produces, although
      the library walks the positions in its own order and reduces its draws
      in its own way. */
  function Shuffle(t: Table, draw: nat -> nat, i: nat): (r: Table)
    requires i < |t|
    ensures |r| == |t| && multiset(r) == multiset(t)
    ensures IsBijection(t) ==> IsBijection(r)
    decreases i
  {
    if i == 0 then t
    else Shuffle(Swap(t, i, draw(i) % (i + 1)), draw, i - 1)
  }

  /** The random engine seeded from `seed_seq{seed, blockIndex}` together
      with the shuffle that consumes it, reduced to one choice per step:
      `Engine(seed, blockIndex, k)` decides the swap partner at step `k`. The
      real values are implementation-defined. */
  type Engine = (int, int, nat) -> nat

  /** `generatePermutation(roundKey, blockIndex)`: shuffles the identity table
      with the engine seeded from the two arguments. Being a function of its
      arguments it is deterministic, and whatever the engine draws the result
      is a bijection of 0..127. */
  function GeneratePermutation(seed: int, blockIndex: int, engine: Engine): (perm: Table)
    ensures IsBijection(perm)
  {
    Shuffle(Identity(), k => engine(seed, blockIndex, k), BlockBits - 1)
  }

  /** The seed of round `r`: `0xDEADBEEF ^ r` in 32-bit unsigned arithmetic.
      Rounds 0..9 only touch the low nibble `0xF`, whose bits are all set, so
      the XOR subtracts `r`: every round gets a different seed. */
  function RoundSeed(r: nat): (seed: int)
    requires r < Rounds
    ensures seed == 0xDEADBEEF - r
  {
    ((0xDEADBEEF as bv32) ^ (r as bv32)) as int
  }

  /** `for (i = 0; i < n; i++) invPerm[perm[i]] = i;` over the first `n`
      entries, starting from the table contents `init`. A position that some
      `p[i]` with `i < n` names holds the last such `i`; every other position
      still holds its initial value. */
  function InvertLoop(p: Table, init: seq<int>, n: nat): (inv: seq<int>)
    requires InRange(p) && |init| == BlockBits && n <= BlockBits
    ensures |inv| == BlockBits
    ensures forall j :: 0 <= j < BlockBits && j in p[..n] ==> 0 <= inv[j] < n && p[inv[j]] == j
    ensures forall j :: 0 <= j < BlockBits && j !in p[..n] ==> inv[j] == init[j]
    ensures Injective(p) ==> forall i :: 0 <= i < n ==> inv[p[i]] == i
  {
    if n == 0 then init
    else
      assert p[..n] == p[..n - 1] + [p[n - 1]];
      InvertLoop(p, init, n - 1)[p[n - 1] := n - 1]
  }

  /** The contents `invPerm` has before the loop. The C++ array is left
      uninitialised; `InverseIgnoresInitialContents` shows the choice does not
      matter for a bijection. */
  function Uninitialised(): (init: seq<int>)
    ensures |init| == BlockBits
  {
    seq(BlockBits, _ => 0)
  }

  /** The `invPerm` table built at the start of each decryption round. For a
      bijection it is the inverse bijection: `invPerm[perm[i]] == i` and
      `perm[invPerm[j]] == j` for all positions. */
  function InvertPermutation(p: Table, init: seq<int>): (inv: Table)
    requires InRange(p) && |init| == BlockBits
    ensures |inv| == BlockBits
    ensures IsBijection(p) ==> IsBijection(inv)
    ensures IsBijection(p) ==> forall i :: 0 <= i < BlockBits ==> inv[p[i]] == i
    ensures IsBijection(p) ==> forall j :: 0 <= j < BlockBits ==> p[inv[j]] == j
  {
    var inv := InvertLoop(p, init, BlockBits);
    assert p[..BlockBits] == p;
    assert IsBijection(p) ==> IsBijection(inv) by {
      if IsBijection(p) {
        forall v | 0 <= v < BlockBits
          ensures v in inv
        {
          assert inv[p[v]] == v;
        }
      }
    }
    inv
  }

  /** Whatever `invPerm` held before the loop, a bijection yields the same
      inverse table. */
  lemma InverseIgnoresInitialContents(p: Table, init1: seq<int>, init2: seq<int>)
    requires IsBijection(p) && |init1| == BlockBits && |init2| == BlockBits
    ensures InvertPermutation(p, init1) == InvertPermutation(p, init2)
  {
    var inv1 := InvertPermutation(p, init1);
    var inv2 := InvertPermutation(p, init2);
    forall j | 0 <= j < BlockBits
      ensures inv1[j] == inv2[j]
    {
      assert p[inv1[j]] == j == p[inv2[j]];
    }
  }

  /** Inverting the inverse table gives back the original bijection. */
  lemma InverseOfInverse(p: Table, init: seq<int>)
    requires IsBijection(p) && |init| == BlockBits
    ensures InvertPermutation(InvertPermutation(p, init), init) == p
  {
    var inv := InvertPermutation(p, init);
    var back := InvertPermutation(inv, init);
    forall j | 0 <= j < BlockBits
      ensures back[j] == p[j]
    {
      assert inv[back[j]] == j == inv[p[j]];
    }
  }
}
