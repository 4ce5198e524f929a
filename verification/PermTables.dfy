/**
 * The constant bit permutations of kalay/perm_tables.go. Each table sends source bit i to
 * entry i; the tables are written here as their maximal runs of consecutive destinations.
 */
module PermTables {

  /** fwdPermBits, the 128-bit block permutation of the send direction. */
  function ForwardBit(i: nat): (j: nat)
    requires i < 128
  {
    if i < 1 then i + 112 else if i < 9 then i + 76 else
    if i < 12 then i + 84 else if i < 17 then i + 52 else
    if i < 25 then i + 68 else if i < 32 then i + 80 else
    if i < 37 then i + 68 else if i < 44 then i + 84 else
    if i < 45 then i + 52 else if i < 53 then i + 24 else
    if i < 61 then i + 60 else if i < 64 then i + 36 else
    if i < 65 then i - 24 else if i < 68 then i - 36 else
    if i < 73 then i - 68 else if i < 81 then i - 60 else
    if i < 89 then i - 76 else if i < 96 then i - 56 else
    if i < 101 then i - 44 else if i < 109 then i - 80 else
    if i < 117 then i - 68 else if i < 124 then i - 60 else
    if i < 125 then i - 92 else
    i - 76
  }

  /** revPermBits, the block permutation of the receive direction. */
  function ReverseBit(i: nat): (j: nat)
    requires i < 128
  {
    if i < 5 then i + 68 else if i < 13 then i + 76 else
    if i < 21 then i + 60 else if i < 29 then i + 80 else
    if i < 32 then i + 36 else if i < 33 then i + 92 else
    if i < 40 then i + 56 else if i < 41 then i + 24 else
    if i < 49 then i + 68 else if i < 52 then i + 76 else
    if i < 57 then i + 44 else if i < 64 then i + 60 else
    if i < 69 then i - 52 else if i < 77 then i - 24 else
    if i < 85 then i - 76 else if i < 93 then i - 68 else
    if i < 96 then i - 84 else if i < 97 then i - 52 else
    if i < 100 then i - 36 else if i < 105 then i - 68 else
    if i < 112 then i - 80 else if i < 113 then i - 112 else
    if i < 121 then i - 60 else
    i - 84
  }

  /** The remainder table of length 8: whole bytes change places. */
  function RemainderBit8(i: nat): (j: nat)
    requires i < 64
  {
    if i < 8 then i + 56 else if i < 16 then i + 24 else
    if i < 24 then i + 8 else if i < 32 then i - 8 else
    if i < 40 then i - 24 else if i < 48 then i + 8 else
    if i < 56 then i - 8 else
    i - 56
  }

  function FwdBlock(): (perm: seq<nat>)
    ensures |perm| == 128
  {
    seq(128, i requires 0 <= i < 128 => ForwardBit(i))
  }

  function RevBlock(): (perm: seq<nat>)
    ensures |perm| == 128
  {
    seq(128, i requires 0 <= i < 128 => ReverseBit(i))
  }

  /** fwdRemBits and revRemBits, which are equal: lengths 2, 4 and 8 move bytes, the others nothing. */
  function Remainder(r: nat): (perm: seq<nat>)
    ensures |perm| == 8 * r
  {
    if r == 2 then seq(16, i => (i + 8) % 16)
    else if r == 4 then seq(32, i => (i + 16) % 32)
    else if r == 8 then seq(64, i requires 0 <= i < 64 => RemainderBit8(i))
    else seq(8 * r, i => i)
  }

  /** back undoes perm on the bits 0..n. */
  ghost predicate Inverse(perm: seq<nat>, back: seq<nat>, n: nat)
  {
    && |perm| == |back| == n
    && (forall i | 0 <= i < n :: perm[i] < n && back[perm[i]] == i)
  }

  lemma ForwardThenReverse()
    ensures Inverse(FwdBlock(), RevBlock(), 128)
  {
  }

  lemma ReverseThenForward()
    ensures Inverse(RevBlock(), FwdBlock(), 128)
  {
  }

  lemma RemainderEntry(r: nat, i: nat)
    requires i < 8 * r
    ensures Remainder(r)[i] < 8 * r && Remainder(r)[Remainder(r)[i]] == i
  {
    if r == 2 {
      assert (i + 8) % 16 == if i < 8 then i + 8 else i - 8;
    } else if r == 4 {
      assert (i + 16) % 32 == if i < 16 then i + 16 else i - 16;
    } else if r == 8 {
      var j := RemainderBit8(i);
      assert j < 64 && RemainderBit8(j) == i;
    }
  }

  lemma RemainderInvolution(r: nat)
    ensures Inverse(Remainder(r), Remainder(r), 8 * r)
  {
    forall i | 0 <= i < 8 * r ensures Remainder(r)[i] < 8 * r && Remainder(r)[Remainder(r)[i]] == i {
      RemainderEntry(r, i);
    }
  }

  lemma RemainderInRange(r: nat)
    ensures forall i | 0 <= i < 8 * r :: Remainder(r)[i] < 8 * r
  {
    RemainderInvolution(r);
  }
}
