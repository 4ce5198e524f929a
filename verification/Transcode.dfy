/** IOTC packet obfuscation: a bit permutation per 16-byte block and per remainder length (kalay/transcode.go). */
module Transcode {
  import opened Bits
  import opened Bytes
  import opened PermTables

  const BLOCK := 16

  // --- permuting the bits of a buffer --------------------------------------------------------

  predicate BitAt(s: seq<byte>, i: nat)
    requires i < 8 * |s|
  {
    Bit(s[i / 8], i % 8)
  }

  /** Some set bit of src among the first n is sent to j. */
  predicate Lands(src: seq<byte>, perm: seq<nat>, n: nat, j: nat)
    requires n <= 8 * |src| && n <= |perm|
  {
    exists i | 0 <= i < n :: perm[i] == j && BitAt(src, i)
  }

  /** The eight bits of byte k of the permuted buffer. */
  function LandedBits(src: seq<byte>, perm: seq<nat>, k: nat): (bits: seq<bool>)
    requires |perm| == 8 * |src|
    ensures |bits| == 8
  {
    seq(8, b requires 0 <= b < 8 => Lands(src, perm, |perm|, 8 * k + b))
  }

  function ApplyBits(src: seq<byte>, perm: seq<nat>): (dst: seq<byte>)
    requires |perm| == 8 * |src|
    ensures |dst| == |src|
  {
    seq(|src|, k requires 0 <= k < |src| => PackByte(LandedBits(src, perm, k)))
  }

  lemma AppliedBit(src: seq<byte>, perm: seq<nat>, j: nat)
    requires |perm| == 8 * |src| && j < 8 * |src|
    ensures BitAt(ApplyBits(src, perm), j) <==> Lands(src, perm, |perm|, j)
  {
    PackedBit(LandedBits(src, perm, j / 8), j % 8);
    assert 8 * (j / 8) + j % 8 == j;
  }

  lemma SameBitsSameBytes(a: seq<byte>, b: seq<byte>)
    requires |a| == |b| && forall j: nat :: j < 8 * |a| ==> BitAt(a, j) == BitAt(b, j)
    ensures a == b
  {
    forall k | 0 <= k < |a| ensures a[k] == b[k] {
      forall c: nat | c < 8 ensures Bit(a[k], c) == Bit(b[k], c) {
        assert BitAt(a, 8 * k + c) == BitAt(b, 8 * k + c);
      }
      ByteRange();
      SameBitsSameValue(a[k], b[k], 8);
    }
  }

  /** Under an invertible permutation, bit j comes from the one place back names. */
  lemma AppliedBitSource(src: seq<byte>, perm: seq<nat>, back: seq<nat>, j: nat)
    requires Inverse(perm, back, 8 * |src|) && Inverse(back, perm, 8 * |src|) && j < 8 * |src|
    ensures BitAt(ApplyBits(src, perm), j) == BitAt(src, back[j])
  {
    AppliedBit(src, perm, j);
    assert perm[back[j]] == j;
  }

  lemma ApplyInverse(src: seq<byte>, perm: seq<nat>, back: seq<nat>)
    requires Inverse(perm, back, 8 * |src|) && Inverse(back, perm, 8 * |src|)
    ensures ApplyBits(ApplyBits(src, perm), back) == src
  {
    var mid := ApplyBits(src, perm);
    forall j: nat | j < 8 * |src| ensures BitAt(ApplyBits(mid, back), j) == BitAt(src, j) {
      AppliedBitSource(mid, back, perm, j);
      AppliedBitSource(src, perm, back, perm[j]);
    }
    SameBitsSameBytes(ApplyBits(mid, back), src);
  }

  /** The first n source bits have been sent to their places, and nothing else is set. */
  ghost predicate Landed(dst: seq<byte>, src: seq<byte>, perm: seq<nat>, n: nat) {
    && |dst| == |src| && |perm| == 8 * |src| && n <= |perm|
    && (forall j: nat | j < 8 * |dst| :: BitAt(dst, j) <==> Lands(src, perm, n, j))
  }

  lemma LandedNone(dst: seq<byte>, src: seq<byte>, perm: seq<nat>)
    requires |dst| == |src| && |perm| == 8 * |src| && forall k | 0 <= k < |dst| :: dst[k] == 0
    ensures Landed(dst, src, perm, 0)
  {
    forall j: nat | j < 8 * |dst| ensures !BitAt(dst, j) {
      ZeroHasNoBits(j % 8);
    }
  }

  /** One turn of the bit loop. */
  lemma LandedNext(dst: seq<byte>, src: seq<byte>, perm: seq<nat>, n: nat)
    requires Landed(dst, src, perm, n) && n < |perm| && perm[n] < |perm|
    ensures Landed(if BitAt(src, n) then WithBit(dst, perm[n]) else dst, src, perm, n + 1)
  {
    var dst' := if BitAt(src, n) then WithBit(dst, perm[n]) else dst;
    forall j: nat | j < 8 * |dst'| ensures BitAt(dst', j) <==> Lands(src, perm, n + 1, j) {
      LandsNext(src, perm, n, j);
      WithBitSets(dst, perm[n], j);
    }
  }

  lemma LandedAll(dst: seq<byte>, src: seq<byte>, perm: seq<nat>)
    requires Landed(dst, src, perm, |perm|)
    ensures dst == ApplyBits(src, perm)
  {
    forall j: nat | j < 8 * |dst| ensures BitAt(dst, j) == BitAt(ApplyBits(src, perm), j) {
      AppliedBit(src, perm, j);
    }
    SameBitsSameBytes(dst, ApplyBits(src, perm));
  }

  /** Only the n bytes of dst at at differ from before. */
  ghost predicate SameOutside(dst: seq<byte>, before: seq<byte>, at: nat, n: nat) {
    && |dst| == |before| && at + n <= |dst|
    && (forall c | 0 <= c < |dst| && !(at <= c < at + n) :: dst[c] == before[c])
  }

  /** applyBits on the part of dst at at: clear it, then set the destination of each set bit. */
  method ApplyBitsInto(dst: array<byte>, at: nat, src: seq<byte>, perm: seq<nat>)
    requires at + |src| <= dst.Length && |perm| == 8 * |src|
    requires forall i | 0 <= i < |perm| :: perm[i] < |perm|
    modifies dst
    ensures dst[at..at + |src|] == ApplyBits(src, perm)
    ensures dst[..at] == old(dst[..at]) && dst[at + |src|..] == old(dst[at + |src|..])
  {
    Clear(dst, at, |src|);
    LandedNone(dst[at..at + |src|], src, perm);
    var i := 0;
    while i < 8 * |src|
      invariant 0 <= i <= 8 * |src|
      invariant Landed(dst[at..at + |src|], src, perm, i)
      invariant SameOutside(dst[..], old(dst[..]), at, |src|)
    {
      LandBit(dst, at, src, perm, i);
      i := i + 1;
    }
    LandedAll(dst[at..at + |src|], src, perm);
  }

  /** One turn of the bit loop. */
  method LandBit(dst: array<byte>, at: nat, src: seq<byte>, perm: seq<nat>, i: nat)
    requires at + |src| <= dst.Length && Landed(dst[at..at + |src|], src, perm, i) && i < |perm| && perm[i] < |perm|
    modifies dst
    ensures Landed(dst[at..at + |src|], src, perm, i + 1)
    ensures SameOutside(dst[..], old(dst[..]), at, |src|)
  {
    LandedNext(dst[at..at + |src|], src, perm, i);
    if BitAt(src, i) {
      SetBitIn(dst, at, |src|, perm[i]);
    }
  }

  method Clear(dst: array<byte>, at: nat, n: nat)
    requires at + n <= dst.Length
    modifies dst
    ensures forall k | at <= k < at + n :: dst[k] == 0
    ensures SameOutside(dst[..], old(dst[..]), at, n)
  {
    for k := 0 to n
      invariant forall c | at <= c < at + k :: dst[c] == 0
      invariant forall c | 0 <= c < dst.Length && !(at <= c < at + n) :: dst[c] == old(dst[c])
    {
      dst[at + k] := 0;
    }
  }

  /** Sets bit j of the n bytes of dst at at. */
  method SetBitIn(dst: array<byte>, at: nat, n: nat, j: nat)
    requires at + n <= dst.Length && j < 8 * n
    modifies dst
    ensures dst[at..at + n] == WithBit(old(dst[at..at + n]), j)
    ensures SameOutside(dst[..], old(dst[..]), at, n)
  {
    ByteRange();
    SetBitFits(dst[at + j / 8], j % 8, 8);
    dst[at + j / 8] := SetBit(dst[at + j / 8], j % 8);
  }

  function WithBit(s: seq<byte>, j: nat): (r: seq<byte>)
    requires j < 8 * |s|
    ensures |r| == |s|
  {
    ByteRange();
    SetBitFits(s[j / 8], j % 8, 8);
    s[j / 8 := SetBit(s[j / 8], j % 8)]
  }

  lemma WithBitSets(s: seq<byte>, j: nat, k: nat)
    requires j < 8 * |s| && k < 8 * |s|
    ensures BitAt(WithBit(s, j), k) <==> k == j || BitAt(s, k)
  {
    SetBitSets(s[j / 8], j % 8, k % 8);
    assert j / 8 == k / 8 && j % 8 == k % 8 ==> j == k;
  }

  lemma LandsNext(src: seq<byte>, perm: seq<nat>, n: nat, j: nat)
    requires n < 8 * |src| == |perm|
    ensures Lands(src, perm, n + 1, j) <==> Lands(src, perm, n, j) || (perm[n] == j && BitAt(src, n))
  {
    if Lands(src, perm, n + 1, j) {
      var i :| 0 <= i < n + 1 && perm[i] == j && BitAt(src, i);
      if i < n {
        assert Lands(src, perm, n, j);
      }
    }
    if Lands(src, perm, n, j) {
      var i :| 0 <= i < n && perm[i] == j && BitAt(src, i);
      assert 0 <= i < n + 1;
    }
  }

  // --- whole buffers ---------------------------------------------------------------------------

  /** Blocks of 16 bytes under block, then what is left under the table of its length. */
  function Transcoded(data: seq<byte>, block: seq<nat>): (out: seq<byte>)
    requires |block| == 8 * BLOCK
    ensures |out| == |data|
    decreases |data|
  {
    if |data| < BLOCK then Rest(data)
    else ApplyBits(data[..BLOCK], block) + Transcoded(data[BLOCK..], block)
  }

  /** A trailing partial block. */
  function Rest(src: seq<byte>): (out: seq<byte>)
    ensures |out| == |src|
  {
    ApplyBits(src, Remainder(|src|))
  }

  function TransCode(data: seq<byte>): (out: seq<byte>)
    ensures |out| == |data|
  {
    Transcoded(data, FwdBlock())
  }

  function ReverseTransCode(data: seq<byte>): (out: seq<byte>)
    ensures |out| == |data|
  {
    Transcoded(data, RevBlock())
  }

  lemma {:induction false} TranscodedInverse(data: seq<byte>, block: seq<nat>, back: seq<nat>)
    requires Inverse(block, back, 8 * BLOCK) && Inverse(back, block, 8 * BLOCK)
    ensures Transcoded(Transcoded(data, block), back) == data
    decreases |data|
  {
    if |data| < BLOCK {
      RemainderInvolution(|data|);
      ApplyInverse(data, Remainder(|data|), Remainder(|data|));
    } else {
      var head, rest := ApplyBits(data[..BLOCK], block), Transcoded(data[BLOCK..], block);
      ApplyInverse(data[..BLOCK], block, back);
      TranscodedInverse(data[BLOCK..], block, back);
      assert (head + rest)[..BLOCK] == head && (head + rest)[BLOCK..] == rest;
      assert data == data[..BLOCK] + data[BLOCK..];
    }
  }

  /** Block k of the result is block k of the data, permuted. */
  lemma {:induction false} BlockAt(data: seq<byte>, block: seq<nat>, k: nat)
    requires |block| == 128 && 16 * (k + 1) <= |data|
    ensures Transcoded(data, block)[16 * k..16 * k + 16] == ApplyBits(data[16 * k..16 * k + 16], block)
    decreases |data|
  {
    var head, rest := ApplyBits(data[..16], block), Transcoded(data[16..], block);
    if k > 0 {
      BlockAt(data[16..], block, k - 1);
      SliceBehind(head, rest, 16 * (k - 1), 16);
      SliceBehind(data[..16], data[16..], 16 * (k - 1), 16);
      TakeDrop(data, 16);
    } else {
      assert (head + rest)[..16] == head;
    }
  }

  /** What is left behind the blocks is permuted by the table of its length. */
  lemma {:induction false} RestAt(data: seq<byte>, block: seq<nat>, full: nat)
    requires |block| == 128 && full % 16 == 0 && full <= |data| < full + 16
    ensures Transcoded(data, block)[full..] == Rest(data[full..])
  {
    LastPart(data, full, block);
    DropExact(Transcoded(data[..full], block), Rest(data[full..]));
  }

  lemma DropExact<X>(a: seq<X>, b: seq<X>)
    ensures (a + b)[|a|..] == b
  {
  }

  lemma SliceBehind(head: seq<byte>, rest: seq<byte>, i: nat, n: nat)
    requires |head| == 16 && i + n <= |rest|
    ensures (head + rest)[16 + i..16 + i + n] == rest[i..i + n]
  {
  }

  /** Where the bits of a whole block go. */
  lemma {:induction false} BlockBit(data: seq<byte>, block: seq<nat>, back: seq<nat>, k: nat, i: nat)
    requires Inverse(block, back, 128) && Inverse(back, block, 128) && 16 * (k + 1) <= |data| && i < 128
    ensures block[i] < 128
    ensures BitAt(Transcoded(data, block)[16 * k..16 * k + 16], block[i]) == BitAt(data[16 * k..16 * k + 16], i)
  {
    BlockAt(data, block, k);
    AppliedBitSource(data[16 * k..16 * k + 16], block, back, block[i]);
  }

  /** Where the bits of a trailing partial block go. */
  lemma {:induction false} RemainderBit(data: seq<byte>, block: seq<nat>, full: nat, i: nat)
    requires |block| == 128 && full % 16 == 0 && full <= |data| < full + 16 && i < 8 * (|data| - full)
    ensures Remainder(|data| - full)[i] < 8 * (|data| - full)
    ensures BitAt(Transcoded(data, block)[full..], Remainder(|data| - full)[i]) == BitAt(data[full..], i)
  {
    RestAt(data, block, full);
    RestBit(data[full..], i);
  }

  lemma {:induction false} RestBit(part: seq<byte>, i: nat)
    requires i < 8 * |part|
    ensures Remainder(|part|)[i] < 8 * |part| && BitAt(Rest(part), Remainder(|part|)[i]) == BitAt(part, i)
  {
    RemainderInvolution(|part|);
    AppliedBitSource(part, Remainder(|part|), Remainder(|part|), Remainder(|part|)[i]);
  }

  /** Where the bits of a whole block go in the send direction. */
  lemma {:induction false} SentBit(data: seq<byte>, k: nat, i: nat)
    requires 16 * (k + 1) <= |data| && i < 128
    ensures FwdBlock()[i] < 128
    ensures BitAt(TransCode(data)[16 * k..16 * k + 16], FwdBlock()[i]) == BitAt(data[16 * k..16 * k + 16], i)
  {
    ForwardThenReverse();
    ReverseThenForward();
    BlockBit(data, FwdBlock(), RevBlock(), k, i);
  }

  /**
   * The lowest bit of the first byte goes to place 112 of its block in the send direction, the
   * lowest bit of byte 14, and to place 68 in the receive direction, the fifth bit of byte 8.
   */
  lemma {:induction false} FirstBit(data: seq<byte>)
    requires |data| >= 16
    ensures TransCode(data)[14] % 2 == data[0] % 2
    ensures ReverseTransCode(data)[8] / 16 % 2 == data[0] % 2
  {
    ForwardThenReverse();
    ReverseThenForward();
    BlockBit(data, FwdBlock(), RevBlock(), 0, 0);
    BlockBit(data, RevBlock(), FwdBlock(), 0, 0);
    SameBit(TransCode(data), 112, data);
    SameBit(ReverseTransCode(data), 68, data);
    PlaceValues(TransCode(data), ReverseTransCode(data));
  }

  lemma {:induction false} SameBit(out: seq<byte>, j: nat, data: seq<byte>)
    requires |out| >= 16 && |data| >= 16 && j < 128 && BitAt(out[0..16], j) == BitAt(data[0..16], 0)
    ensures BitAt(out, j) <==> data[0] % 2 == 1
  {
  }

  lemma {:induction false} PlaceValues(sent: seq<byte>, received: seq<byte>)
    requires |sent| >= 16 && |received| >= 16
    ensures BitAt(sent, 112) <==> sent[14] % 2 == 1
    ensures BitAt(received, 68) <==> received[8] / 16 % 2 == 1
  {
    FifthBit(received[8]);
  }

  lemma {:induction false} FifthBit(b: nat)
    ensures Bit(b, 4) <==> b / 16 % 2 == 1
  {
    assert Bit(b, 4) == Bit(b / 4, 2) && Bit(b / 4, 2) == Bit(b / 16, 0);
  }

  /** For every length, remainder or not, the two directions undo each other and keep the length. */
  lemma MutualInverses(data: seq<byte>)
    ensures ReverseTransCode(TransCode(data)) == data
    ensures TransCode(ReverseTransCode(data)) == data
  {
    ForwardThenReverse();
    ReverseThenForward();
    TranscodedInverse(data, FwdBlock(), RevBlock());
    TranscodedInverse(data, RevBlock(), FwdBlock());
  }

  /** Whole blocks at the front are transcoded on their own. */
  lemma {:induction false} TranscodedFront(a: seq<byte>, b: seq<byte>, block: seq<nat>)
    requires |block| == 8 * BLOCK && |a| % BLOCK == 0
    ensures Transcoded(a + b, block) == Transcoded(a, block) + Transcoded(b, block)
    decreases |a|
  {
    if a == [] {
      assert a + b == b && Transcoded(a, block) == [];
    } else {
      assert (a + b)[..BLOCK] == a[..BLOCK];
      DropAppend(a, b, BLOCK);
      TranscodedFront(a[BLOCK..], b, block);
      AppendAssoc(ApplyBits(a[..BLOCK], block), Transcoded(a[BLOCK..], block), Transcoded(b, block));
    }
  }

  /** The k bytes done so far are a whole number of blocks, and one more block follows. */
  lemma {:induction false} NextBlock(data: seq<byte>, k: nat, block: seq<nat>)
    requires |block| == 8 * BLOCK && k % BLOCK == 0 && k + BLOCK <= |data|
    ensures Transcoded(data[..k + BLOCK], block) == Transcoded(data[..k], block) + ApplyBits(data[k..k + BLOCK], block)
  {
    var b := data[k..k + BLOCK];
    assert data[..k + BLOCK] == data[..k] + b;
    TranscodedFront(data[..k], b, block);
    assert b[..BLOCK] == b && b[BLOCK..] == [];
    assert Transcoded([], block) == [];
  }

  lemma {:induction false} LastPart(data: seq<byte>, full: nat, block: seq<nat>)
    requires |block| == 8 * BLOCK && full % BLOCK == 0 && full <= |data| < full + BLOCK
    ensures Transcoded(data, block) == Transcoded(data[..full], block) + Rest(data[full..])
  {
    assert data == data[..full] + data[full..];
    TranscodedFront(data[..full], data[full..], block);
  }

  /** The block loop of transcode. */
  method TranscodeBlocks(out: array<byte>, data: seq<byte>, block: seq<nat>, full: nat)
    requires |block| == 8 * BLOCK && forall i | 0 <= i < |block| :: block[i] < |block|
    requires out.Length == |data| && full <= |data| && full % BLOCK == 0
    modifies out
    ensures out[..full] == Transcoded(data[..full], block)
  {
    var k := 0;
    while k < full
      invariant 0 <= k <= full && k % BLOCK == 0
      invariant DoneTo(out[..], data, block, k)
    {
      ghost var before := out[..];
      ApplyBitsInto(out, k, data[k..k + BLOCK], block);
      BlockDone(before, out[..], data, block, k);
      k := k + BLOCK;
    }
  }

  /** The first k bytes are transcoded. */
  ghost predicate DoneTo(out: seq<byte>, data: seq<byte>, block: seq<nat>, k: nat) {
    |block| == 8 * BLOCK && k <= |out| == |data| && out[..k] == Transcoded(data[..k], block)
  }

  lemma BlockDone(before: seq<byte>, out: seq<byte>, data: seq<byte>, block: seq<nat>, k: nat)
    requires DoneTo(before, data, block, k) && k % BLOCK == 0 && k + BLOCK <= |out| == |before|
    requires out[..k] == before[..k] && out[k..k + BLOCK] == ApplyBits(data[k..k + BLOCK], block)
    ensures DoneTo(out, data, block, k + BLOCK)
  {
    NextBlock(data, k, block);
    assert out[..k + BLOCK] == out[..k] + out[k..k + BLOCK];
  }

  /** The trailing partial block, written at the end of out. */
  method TranscodeRest(out: array<byte>, at: nat, src: seq<byte>)
    requires at + |src| == out.Length
    modifies out
    ensures out[..at] == old(out[..at]) && out[at..] == Rest(src)
  {
    if |src| > 0 {
      RemainderInRange(|src|);
      ApplyBitsInto(out, at, src, Remainder(|src|));
      assert out[at..] == out[at..at + |src|];
    } else {
      assert out[at..] == [];
    }
  }

  method TranscodeBuffer(data: seq<byte>, block: seq<nat>) returns (out: array<byte>)
    requires |block| == 8 * BLOCK && forall i | 0 <= i < |block| :: block[i] < |block|
    ensures fresh(out) && out[..] == Transcoded(data, block)
  {
    out := new byte[|data|](_ => 0);
    var full := |data| - |data| % BLOCK;
    TranscodeBlocks(out, data, block, full);
    TranscodeRest(out, full, data[full..]);
    LastPart(data, full, block);
    assert out[..] == out[..full] + out[full..];
  }
}
