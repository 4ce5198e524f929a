/** IOTC payload encoding: a repeating mask under the bit permutation (kalay/control.go). */
module Control {
  import opened Bits
  import opened Bytes
  import opened Transcode
  import PermTables

  const MASK: seq<byte> := [
    0x86, 0xd0, 0xc2, 0xe4, 0x84, 0x2d, 0xad, 0x0c,
    0xe8, 0xd2, 0xe6, 0x40, 0x84, 0x0c, 0xad, 0x0c]
  const DATA_LIMIT := 64

  function Masked(b: seq<byte>): (out: seq<byte>)
    ensures |out| == |b|
  {
    seq(|b|, i requires 0 <= i < |b| => Xor(b[i], MASK[i % 16]))
  }

  lemma MaskedTwice(b: seq<byte>)
    ensures Masked(Masked(b)) == b
  {
    forall i | 0 <= i < |b| ensures Masked(Masked(b))[i] == b[i] {
      XorTwice(b[i], MASK[i % 16]);
    }
  }

  /** Masking turns over just the bits the mask has set, the mask repeating every sixteen bytes. */
  lemma {:induction false} MaskedBits(b: seq<byte>)
    ensures forall i, k: nat | 0 <= i < |b| && k < 8 ::
              Bit(Masked(b)[i], k) <==> Bit(b[i], k) != Bit(MASK[i % 16], k)
  {
    forall i | 0 <= i < |b|
      ensures forall k: nat | k < 8 :: Bit(Masked(b)[i], k) <==> Bit(b[i], k) != Bit(MASK[i % 16], k) {
      XorBits(b[i], MASK[i % 16]);
    }
  }

  method XorMask(b: seq<byte>) returns (out: seq<byte>)
    ensures out == Masked(b)
    ensures |out| == |b|
    ensures forall i, k: nat | 0 <= i < |b| && k < 8 :: Bit(out[i], k) <==> Bit(b[i], k) != Bit(MASK[i % 16], k)
  {
    MaskedBits(b);
    var buf: array<byte> := new byte[|b|](_ => 0);
    for i := 0 to |b|
      invariant forall k | 0 <= k < i :: buf[k] == Xor(b[k], MASK[k % 16])
    {
      buf[i] := Xor(b[i], MASK[i % 16]);
    }
    out := buf[..];
  }

  function DecodePayload(wire: seq<byte>): (clear: seq<byte>)
    ensures |clear| == |wire|
  {
    Masked(ReverseTransCode(wire))
  }

  function EncodePayload(clear: seq<byte>): (wire: seq<byte>)
    ensures |wire| == |clear|
  {
    TransCode(Masked(clear))
  }

  /** Data packets obfuscate only their first 64 bytes. */
  function DecodePayloadData(wire: seq<byte>): (clear: seq<byte>)
  {
    if |wire| <= DATA_LIMIT then DecodePayload(wire)
    else DecodePayload(wire[..DATA_LIMIT]) + wire[DATA_LIMIT..]
  }

  function EncodePayloadData(clear: seq<byte>): (wire: seq<byte>)
  {
    if |clear| <= DATA_LIMIT then EncodePayload(clear)
    else EncodePayload(clear[..DATA_LIMIT]) + clear[DATA_LIMIT..]
  }

  lemma {:induction false} MaskedSlice(b: seq<byte>, at: nat, n: nat)
    requires at % 16 == 0 && at + n <= |b|
    ensures Masked(b)[at..at + n] == Masked(b[at..at + n])
  {
    var part := Masked(b[at..at + n]);
    forall i | 0 <= i < n ensures part[i] == Masked(b)[at + i] {
      MaskedAlike(b, at, n, i);
    }
    assert Masked(b)[at..at + n] == part;
  }

  lemma {:induction false} MaskedAlike(b: seq<byte>, at: nat, n: nat, i: nat)
    requires at % 16 == 0 && at + n <= |b| && i < n
    ensures Masked(b[at..at + n])[i] == Masked(b)[at + i]
  {
    SameMaskIndex(at, at + i);
    var r := i % 16;
    MaskedByte(b[at..at + n], i, r);
    MaskedByte(b, at + i, r);
  }

  lemma {:induction false} MaskedByte(b: seq<byte>, i: nat, r: nat)
    requires i < |b| && r == i % 16
    ensures Masked(b)[i] == Xor(b[i], MASK[r])
  {
  }

  /** Bit i of out, sent to place j, is bit i of b turned over where the mask has a bit. */
  ghost predicate Turned(out: seq<byte>, j: nat, b: seq<byte>, mask: seq<byte>, i: nat)
    requires j < 8 * |out| && i < 8 * |b| && i < 8 * |mask|
  {
    Transcode.BitAt(out, j) <==> Transcode.BitAt(b, i) != Transcode.BitAt(mask, i)
  }

  lemma {:induction false} MaskedBit(b: seq<byte>, i: nat)
    requires |b| <= |MASK| && i < 8 * |b|
    ensures Turned(Masked(b), i, b, MASK, i)
  {
    MaskedLow(b);
    XoredBit(Masked(b), b, MASK, i);
  }

  lemma {:induction false} MaskedLow(b: seq<byte>)
    requires |b| <= |MASK|
    ensures forall q | 0 <= q < |b| :: Masked(b)[q] == Xor(b[q], MASK[q])
  {
    forall q | 0 <= q < |b| ensures Masked(b)[q] == Xor(b[q], MASK[q]) {
      MaskIndex(q);
    }
  }

  lemma MaskIndex(q: nat)
    requires q < 16
    ensures q % 16 == q
  {
  }

  lemma {:induction false} XoredBit(out: seq<byte>, b: seq<byte>, mask: seq<byte>, i: nat)
    requires |out| == |b| <= |mask| && i < 8 * |b| && forall q | 0 <= q < |b| :: out[q] == Xor(b[q], mask[q])
    ensures Turned(out, i, b, mask, i)
  {
    var q, k := i / 8, i % 8;
    assert out[q] == Xor(b[q], mask[q]);
    XorBit(b[q], mask[q], k);
  }

  /** A bit that is moved after it was turned over. */
  lemma {:induction false} MovedBit(out: seq<byte>, j: nat, mid: seq<byte>, b: seq<byte>, i: nat)
    requires j < 8 * |out| && i < 8 * |mid| && mid == Masked(b) && |b| <= |MASK|
    requires Transcode.BitAt(out, j) == Transcode.BitAt(mid, i)
    ensures Turned(out, j, b, MASK, i)
  {
    MaskedBit(b, i);
  }

  /**
   * Encoding masks first and moves bits then: bit i of a block of the payload, turned over where
   * the mask has a bit, ends up where the send table says.
   */
  lemma {:induction false} EncodedBit(clear: seq<byte>, k: nat, i: nat)
    requires 16 * (k + 1) <= |clear| && i < 128
    ensures PermTables.FwdBlock()[i] < 128
    ensures Turned(EncodePayload(clear)[16 * k..16 * k + 16], PermTables.FwdBlock()[i],
                   clear[16 * k..16 * k + 16], MASK, i)
  {
    var masked := Masked(clear);
    SentBit(masked, k, i);
    WholeBlocks(k);
    SliceMoved(TransCode(masked), masked, PermTables.FwdBlock()[i], clear, 16 * k, i);
  }

  lemma WholeBlocks(k: nat)
    ensures 16 * k % 16 == 0
  {
  }

  lemma {:induction false} SliceMoved(
      out: seq<byte>, masked: seq<byte>, j: nat, clear: seq<byte>, at: nat, i: nat)
    requires at % 16 == 0 && at + 16 <= |out| == |clear| && i < 128 && j < 128 && masked == Masked(clear)
    requires Transcode.BitAt(out[at..at + 16], j) == Transcode.BitAt(masked[at..at + 16], i)
    ensures Turned(out[at..at + 16], j, clear[at..at + 16], MASK, i)
  {
    MaskedSlice(clear, at, 16);
    MovedBit(out[at..at + 16], j, masked[at..at + 16], clear[at..at + 16], i);
  }

  /** The same for a trailing partial block. */
  lemma {:induction false} EncodedRestBit(clear: seq<byte>, full: nat, i: nat)
    requires full % 16 == 0 && full <= |clear| < full + 16 && i < 8 * (|clear| - full)
    ensures PermTables.Remainder(|clear| - full)[i] < 8 * (|clear| - full)
    ensures Turned(EncodePayload(clear)[full..], PermTables.Remainder(|clear| - full)[i], clear[full..], MASK, i)
  {
    RemainderBit(Masked(clear), PermTables.FwdBlock(), full, i);
    MaskedTail(clear, full);
    MovedBit(EncodePayload(clear)[full..], PermTables.Remainder(|clear| - full)[i],
             Masked(clear)[full..], clear[full..], i);
  }

  lemma {:induction false} MaskedTail(b: seq<byte>, at: nat)
    requires at % 16 == 0 && at <= |b|
    ensures Masked(b)[at..] == Masked(b[at..])
  {
    var part := Masked(b[at..]);
    forall i | 0 <= i < |part| ensures part[i] == Masked(b)[at + i] {
      SameMaskIndex(at, at + i);
    }
  }

  /** Data packets carry what is past their first 64 bytes as it is. */
  lemma {:induction false} DataTailVerbatim(clear: seq<byte>)
    requires |clear| > 64
    ensures EncodePayloadData(clear)[64..] == clear[64..] && DecodePayloadData(clear)[64..] == clear[64..]
  {
  }

  lemma PayloadRoundTrip(b: seq<byte>)
    ensures DecodePayload(EncodePayload(b)) == b
    ensures EncodePayload(DecodePayload(b)) == b
  {
    MutualInverses(Masked(b));
    MutualInverses(b);
    MaskedTwice(b);
    MaskedTwice(ReverseTransCode(b));
  }

  lemma PayloadDataRoundTrip(b: seq<byte>)
    ensures |EncodePayloadData(b)| == |b| && DecodePayloadData(EncodePayloadData(b)) == b
    ensures |DecodePayloadData(b)| == |b| && EncodePayloadData(DecodePayloadData(b)) == b
  {
    if |b| <= DATA_LIMIT {
      PayloadRoundTrip(b);
    } else {
      var head, tail := b[..DATA_LIMIT], b[DATA_LIMIT..];
      PayloadRoundTrip(head);
      var e, d := EncodePayload(head) + tail, DecodePayload(head) + tail;
      assert e[..DATA_LIMIT] == EncodePayload(head) && e[DATA_LIMIT..] == tail;
      assert d[..DATA_LIMIT] == DecodePayload(head) && d[DATA_LIMIT..] == tail;
      assert b == head + tail;
    }
  }

  lemma SameMaskIndex(n: nat, i: nat)
    requires n % 16 == 0 && n <= i
    ensures i % 16 == (i - n) % 16
  {
  }

  lemma {:induction false} MaskedFront(a: seq<byte>, b: seq<byte>)
    requires |a| % 16 == 0
    ensures Masked(a + b) == Masked(a) + Masked(b)
  {
    forall i | 0 <= i < |a| + |b| ensures Masked(a + b)[i] == (Masked(a) + Masked(b))[i] {
      MaskedPart(a, b, i);
    }
  }

  lemma {:induction false} MaskedPart(a: seq<byte>, b: seq<byte>, i: nat)
    requires |a| % 16 == 0 && i < |a| + |b|
    ensures Masked(a + b)[i] == if i < |a| then Masked(a)[i] else Masked(b)[i - |a|]
  {
    var r := i % 16;
    MaskedByte(a + b, i, r);
    if i < |a| {
      MaskedByte(a, i, r);
    } else {
      SameMaskIndex(|a|, i);
      MaskedByte(b, i - |a|, r);
    }
  }

  /** Control and data encodings of a packet longer than 64 bytes agree on its first 64 bytes. */
  lemma EncodingsAgreeOnFront(clear: seq<byte>)
    requires |clear| > DATA_LIMIT
    ensures EncodePayload(clear)[..DATA_LIMIT] == EncodePayloadData(clear)[..DATA_LIMIT]
  {
    var head, tail := clear[..DATA_LIMIT], clear[DATA_LIMIT..];
    assert clear == head + tail;
    MaskedFront(head, tail);
    TranscodedFront(Masked(head), Masked(tail), PermTables.FwdBlock());
  }
}
