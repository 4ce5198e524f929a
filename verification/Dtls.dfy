/** DTLS 1.2 records: framing and AEAD nonces (kalay/dtls.go). */
module Dtls {
  import opened Bits
  import opened Bytes
  import opened Framing

  type u16 = x: int | 0 <= x < 0x1_0000

  const HDR_LEN := 13
  const SEQ_LIMIT := 0x1_0000_0000_0000    // 2^48

  datatype Record = Record(ct: byte, epoch: u16, seqNo: u64, body: seq<byte>)

  // --- record framing, section 4.1 of RFC 6347 --------------------------------------------

  /** DTLSRecordRaw: only the low 48 bits of the number and the low 16 of the length are kept. */
  function Encode(r: Record): (s: seq<byte>)
  {
    [r.ct, 0xfe, 0xfd] + BeBytes(r.epoch, 2) + BeBytes(r.seqNo, 6) + BeBytes(|r.body|, 2) + r.body
  }

  predicate Encodable(r: Record) {
    r.seqNo < SEQ_LIMIT && |r.body| < 0x1_0000
  }

  function Field16(s: seq<byte>): (v: u16)
    requires |s| == 2
  {
    BeValueBound(s);
    RangeValues();
    BeValue(s)
  }

  function Field48(s: seq<byte>): (v: u64)
    requires |s| == 6
    ensures v < SEQ_LIMIT
  {
    BeValueBound(s);
    RangeValues();
    BeValue(s)
  }

  function Scan(s: seq<byte>): (r: Step<Record>)
  {
    if |s| < HDR_LEN then Stop else
    var l := Field16(s[11..13]);
    if |s| < HDR_LEN + l then Stop else
    Emit(Record(s[0], Field16(s[3..5]), Field48(s[5..11]), s[HDR_LEN..HDR_LEN + l]), HDR_LEN + l)
  }

  lemma ScanSettled(a: seq<byte>, b: seq<byte>)
    ensures Settled(Scan, a, b)
  {
    if Scan(a).Take? {
      assert (a + b)[3..5] == a[3..5] && (a + b)[5..11] == a[5..11] && (a + b)[11..13] == a[11..13];
      var n := Scan(a).len;
      assert (a + b)[HDR_LEN..n] == a[HDR_LEN..n];
    }
  }

  lemma EncodedFields(r: Record, rest: seq<byte>)
    ensures var s := Encode(r) + rest;
            && s[0] == r.ct && s[3..5] == BeBytes(r.epoch, 2) && s[5..11] == BeBytes(r.seqNo, 6)
            && s[11..13] == BeBytes(|r.body|, 2) && s[HDR_LEN..HDR_LEN + |r.body|] == r.body
  {
  }

  /** The record byte by byte: type, version fe fd, then epoch, number and length high byte first. */
  lemma {:induction false} RecordBytes(r: Record)
    ensures var s := Encode(r);
            && |s| == 13 + |r.body| && s[0] == r.ct && s[1] == 0xfe && s[2] == 0xfd
            && s[3] == r.epoch / 256 && s[4] == r.epoch % 256
            && (forall k: nat | k < 6 :: s[10 - k] == r.seqNo / Range(k) % 256)
            && s[11] == |r.body| / 256 % 256 && s[12] == |r.body| % 256 && s[13..] == r.body
  {
    var s := Encode(r);
    BeByteAtEach(r.epoch, 2);
    forall k: nat | k < 6 ensures BeBytes(r.seqNo, 6)[5 - k] == r.seqNo / Range(k) % 256 {
      BeByteAt(r.seqNo, 6, 5 - k);
    }
    BeByteAtEach(|r.body|, 2);
    assert s == [r.ct, 0xfe, 0xfd] + (BeBytes(r.epoch, 2) + (BeBytes(r.seqNo, 6) + (BeBytes(|r.body|, 2) + r.body)));
    TwoBytes(r.epoch);
    TwoBytes(|r.body|);
  }

  lemma {:induction false} TwoBytes(v: nat)
    ensures BeBytes(v, 2)[0] == v / 256 % 256 && BeBytes(v, 2)[1] == v % 256
  {
    BeByteAtEach(v, 2);
    assert BeBytes(v, 2)[0] == v / Range(1) % 256 && BeBytes(v, 2)[1] == v / Range(0) % 256;
  }

  predicate StartsRecord(s: seq<byte>) {
    |s| >= 13 && |s| >= 13 + Be16(s, 11)
  }

  /** Exactly what is parsed off the front of any bytes, field by field. */
  lemma {:induction false} RecordFields(s: seq<byte>)
    ensures Split(Scan, s).msgs != [] <==> StartsRecord(s)
    ensures StartsRecord(s) ==>
              var r, n := Split(Scan, s).msgs[0], 13 + Be16(s, 11);
              && r.ct == s[0] && r.epoch == Be16(s, 3) && r.seqNo == Be48(s, 5) && r.body == s[13..n]
              && Split(Scan, s).msgs[1..] == Split(Scan, s[n..]).msgs
  {
    if |s| >= HDR_LEN {
      BeValueOfTwo(s[11..13]);
      BeValueOfTwo(s[3..5]);
      BeValueOfSix(s[5..11]);
    }
  }

  lemma ScanEncoded(r: Record, rest: seq<byte>)
    requires Encodable(r)
    ensures ReadsBack(Scan, Encode, r, rest)
  {
    EncodedFields(r, rest);
    RangeValues();
    BeRoundTrip(r.epoch, 2);
    BeRoundTrip(r.seqNo, 6);
    BeRoundTrip(|r.body|, 2);
  }

  lemma IsCodec()
    ensures Codec(Scan, Encode, Encodable)
  {
    forall a: seq<byte>, b: seq<byte> ensures Settled(Scan, a, b) {
      ScanSettled(a, b);
    }
    forall r: Record, rest: seq<byte> | Encodable(r) ensures ReadsBack(Scan, Encode, r, rest) {
      ScanEncoded(r, rest);
    }
  }

  /** Concatenated records come back exactly, if and only if every number and length fits its field. */
  lemma {:induction false} RecordsRoundTripIff(rs: seq<Record>)
    ensures Split(Scan, EncodeAll(Encode, rs)).msgs == rs <==> forall r :: r in rs ==> Encodable(r)
  {
    IsCodec();
    RoundTripIff(Scan, Encode, Encodable, rs);
  }

  lemma {:induction false} TruncationYieldsPrefix(rs: seq<Record>, k: nat)
    requires forall r :: r in rs ==> Encodable(r)
    requires k <= |EncodeAll(Encode, rs)|
    ensures Split(Scan, EncodeAll(Encode, rs)[..k]).msgs <= rs
  {
    IsCodec();
    SplitPrefix(Scan, EncodeAll(Encode, rs), k);
    SplitEncoded(Scan, Encode, Encodable, rs);
  }

  lemma {:induction false} ReencodingReparses(s: seq<byte>)
    ensures var rs := Split(Scan, s).msgs; Split(Scan, EncodeAll(Encode, rs)).msgs == rs
  {
    IsCodec();
    Reparse(Scan, Encode, Encodable, s);
  }

  method ParseDTLSRecords(datagram: seq<byte>) returns (out: seq<Record>)
    ensures out == Split(Scan, datagram).msgs
  {
    out := [];
    var b := datagram;
    while |b| >= HDR_LEN
      invariant Split(Scan, datagram).msgs == out + Split(Scan, b).msgs
      decreases |b|
    {
      var l := Field16(b[11..13]);
      if HDR_LEN + l > |b| {
        break;
      }
      var r := Record(b[0], Field16(b[3..5]), Field48(b[5..11]), b[HDR_LEN..HDR_LEN + l]);
      SplitFront(b, r, HDR_LEN + l);
      AppendAssoc(out, [r], Split(Scan, b[HDR_LEN + l..]).msgs);
      out := out + [r];
      b := b[HDR_LEN + l..];
    }
  }

  lemma {:induction false} SplitFront(b: seq<byte>, r: Record, n: nat)
    requires 0 < n <= |b| && Scan(b) == Emit(r, n)
    ensures Split(Scan, b).msgs == [r] + Split(Scan, b[n..]).msgs
  {
  }

  // --- the AEAD nonce, section 2 of RFC 7905 -----------------------------------------------

  function Or16(a: u16, b: u16): (c: u16)
  {
    Pow2Values();
    Or(a, b, 16)
  }

  /** epoch<<48 | seq: the epoch is or-ed into the top 16 bits of the record number. */
  function RecordNumber(epoch: u16, seqNo: u64): (sn: u64)
  {
    Or16(epoch, seqNo / SEQ_LIMIT) * SEQ_LIMIT + seqNo % SEQ_LIMIT
  }

  /** copy(n, iv) into twelve zero bytes: a longer IV is cut, a shorter one padded. */
  function Copied(iv: seq<byte>): (n: seq<byte>)
    ensures |n| == 12
    ensures |iv| == 12 ==> n == iv
  {
    seq(12, k requires 0 <= k < 12 => if k < |iv| then iv[k] else 0)
  }

  /** The write IV with the record number xor-ed into its last eight bytes. */
  function Nonce(iv: seq<byte>, epoch: u16, seqNo: u64): (n: seq<byte>)
    ensures |n| == 12
  {
    var base, sn := Copied(iv), BeBytes(RecordNumber(epoch, seqNo), 8);
    seq(12, k requires 0 <= k < 12 => if k < 4 then base[k] else Xor(base[k], sn[k - 4]))
  }

  /** What is left of a number once its low bytes are shifted out spells the bytes in front of them. */
  ghost predicate Spells(v: nat, bytes: seq<byte>, n: nat) {
    n <= |bytes| && BeBytes(v, n) == bytes[..n]
  }

  lemma ShiftedByte(v: nat, bytes: seq<byte>, n: nat)
    requires n > 0 && Spells(v, bytes, n)
    ensures bytes[n - 1] == v % 256 && Spells(v / 256, bytes, n - 1)
  {
    assert bytes[..n][..n - 1] == bytes[..n - 1] && bytes[..n][n - 1] == bytes[n - 1];
  }

  /** Bit k of epoch<<48 | seq. */
  lemma {:induction false} RecordNumberBit(epoch: u16, seqNo: u64, k: nat)
    requires k < 64
    ensures Bit(RecordNumber(epoch, seqNo), k) <==> Bit(seqNo, k) || (k >= 48 && Bit(epoch, k - 48))
  {
    var high, low := Or16(epoch, seqNo / SEQ_LIMIT), seqNo % SEQ_LIMIT;
    var sn := RecordNumber(epoch, seqNo);
    RangeIsPow2(6);
    RangeValues();
    DivUnique(sn, SEQ_LIMIT, high, low);
    if k < 48 {
      BitLow(sn, 48, k);
      BitLow(seqNo, 48, k);
    } else {
      BitShift(sn, 48, k - 48, high);
      BitShift(seqNo, 48, k - 48, seqNo / SEQ_LIMIT);
      Pow2Values();
      OrBit(epoch, seqNo / SEQ_LIMIT, 16, k - 48);
    }
  }

  /**
   * The nonce bit by bit: four IV bytes as they are, then eight whose bits are the IV's, turned
   * over where epoch<<48 | seq has a bit, its high byte first.
   */
  ghost predicate NonceBitIs(nonce: byte, iv: byte, epoch: u16, seqNo: u64, i: nat, b: nat)
    requires i < 12 && b < 8
  {
    if i < 4 then nonce == iv else
    var k := 8 * (11 - i) + b;
    Bit(nonce, b) <==> Bit(iv, b) != (Bit(seqNo, k) || (k >= 48 && Bit(epoch, k - 48)))
  }

  /** Byte i of the IV as copied into twelve bytes. */
  function IvByte(iv: seq<byte>, i: nat): (b: byte)
  {
    if i < |iv| then iv[i] else 0
  }

  lemma {:induction false} NonceBit(iv: seq<byte>, epoch: u16, seqNo: u64, i: nat, b: nat)
    requires i < 12 && b < 8
    ensures NonceBitIs(Nonce(iv, epoch, seqNo)[i], IvByte(iv, i), epoch, seqNo, i, b)
  {
    if i >= 4 {
      var sn := RecordNumber(epoch, seqNo);
      XorBits(IvByte(iv, i), BeBytes(sn, 8)[i - 4]);
      BeByteAt(sn, 8, i - 4);
      BitOfByte(sn, 11 - i, b);
      RecordNumberBit(epoch, seqNo, 8 * (11 - i) + b);
    }
  }

  method AEADNonce(iv: seq<byte>, epoch: u16, seqNo: u64) returns (nonce: seq<byte>)
    ensures nonce == Nonce(iv, epoch, seqNo) && |nonce| == 12
    ensures forall i: nat, b: nat | i < 12 && b < 8 :: NonceBitIs(nonce[i], IvByte(iv, i), epoch, seqNo, i, b)
  {
    forall i: nat, b: nat | i < 12 && b < 8
      ensures NonceBitIs(Nonce(iv, epoch, seqNo)[i], IvByte(iv, i), epoch, seqNo, i, b) {
      NonceBit(iv, epoch, seqNo, i, b);
    }
    var n: array<byte> := new byte[12](k requires 0 <= k < 12 => if k < |iv| then iv[k] else 0);
    XorNumber(n, RecordNumber(epoch, seqNo));
    nonce := n[..];
  }

  /** Xors the eight bytes of sn into n[4..], from the last one back, shifting sn down. */
  method XorNumber(n: array<byte>, sn: u64)
    requires n.Length == 12
    modifies n
    ensures forall k | 0 <= k < 4 :: n[k] == old(n[k])
    ensures forall k | 4 <= k < 12 :: n[k] == Xor(old(n[k]), BeBytes(sn, 8)[k - 4])
  {
    var i, shifted := 0, sn;
    ghost var bytes := BeBytes(sn, 8);
    while i < 8
      invariant 0 <= i <= 8 && shifted >= 0
      invariant Spells(shifted, bytes, 8 - i)
      invariant forall k | 0 <= k < 12 - i :: n[k] == old(n[k])
      invariant forall k | 12 - i <= k < 12 :: n[k] == Xor(old(n[k]), bytes[k - 4])
    {
      ShiftedByte(shifted, bytes, 8 - i);
      n[11 - i] := Xor(n[11 - i], shifted % 256);
      shifted := shifted / 256;
      i := i + 1;
    }
  }

  lemma NonceEqualIff(iv: seq<byte>, e1: u16, s1: u64, e2: u16, s2: u64)
    ensures Nonce(iv, e1, s1) == Nonce(iv, e2, s2) <==> RecordNumber(e1, s1) == RecordNumber(e2, s2)
  {
    var n1, n2 := RecordNumber(e1, s1), RecordNumber(e2, s2);
    if Nonce(iv, e1, s1) == Nonce(iv, e2, s2) {
      var b1, b2 := BeBytes(n1, 8), BeBytes(n2, 8);
      forall k | 0 <= k < 8 ensures b1[k] == b2[k] {
        assert Nonce(iv, e1, s1)[k + 4] == Nonce(iv, e2, s2)[k + 4];
        XorInjective(Copied(iv)[k + 4], b1[k], b2[k]);
      }
      assert b1 == b2;
      RangeValues();
      BeRoundTrip(n1, 8);
      BeRoundTrip(n2, 8);
    }
  }

  lemma OrOne(h: u16)
    ensures Or16(1, h) == if h % 2 == 1 then h else h + 1
  {
    Pow2Values();
    OrZero(h / 2, 15);
  }

  /** In epoch 1, two record numbers share a nonce exactly when they agree outside bit 48. */
  lemma EpochOneNonceEqualIff(iv: seq<byte>, s1: u64, s2: u64)
    ensures Nonce(iv, 1, s1) == Nonce(iv, 1, s2)
       <==> s1 % SEQ_LIMIT == s2 % SEQ_LIMIT && s1 / SEQ_LIMIT / 2 == s2 / SEQ_LIMIT / 2
  {
    NonceEqualIff(iv, 1, s1, 1, s2);
    OrOne(s1 / SEQ_LIMIT);
    OrOne(s2 / SEQ_LIMIT);
  }
}
