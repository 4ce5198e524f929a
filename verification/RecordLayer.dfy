/**
 * The epoch-1 record layer of a tunnel: sendRDT seals each RDT frame under the next record
 * number, readRDT opens and splits a datagram. The AEAD itself is a parameter.
 */
module RecordLayer {
  import opened Bytes
  import opened Framing
  import Rdt
  import opened Dtls

  const U64 := 0x1_0000_0000_0000_0000
  const APP_DATA: byte := 0x17
  const TAG_LEN := 16

  /** Additional authenticated data: record number, type, version and plaintext length. */
  function Aad(epoch: u16, seqNo: u64, ct: byte, ln: int): (a: seq<byte>)
  {
    BeBytes(epoch, 2) + BeBytes(seqNo, 6) + [ct, 0xfe, 0xfd] + BeBytes(ln % 0x1_0000, 2)
  }

  /** The additional data byte by byte. */
  lemma {:induction false} AadBytes(epoch: u16, seqNo: u64, ct: byte, ln: nat)
    ensures var a := Aad(epoch, seqNo, ct, ln);
            && |a| == 13 && a[0] == epoch / 256 && a[1] == epoch % 256
            && (forall k: nat | k < 6 :: a[7 - k] == seqNo / Range(k) % 256)
            && a[8] == ct && a[9] == 0xfe && a[10] == 0xfd && a[11] == ln / 256 % 256 && a[12] == ln % 256
  {
    TwoBytes(epoch);
    LowTwoBytes(ln);
    AadParts(epoch, seqNo, ct, ln);
    var a := Aad(epoch, seqNo, ct, ln);
    forall k: nat | k < 6 ensures a[7 - k] == seqNo / Range(k) % 256 {
      BeByteAt(seqNo, 6, 5 - k);
      assert a[7 - k] == a[2..8][5 - k];
    }
  }

  lemma {:induction false} AadParts(epoch: u16, seqNo: u64, ct: byte, ln: nat)
    ensures var a := Aad(epoch, seqNo, ct, ln);
            var e, s, n := BeBytes(epoch, 2), BeBytes(seqNo, 6), BeBytes(ln % 0x1_0000, 2);
            && |a| == 13 && a[0] == e[0] && a[1] == e[1] && a[2..8] == s
            && a[8] == ct && a[9] == 0xfe && a[10] == 0xfd && a[11] == n[0] && a[12] == n[1]
  {
  }

  lemma {:induction false} LowTwoBytes(v: nat)
    ensures var b := BeBytes(v % 0x1_0000, 2); b[0] == v / 256 % 256 && b[1] == v % 256
  {
    TwoBytes(v % 0x1_0000);
    LowParts(v);
  }

  lemma LowParts(v: nat)
    ensures v % 0x1_0000 / 256 % 256 == v / 256 % 256 && v % 0x1_0000 % 256 == v % 256
  {
    var low := v % 0x1_0000;
    var h, m, l := v / 0x1_0000, low / 256, low % 256;
    LowPart(h, m, l);
    assert low == 256 * m + l && v == 0x1_0000 * h + low;
  }

  lemma LowPart(h: int, m: nat, l: nat)
    requires l < 256
    ensures var v := 0x1_0000 * h + (256 * m + l); v / 256 % 256 == m % 256 && v % 256 == l
  {
    var v := 256 * (256 * h + m) + l;
    assert v / 256 == 256 * h + m;
  }

  type Sealer = (seq<byte>, seq<byte>, seq<byte>) -> seq<byte>
  type Opener = (seq<byte>, seq<byte>, seq<byte>) -> Option<seq<byte>>

  function Sealed(seal: Sealer, iv: seq<byte>, seqNo: u64, p: Rdt.Packet): (r: Record)
  {
    var pt := Rdt.Encode(p);
    Record(APP_DATA, 1, seqNo, seal(Nonce(iv, 1, seqNo), Aad(1, seqNo, APP_DATA, |pt|), pt))
  }

  // --- record numbering --------------------------------------------------------------------

  /** The record number of the k-th epoch-1 record: the Finished message, then application data. */
  function NumberOf(k: nat): (n: u64)
  {
    if k == 0 then 0 else (k + 1) % U64
  }

  lemma NextNumber(k: nat)
    ensures k > 0 ==> (NumberOf(k) + 1) % U64 == NumberOf(k + 1)
    ensures k < SEQ_LIMIT ==> NumberOf(k) == if k == 0 then 0 else k + 1
  {
  }

  /** No two of the first n epoch-1 records are sealed under the same nonce. */
  ghost predicate NoncesDistinct(iv: seq<byte>, n: nat)
  {
    forall i: nat, j: nat | i < j < n :: Nonce(iv, 1, NumberOf(i)) != Nonce(iv, 1, NumberOf(j))
  }

  /**
   * Nonces never repeat, whatever mixture of sends, ACKs, keepalives and retransmissions used
   * them, exactly as long as fewer than 2^48 epoch-1 records were sealed; the next record after
   * that reuses the nonce of the Finished message.
   */
  lemma NoncesDistinctIff(iv: seq<byte>, n: nat)
    ensures NoncesDistinct(iv, n) <==> n < SEQ_LIMIT
  {
    if n < SEQ_LIMIT {
      forall i: nat, j: nat | i < j < n ensures Nonce(iv, 1, NumberOf(i)) != Nonce(iv, 1, NumberOf(j)) {
        SmallNumbersDiffer(iv, i, j);
      }
    } else {
      FinishedNonceReused(iv);
    }
  }

  lemma SmallNumbersDiffer(iv: seq<byte>, i: nat, j: nat)
    requires i < j < SEQ_LIMIT - 1
    ensures Nonce(iv, 1, NumberOf(i)) != Nonce(iv, 1, NumberOf(j))
  {
    NextNumber(i);
    NextNumber(j);
    EpochOneNonceEqualIff(iv, NumberOf(i), NumberOf(j));
  }

  /** Record 2^48 of epoch 1 is sealed under the nonce of the Finished message. */
  lemma FinishedNonceReused(iv: seq<byte>)
    ensures Nonce(iv, 1, NumberOf(0)) == Nonce(iv, 1, NumberOf(SEQ_LIMIT - 1))
  {
    EpochOneNonceEqualIff(iv, NumberOf(0), NumberOf(SEQ_LIMIT - 1));
  }

  /** Numbers are used in order, and next is the one to come. */
  ghost predicate Numbered(numbers: seq<u64>, next: u64) {
    && |numbers| > 0 && next == NumberOf(|numbers|)
    && (forall k | 0 <= k < |numbers| :: numbers[k] == NumberOf(k))
  }

  lemma NumberedNext(numbers: seq<u64>, next: u64)
    requires Numbered(numbers, next)
    ensures Numbered(numbers + [next], (next + 1) % U64)
  {
    NextNumber(|numbers|);
  }

  class Sender {
    const iv: seq<byte>
    const seal: Sealer
    var appSeq: u64                      // number of the next epoch-1 record
    var wire: seq<seq<byte>>             // records handed to the session
    ghost var numbers: seq<u64>          // numbers under which something was sealed in epoch 1

    ghost predicate Valid()
      reads this
    {
      Numbered(numbers, appSeq)
    }

    /** The state after the handshake sealed its Finished message as record 0 of epoch 1. */
    constructor (iv: seq<byte>, seal: Sealer)
      ensures Valid() && this.iv == iv && this.seal == seal && numbers == [0] && wire == []
    {
      this.iv := iv;
      this.seal := seal;
      appSeq := 2;
      wire := [];
      numbers := [0];
    }

    method SendRDT(p: Rdt.Packet)
      requires Valid()
      modifies this
      ensures Valid()
      ensures numbers == old(numbers) + [old(appSeq)]
      ensures wire == old(wire) + [Encode(Sealed(seal, iv, old(appSeq), p))]
    {
      NumberedNext(numbers, appSeq);
      wire := wire + [Encode(Sealed(seal, iv, appSeq, p))];
      numbers := numbers + [appSeq];
      appSeq := (appSeq + 1) % U64;
    }
  }

  // --- through the wire and back -----------------------------------------------------------

  /** The RDT frames of a record body, or nothing if it does not open. */
  function OpenedWith(open: Opener, nonce: seq<byte>, aad: seq<byte>, body: seq<byte>): (ps: seq<Rdt.Packet>)
  {
    match open(nonce, aad, body)
    case None => []
    case Some(pt) => Split(Rdt.Scan, pt).msgs
  }

  /** What one record contributes to readRDT: its RDT frames, or nothing if it is not ours to open. */
  function Opened(open: Opener, iv: seq<byte>, r: Record): (ps: seq<Rdt.Packet>)
  {
    if r.epoch != 1 || r.ct != APP_DATA then [] else
    OpenedWith(open, Nonce(iv, r.epoch, r.seqNo), Aad(r.epoch, r.seqNo, r.ct, |r.body| - TAG_LEN), r.body)
  }

  function OpenedAll(open: Opener, iv: seq<byte>, rs: seq<Record>): (ps: seq<Rdt.Packet>)
  {
    if rs == [] then [] else Opened(open, iv, rs[0]) + OpenedAll(open, iv, rs[1..])
  }

  lemma {:induction false} OpenedAllCons(open: Opener, iv: seq<byte>, r: Record, rest: seq<Record>)
    ensures OpenedAll(open, iv, [r] + rest) == Opened(open, iv, r) + OpenedAll(open, iv, rest)
  {
    assert ([r] + rest)[1..] == rest;
  }

  lemma {:induction false} OpenedAllAppend(open: Opener, iv: seq<byte>, a: seq<Record>, b: seq<Record>)
    ensures OpenedAll(open, iv, a + b) == OpenedAll(open, iv, a) + OpenedAll(open, iv, b)
  {
    if a == [] {
      assert a + b == b;
    } else {
      OpenedAllAppend(open, iv, a[1..], b);
      OpenedOneMore(open, iv, a[0], a[1..], b);
      assert a == [a[0]] + a[1..];
    }
  }

  lemma {:induction false} OpenedOneMore(open: Opener, iv: seq<byte>, r: Record, a: seq<Record>, b: seq<Record>)
    requires OpenedAll(open, iv, a + b) == OpenedAll(open, iv, a) + OpenedAll(open, iv, b)
    ensures OpenedAll(open, iv, ([r] + a) + b) == OpenedAll(open, iv, [r] + a) + OpenedAll(open, iv, b)
  {
    AppendAssoc([r], a, b);
    OpenedAllCons(open, iv, r, a + b);
    OpenedAllCons(open, iv, r, a);
    AppendAssoc(Opened(open, iv, r), OpenedAll(open, iv, a), OpenedAll(open, iv, b));
  }

  /** A record of another epoch or type, or one that does not open, leaves no trace among the others. */
  lemma {:induction false} ForeignIgnored(open: Opener, iv: seq<byte>, a: seq<Record>, r: Record, b: seq<Record>)
    requires Foreign(open, iv, r)
    ensures OpenedAll(open, iv, a + ([r] + b)) == OpenedAll(open, iv, a + b)
  {
    OpenedAllAppend(open, iv, a, [r] + b);
    OpenedAllAppend(open, iv, a, b);
    OpenedAllCons(open, iv, r, b);
    ForeignOpensNothing(open, iv, r);
  }

  ghost predicate Foreign(open: Opener, iv: seq<byte>, r: Record) {
    r.epoch != 1 || r.ct != 0x17 ||
    open(Nonce(iv, 1, r.seqNo), Aad(1, r.seqNo, 0x17, |r.body| - 16), r.body).None?
  }

  lemma {:induction false} ForeignOpensNothing(open: Opener, iv: seq<byte>, r: Record)
    requires Foreign(open, iv, r)
    ensures Opened(open, iv, r) == []
  {
  }

  /** What sendRDT puts on the wire: an epoch-1 application record with the frame sealed under its number. */
  lemma {:induction false} SealedRecord(seal: Sealer, iv: seq<byte>, seqNo: u64, p: Rdt.Packet)
    ensures var r := Sealed(seal, iv, seqNo, p);
            && r.ct == 0x17 && r.epoch == 1 && r.seqNo == seqNo
            && var pt := Rdt.Encode(p); r.body == seal(Nonce(iv, 1, seqNo), Aad(1, seqNo, 0x17, |pt|), pt)
  {
  }

  /** open undoes seal, and sealing adds the tag. */
  ghost predicate Inverts(open: Opener, seal: Sealer) {
    forall n: seq<byte>, a: seq<byte>, pt: seq<byte> :: OpensSealed(open, seal, n, a, pt)
  }

  ghost predicate OpensSealed(open: Opener, seal: Sealer, n: seq<byte>, a: seq<byte>, pt: seq<byte>) {
    open(n, a, seal(n, a, pt)) == Some(pt) && |seal(n, a, pt)| == |pt| + TAG_LEN
  }

  /** The sealed frame still fits a record. */
  predicate Fits(p: Rdt.Packet) {
    Rdt.HDR_LEN + |p.payload| + TAG_LEN < 0x1_0000
  }

  function SealedAll(seal: Sealer, iv: seq<byte>, seqNo: nat, ps: seq<Rdt.Packet>): (rs: seq<Record>)
    requires seqNo + |ps| <= SEQ_LIMIT
  {
    seq(|ps|, k requires 0 <= k < |ps| => Sealed(seal, iv, seqNo + k, ps[k]))
  }

  lemma OpenedSealed(open: Opener, seal: Sealer, iv: seq<byte>, seqNo: u64, p: Rdt.Packet)
    requires Inverts(open, seal) && Fits(p) && seqNo < SEQ_LIMIT
    ensures ReadsOne(open, iv, Sealed(seal, iv, seqNo, p), p)
  {
    var pt := Rdt.Encode(p);
    OpenedWithSealed(open, seal, Nonce(iv, 1, seqNo), Aad(1, seqNo, APP_DATA, |pt|), p);
  }

  lemma OpenedWithSealed(open: Opener, seal: Sealer, nonce: seq<byte>, aad: seq<byte>, p: Rdt.Packet)
    requires Inverts(open, seal) && Fits(p)
    ensures var body := seal(nonce, aad, Rdt.Encode(p));
            OpenedWith(open, nonce, aad, body) == [p] && |body| == |Rdt.Encode(p)| + TAG_LEN < 0x1_0000
  {
    assert OpensSealed(open, seal, nonce, aad, Rdt.Encode(p));
    OnePacket(p);
  }

  lemma OnePacket(p: Rdt.Packet)
    requires Fits(p)
    ensures Split(Rdt.Scan, Rdt.Encode(p)).msgs == [p]
  {
    Rdt.IsCodec();
    assert EncodeAll(Rdt.Encode, [p]) == Rdt.Encode(p) + EncodeAll(Rdt.Encode, []) == Rdt.Encode(p);
    SplitEncoded(Rdt.Scan, Rdt.Encode, Rdt.Encodable, [p]);
  }

  /** The record fits its fields and opens to the one packet. */
  ghost predicate ReadsOne(open: Opener, iv: seq<byte>, r: Record, p: Rdt.Packet) {
    Encodable(r) && Opened(open, iv, r) == [p]
  }

  lemma {:induction false} ReadsInTurn(open: Opener, iv: seq<byte>, rs: seq<Record>, ps: seq<Rdt.Packet>)
    requires |rs| == |ps| && forall k | 0 <= k < |rs| :: ReadsOne(open, iv, rs[k], ps[k])
    ensures OpenedAll(open, iv, rs) == ps && forall r :: r in rs ==> Encodable(r)
  {
    if rs != [] {
      assert ReadsOne(open, iv, rs[0], ps[0]);
      ReadsInTurn(open, iv, rs[1..], ps[1..]);
      assert [ps[0]] + ps[1..] == ps;
    }
  }

  lemma {:induction false} OpenedSealedAll(open: Opener, seal: Sealer, iv: seq<byte>, seqNo: nat, ps: seq<Rdt.Packet>)
    requires Inverts(open, seal) && seqNo + |ps| <= SEQ_LIMIT
    requires forall p :: p in ps ==> Fits(p)
    ensures var rs := SealedAll(seal, iv, seqNo, ps);
            OpenedAll(open, iv, rs) == ps && forall r :: r in rs ==> Encodable(r)
  {
    var rs := SealedAll(seal, iv, seqNo, ps);
    forall k | 0 <= k < |rs| ensures ReadsOne(open, iv, rs[k], ps[k]) {
      OpenedSealed(open, seal, iv, seqNo + k, ps[k]);
    }
    ReadsInTurn(open, iv, rs, ps);
  }

  /** Frames sealed under consecutive numbers and coalesced into one datagram are read back in order. */
  lemma {:induction false} WireRoundTrip(open: Opener, seal: Sealer, iv: seq<byte>, seqNo: nat, ps: seq<Rdt.Packet>)
    requires Inverts(open, seal) && seqNo + |ps| <= SEQ_LIMIT
    requires forall p :: p in ps ==> Fits(p)
    ensures var datagram := EncodeAll(Encode, SealedAll(seal, iv, seqNo, ps));
            OpenedAll(open, iv, Split(Scan, datagram).msgs) == ps
  {
    OpenedSealedAll(open, seal, iv, seqNo, ps);
    RecordsRoundTripIff(SealedAll(seal, iv, seqNo, ps));
  }

  method OpenRecord(open: Opener, iv: seq<byte>, r: Record) returns (ps: seq<Rdt.Packet>)
    ensures ps == Opened(open, iv, r)
  {
    ps := [];
    if r.epoch == 1 && r.ct == APP_DATA {
      var pt := open(Nonce(iv, r.epoch, r.seqNo), Aad(r.epoch, r.seqNo, r.ct, |r.body| - TAG_LEN), r.body);
      if pt.Some? {
        ps := Rdt.ParseRDTStream(pt.value);
      }
    }
  }

  /** The record loop of readRDT over one datagram. */
  method ReadDatagram(open: Opener, iv: seq<byte>, datagram: seq<byte>) returns (out: seq<Rdt.Packet>)
    ensures out == OpenedAll(open, iv, Split(Scan, datagram).msgs)
  {
    out := [];
    var rs := ParseDTLSRecords(datagram);
    var i := 0;
    assert rs[0..] == rs;
    while i < |rs|
      invariant 0 <= i <= |rs|
      invariant OpenedAll(open, iv, rs) == out + OpenedAll(open, iv, rs[i..])
    {
      var ps := OpenRecord(open, iv, rs[i]);
      assert rs[i..][0] == rs[i] && rs[i..][1..] == rs[i + 1..];
      AppendAssoc(out, ps, OpenedAll(open, iv, rs[i + 1..]));
      out := out + ps;
      i := i + 1;
    }
  }
}
