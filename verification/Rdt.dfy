/** RDT frames: the 20-byte header codec of kalay/tunnel.go. */
module Rdt {
  import opened Bytes
  import opened Framing

  const HDR_LEN := 20
  const MAGIC: seq<byte> := [0x5a, 0x97, 0xc2, 0xf1]

  datatype Packet = Packet(typ: byte, seqNo: u64, b16: byte, conn: byte, payload: seq<byte>)

  /** The 20 header bytes; the payload length is kept modulo 2^16. */
  function Header(p: Packet): (h: seq<byte>)
    ensures |h| == HDR_LEN
  {
    MAGIC + [p.typ, 0x05] + LeBytes(|p.payload|, 2) + LeBytes(p.seqNo, 8) + [p.b16, p.conn, 0, 0]
  }

  function Encode(p: Packet): (s: seq<byte>)
  {
    Header(p) + p.payload
  }

  /** The payload length fits its 16-bit field. */
  predicate Encodable(p: Packet) {
    |p.payload| < 0x1_0000
  }

  /** A 64-bit field read from the wire. */
  function Seq64(s: seq<byte>): (v: u64)
    requires |s| == 8
  {
    LeValueBound(s);
    RangeValues();
    LeValue(s)
  }

  function Scan(s: seq<byte>): (r: Step<Packet>)
  {
    if |s| < HDR_LEN || s[..4] != MAGIC then Stop else
    var paylen := LeValue(s[6..8]);
    if |s| < HDR_LEN + paylen then Stop else
    Emit(PacketAt(s, 0, paylen), HDR_LEN + paylen)
  }

  /** The frame whose header starts at off and whose payload has paylen bytes. */
  function PacketAt(s: seq<byte>, off: nat, paylen: nat): (p: Packet)
    requires off + HDR_LEN + paylen <= |s|
  {
    Packet(s[off + 4], Seq64(s[off + 8..off + 16]), s[off + 16], s[off + 17],
           s[off + HDR_LEN..off + HDR_LEN + paylen])
  }

  lemma ScanSettled(a: seq<byte>, b: seq<byte>)
    ensures Settled(Scan, a, b)
  {
    if Scan(a).Take? {
      assert (a + b)[..4] == a[..4] && (a + b)[6..8] == a[6..8] && (a + b)[8..16] == a[8..16];
      var n := Scan(a).len;
      assert (a + b)[HDR_LEN..n] == a[HDR_LEN..n];
    }
  }

  lemma HeaderFields(p: Packet)
    ensures var h := Header(p);
            && h[..4] == MAGIC && h[4] == p.typ && h[6..8] == LeBytes(|p.payload|, 2)
            && h[8..16] == LeBytes(p.seqNo, 8) && h[16] == p.b16 && h[17] == p.conn
  {
  }

  /** The header byte by byte: magic, type, 0x05, length and number low byte first, b16, connection, two zeros. */
  lemma {:induction false} HeaderBytes(p: Packet)
    ensures var h := Header(p);
            && h[0] == 0x5a && h[1] == 0x97 && h[2] == 0xc2 && h[3] == 0xf1 && h[4] == p.typ && h[5] == 0x05
            && h[6] == |p.payload| % 256 && h[7] == |p.payload| / 256 % 256
            && (forall k: nat | k < 8 :: h[8 + k] == p.seqNo / Range(k) % 256)
            && h[16] == p.b16 && h[17] == p.conn && h[18] == 0 && h[19] == 0
  {
    LeByteAtEach(|p.payload|, 2);
    assert LeBytes(|p.payload|, 2)[0] == |p.payload| / Range(0) % 256;
    assert LeBytes(|p.payload|, 2)[1] == |p.payload| / Range(1) % 256;
    LeByteAtEach(p.seqNo, 8);
    assert Header(p)[8..16] == LeBytes(p.seqNo, 8);
  }

  /** The bytes start a whole frame: 20 header bytes, the magic, and as many bytes as the length says. */
  predicate StartsFrame(s: seq<byte>) {
    && |s| >= 20 && s[0] == 0x5a && s[1] == 0x97 && s[2] == 0xc2 && s[3] == 0xf1
    && |s| >= 20 + Le16(s, 6)
  }

  /** Exactly what is parsed off the front of any bytes, field by field. */
  lemma {:induction false} FrameFields(s: seq<byte>)
    ensures Split(Scan, s).msgs != [] <==> StartsFrame(s)
    ensures StartsFrame(s) ==>
              var p, n := Split(Scan, s).msgs[0], 20 + Le16(s, 6);
              && p.typ == s[4] && p.seqNo == Le64(s, 8) && p.b16 == s[16] && p.conn == s[17] && p.payload == s[20..n]
              && Split(Scan, s).msgs[1..] == Split(Scan, s[n..]).msgs
  {
    if |s| >= HDR_LEN {
      assert s[..4] == [s[0], s[1], s[2], s[3]];
      LeValueOfTwo(s[6..8]);
      LeValueOfEight(s[8..16]);
      Le64Slice(s, 8);
    }
  }

  lemma Le64Slice(s: seq<byte>, at: nat)
    requires at + 8 <= |s|
    ensures Le64(s[at..at + 8], 0) == Le64(s, at)
  {
  }

  lemma ScanEncoded(p: Packet, rest: seq<byte>)
    requires Encodable(p)
    ensures ReadsBack(Scan, Encode, p, rest)
  {
    var h, s := Header(p), Encode(p) + rest;
    HeaderFields(p);
    assert s[..4] == h[..4] && s[6..8] == h[6..8] && s[8..16] == h[8..16];
    RangeValues();
    LeRoundTrip(|p.payload|, 2);
    LeRoundTrip(p.seqNo, 8);
    assert s[HDR_LEN..HDR_LEN + |p.payload|] == p.payload;
  }

  lemma EmitsEncodable(a: seq<byte>)
    ensures EmitsGood(Scan, Encodable, a)
  {
    if Scan(a).Take? {
      LeValueBound(a[6..8]);
      RangeValues();
    }
  }

  lemma IsCodec()
    ensures Codec(Scan, Encode, Encodable)
  {
    forall a: seq<byte>, b: seq<byte> ensures Settled(Scan, a, b) {
      ScanSettled(a, b);
    }
    forall p: Packet, rest: seq<byte> | Encodable(p) ensures ReadsBack(Scan, Encode, p, rest) {
      ScanEncoded(p, rest);
    }
    forall a: seq<byte> ensures EmitsGood(Scan, Encodable, a) {
      EmitsEncodable(a);
    }
  }

  /** Coalesced frames come back exactly, if and only if no payload overflows the length field. */
  lemma {:induction false} CoalescedRoundTripIff(ps: seq<Packet>)
    ensures Split(Scan, EncodeAll(Encode, ps)).msgs == ps <==> forall p :: p in ps ==> Encodable(p)
  {
    IsCodec();
    RoundTripIff(Scan, Encode, Encodable, ps);
  }

  /** A truncated run of coalesced frames yields a prefix of them. */
  lemma {:induction false} TruncationYieldsPrefix(ps: seq<Packet>, k: nat)
    requires forall p :: p in ps ==> Encodable(p)
    requires k <= |EncodeAll(Encode, ps)|
    ensures Split(Scan, EncodeAll(Encode, ps)[..k]).msgs <= ps
  {
    IsCodec();
    SplitPrefix(Scan, EncodeAll(Encode, ps), k);
    SplitEncoded(Scan, Encode, Encodable, ps);
  }

  lemma {:induction false} ReencodingReparses(s: seq<byte>)
    ensures var ps := Split(Scan, s).msgs; Split(Scan, EncodeAll(Encode, ps)).msgs == ps
  {
    IsCodec();
    Reparse(Scan, Encode, Encodable, s);
  }

  lemma HeaderSpelled(h: seq<byte>, p: Packet)
    requires |h| == HDR_LEN && h[0] == 0x5a && h[1] == 0x97 && h[2] == 0xc2 && h[3] == 0xf1
    requires h[4] == p.typ && h[5] == 0x05 && h[16] == p.b16 && h[17] == p.conn && h[18] == h[19] == 0
    requires forall k | 0 <= k < 2 :: h[6 + k] == LeBytes(|p.payload|, 2)[k]
    requires forall k | 0 <= k < 8 :: h[8 + k] == LeBytes(p.seqNo, 8)[k]
    ensures h == Header(p)
  {
    assert h[..4] == MAGIC;
    assert h[6..8] == LeBytes(|p.payload|, 2);
    assert h[8..16] == LeBytes(p.seqNo, 8);
    assert h == h[..4] + [h[4], h[5]] + h[6..8] + h[8..16] + [h[16], h[17], h[18], h[19]];
  }

  /** The header is filled field by field in a zeroed buffer, then followed by the payload. */
  method AppendRDT(dst: seq<byte>, p: Packet) returns (out: seq<byte>)
    ensures out == dst + Encode(p)
    ensures var n := |dst|;
            && |out| == n + 20 + |p.payload| && out[..n] == dst && out[n + 20..] == p.payload
            && out[n] == 0x5a && out[n + 1] == 0x97 && out[n + 2] == 0xc2 && out[n + 3] == 0xf1
            && out[n + 4] == p.typ && out[n + 5] == 0x05
            && out[n + 6] == |p.payload| % 256 && out[n + 7] == |p.payload| / 256 % 256
            && (forall k: nat | k < 8 :: out[n + 8 + k] == p.seqNo / Range(k) % 256)
            && out[n + 16] == p.b16 && out[n + 17] == p.conn && out[n + 18] == 0 && out[n + 19] == 0
  {
    HeaderBytes(p);
    var h: array<byte> := new byte[HDR_LEN](_ => 0);
    FillHeader(h, p);
    out := dst + h[..] + p.payload;
  }

  method FillHeader(h: array<byte>, p: Packet)
    requires h.Length == HDR_LEN && forall k | 0 <= k < HDR_LEN :: h[k] == 0
    modifies h
    ensures h[..] == Header(p)
  {
    h[0], h[1], h[2], h[3] := 0x5a, 0x97, 0xc2, 0xf1;
    h[4], h[5] := p.typ, 0x05;
    PutLe(h, 6, |p.payload|, 2);
    PutLe(h, 8, p.seqNo, 8);
    h[16], h[17] := p.b16, p.conn;
    HeaderSpelled(h[..], p);
  }

  /** Writes the n low bytes of v at h[at..at + n], least significant first. */
  method PutLe(h: array<byte>, at: nat, v: nat, n: nat)
    requires at + n <= h.Length
    modifies h
    ensures forall k | 0 <= k < n :: h[at + k] == LeBytes(v, n)[k]
    ensures forall k | 0 <= k < h.Length && !(at <= k < at + n) :: h[k] == old(h[k])
  {
    var i, rest := 0, v;
    while i < n
      invariant 0 <= i <= n && rest >= 0
      invariant LeBytes(v, n) == h[at..at + i] + LeBytes(rest, n - i)
      invariant forall k | 0 <= k < h.Length && !(at <= k < at + n) :: h[k] == old(h[k])
    {
      ghost var done := h[at..at + i];
      h[at + i] := rest % 256;
      assert h[at..at + i + 1] == done + [rest % 256];
      rest := rest / 256;
      i := i + 1;
    }
    assert LeBytes(v, n) == h[at..at + n];
  }

  lemma ScanAt(pt: seq<byte>, off: nat)
    requires off + HDR_LEN <= |pt|
    ensures var paylen := LeValue(pt[off + 6..off + 8]);
            Scan(pt[off..]) ==
            if pt[off..off + 4] != MAGIC || |pt| < off + HDR_LEN + paylen then Stop else
            Emit(PacketAt(pt, off, paylen), HDR_LEN + paylen)
  {
    var s := pt[off..];
    assert s[..4] == pt[off..off + 4] && s[6..8] == pt[off + 6..off + 8] && s[8..16] == pt[off + 8..off + 16];
    var paylen := LeValue(s[6..8]);
    if HDR_LEN + paylen <= |s| {
      assert s[HDR_LEN..HDR_LEN + paylen] == pt[off + HDR_LEN..off + HDR_LEN + paylen];
    }
  }

  /** The frame at offset off, or Stop where the loop breaks off: too short, bad magic, truncated. */
  method NextFrame(ghost scan: seq<byte> -> Step<Packet>, pt: seq<byte>, off: nat) returns (step: Step<Packet>)
    requires off <= |pt| && StandsFor(scan, Scan)
    ensures Reads(scan, pt, off, step)
  {
    StandsForAt(scan, Scan, pt[off..]);
    if off + HDR_LEN > |pt| {
      return Stop;
    }
    ScanAt(pt, off);
    if pt[off..off + 4] != MAGIC {
      return Stop;
    }
    var paylen := LeValue(pt[off + 6..off + 8]);
    if off + HDR_LEN + paylen > |pt| {
      return Stop;
    }
    return Emit(PacketAt(pt, off, paylen), HDR_LEN + paylen);
  }

  method ParseRDTStream(pt: seq<byte>) returns (out: seq<Packet>)
    ensures out == Split(Scan, pt).msgs
    ensures out != [] <==> StartsFrame(pt)
    ensures StartsFrame(pt) ==>
              var p, n := out[0], 20 + Le16(pt, 6);
              && p.typ == pt[4] && p.seqNo == Le64(pt, 8) && p.b16 == pt[16] && p.conn == pt[17]
              && p.payload == pt[20..n] && out[1..] == Split(Scan, pt[n..]).msgs
  {
    var off;
    FrameFields(pt);
    out, off := ParseFrom(Scan, pt, 0);
    assert pt[0..] == pt;
  }

  /** The loop of ParseRDTStream, from offset from to the offset where it breaks off. */
  method ParseFrom(ghost scan: seq<byte> -> Step<Packet>, pt: seq<byte>, from: nat) returns (out: seq<Packet>, off: nat)
    requires from <= |pt| && StandsFor(scan, Scan)
    ensures Ends(scan, pt, from, off, out)
  {
    out, off := [], from;
    ResumeStart(scan, pt, from);
    while true
      invariant from <= off <= |pt| && Resumes(scan, pt, from, off, out)
      decreases |pt| - off
    {
      var step := NextFrame(scan, pt, off);
      ResumeTurn(scan, pt, from, off, out, step);
      if step.Stop? {
        return;
      }
      out := out + step.out;
      off := off + step.len;
    }
  }
}
