/**
 * The network of TwoParty in bytes: every packet an end sends is framed, sealed under the next
 * record number and put into a datagram of its own; the network delivers any of these datagrams
 * at any time, any number of times and in any order; and the other end parses, opens and splits
 * what arrives. This is the same network as one that carries the frames and ACKs themselves.
 */
module SealedNetwork {
  import opened Bytes
  import opened Framing
  import Rdt
  import D = Dtls
  import L = RecordLayer
  import R = Reassembler
  import G = GoBackN
  import T = TwoParty

  const DATA: byte := 0x02
  const ACK: byte := 0x46

  /** The datagrams of one end, which sealed its packets under consecutive record numbers. */
  function Datagrams(seal: L.Sealer, iv: seq<byte>, start: nat, ps: seq<Rdt.Packet>): (ds: seq<seq<byte>>)
    requires start + |ps| <= D.SEQ_LIMIT
  {
    seq(|ps|, k requires 0 <= k < |ps| => D.Encode(L.Sealed(seal, iv, start + k, ps[k])))
  }

  /** What readRDT returns for the datagrams, in the order they arrive. */
  function Received(open: L.Opener, iv: seq<byte>, ds: seq<seq<byte>>): (ps: seq<Rdt.Packet>)
  {
    if ds == [] then [] else L.OpenedAll(open, iv, Split(D.Scan, ds[0]).msgs) + Received(open, iv, ds[1..])
  }

  predicate Within(ks: seq<nat>, n: nat) {
    forall i | 0 <= i < |ks| :: ks[i] < n
  }

  /** The items at the positions ks, in that order, repeated and left out as ks says. */
  function Pick<X>(xs: seq<X>, ks: seq<nat>): (ys: seq<X>)
    requires Within(ks, |xs|)
  {
    if ks == [] then [] else [xs[ks[0]]] + Pick(xs, ks[1..])
  }

  /** The datagram is read as the one packet. */
  ghost predicate Holds(open: L.Opener, iv: seq<byte>, d: seq<byte>, p: Rdt.Packet) {
    L.OpenedAll(open, iv, Split(D.Scan, d).msgs) == [p]
  }

  lemma {:induction false} OneDatagram(
      open: L.Opener, seal: L.Sealer, iv: seq<byte>, seqNo: u64, p: Rdt.Packet)
    requires L.Inverts(open, seal) && L.Fits(p) && seqNo < D.SEQ_LIMIT
    ensures Holds(open, iv, D.Encode(L.Sealed(seal, iv, seqNo, p)), p)
  {
    var r := L.Sealed(seal, iv, seqNo, p);
    L.OpenedSealed(open, seal, iv, seqNo, p);
    OneRecord(r);
    L.ReadsInTurn(open, iv, [r], [p]);
  }

  lemma OneRecord(r: D.Record)
    requires D.Encodable(r)
    ensures Split(D.Scan, D.Encode(r)).msgs == [r]
  {
    EncodeAllSnoc(D.Encode, [], r);
    assert [] + [r] == [r] && EncodeAll(D.Encode, []) + D.Encode(r) == D.Encode(r);
    D.RecordsRoundTripIff([r]);
  }

  /** However the datagrams are lost, repeated and reordered, what is read is the packets sent in them. */
  lemma {:induction false} ReadsWhatWasSent(
      open: L.Opener, seal: L.Sealer, iv: seq<byte>, start: nat, ps: seq<Rdt.Packet>, ks: seq<nat>)
    requires L.Inverts(open, seal) && start + |ps| <= D.SEQ_LIMIT
    requires (forall p | p in ps :: L.Fits(p)) && Within(ks, |ps|)
    ensures Received(open, iv, Pick(Datagrams(seal, iv, start, ps), ks)) == Pick(ps, ks)
  {
    forall k | 0 <= k < |ps| ensures Holds(open, iv, Datagrams(seal, iv, start, ps)[k], ps[k]) {
      DatagramAt(open, seal, iv, start, ps, k);
    }
    ReadsPicked(open, iv, Datagrams(seal, iv, start, ps), ps, ks);
  }

  lemma {:induction false} DatagramAt(
      open: L.Opener, seal: L.Sealer, iv: seq<byte>, start: nat, ps: seq<Rdt.Packet>, k: nat)
    requires L.Inverts(open, seal) && start + |ps| <= D.SEQ_LIMIT && k < |ps| && L.Fits(ps[k])
    ensures Holds(open, iv, Datagrams(seal, iv, start, ps)[k], ps[k])
  {
    OneDatagram(open, seal, iv, start + k, ps[k]);
  }

  lemma {:induction false} ReadsPicked(
      open: L.Opener, iv: seq<byte>, ds: seq<seq<byte>>, ps: seq<Rdt.Packet>, ks: seq<nat>)
    requires |ds| == |ps| && (forall k | 0 <= k < |ps| :: Holds(open, iv, ds[k], ps[k])) && Within(ks, |ps|)
    ensures Received(open, iv, Pick(ds, ks)) == Pick(ps, ks)
  {
    if ks != [] {
      assert Holds(open, iv, ds[ks[0]], ps[ks[0]]);
      ReadsPicked(open, iv, ds, ps, ks[1..]);
      assert Pick(ds, ks)[0] == ds[ks[0]] && Pick(ds, ks)[1..] == Pick(ds, ks[1..]);
    }
  }

  // --- as deliveries of TwoParty ------------------------------------------------------------------

  /** The frames pump adds to the reassembler, and the ACKs it hands to the sender. */
  function Frames(ps: seq<Rdt.Packet>): (b: seq<R.Packet>)
  {
    if ps == [] then [] else
    (if ps[0].typ == DATA then [R.Packet(ps[0].seqNo, ps[0].payload)] else []) + Frames(ps[1..])
  }

  function Acks(ps: seq<Rdt.Packet>): (acks: seq<nat>)
  {
    if ps == [] then [] else (if ps[0].typ == ACK then [ps[0].seqNo] else []) + Acks(ps[1..])
  }

  /** The data packets are the sender's transmissions, with any other packets in between. */
  ghost predicate LogsFrames(ps: seq<Rdt.Packet>, wire: seq<G.Sent>) {
    && (forall p | p in ps && p.typ == DATA :: T.OnWire(wire, R.Packet(p.seqNo, p.payload)))
    && (forall k | 0 <= k < |wire| :: Logged(ps, wire[k]))
  }

  ghost predicate Logged(ps: seq<Rdt.Packet>, x: G.Sent) {
    exists i | 0 <= i < |ps| :: ps[i].typ == DATA && ps[i].seqNo == x.seqNo && ps[i].payload == x.frame.payload
  }

  /** What sendRDT is given for a reliable frame. */
  function FramePacket(x: G.Sent): (p: Rdt.Packet)
    requires x.seqNo < L.U64
  {
    Rdt.Packet(x.frame.typ, x.seqNo, x.frame.b16, x.frame.conn, x.frame.payload)
  }

  /** The transmissions themselves, and others with anything but data in between, are such packets. */
  lemma SentLogs(ps: seq<Rdt.Packet>, wire: seq<G.Sent>)
    requires forall k | 0 <= k < |wire| :: wire[k].frame.typ == DATA && wire[k].seqNo < L.U64
    requires forall k | 0 <= k < |wire| :: FramePacket(wire[k]) in ps
    requires forall p | p in ps && p.typ == DATA :: exists k | 0 <= k < |wire| :: p == FramePacket(wire[k])
    ensures LogsFrames(ps, wire)
  {
    forall k | 0 <= k < |wire| ensures Logged(ps, wire[k]) {
      var i :| 0 <= i < |ps| && ps[i] == FramePacket(wire[k]);
    }
    forall p | p in ps && p.typ == DATA ensures T.OnWire(wire, R.Packet(p.seqNo, p.payload)) {
      var k :| 0 <= k < |wire| && p == FramePacket(wire[k]);
    }
  }

  /** The ACK packets are the receiver's ACKs, with any other packets in between. */
  ghost predicate LogsAcks(ps: seq<Rdt.Packet>, acks: seq<nat>) {
    && (forall p | p in ps && p.typ == ACK :: p.seqNo in acks)
    && (forall a | a in acks :: exists i | 0 <= i < |ps| :: ps[i].typ == ACK && ps[i].seqNo == a)
  }

  lemma {:induction false} PickFrames(ps: seq<Rdt.Packet>, ks: seq<nat>, wire: seq<G.Sent>)
    requires Within(ks, |ps|) && LogsFrames(ps, wire)
    ensures forall p | p in Frames(Pick(ps, ks)) :: T.OnWire(wire, p)
  {
    if ks != [] {
      PickFrames(ps, ks[1..], wire);
      assert ps[ks[0]] in ps;
      assert Pick(ps, ks)[1..] == Pick(ps, ks[1..]);
    }
  }

  /** Every batch of transmitted frames is some choice of the packets. */
  lemma {:induction false} ChooseFrames(ps: seq<Rdt.Packet>, wire: seq<G.Sent>, b: seq<R.Packet>) returns (ks: seq<nat>)
    requires LogsFrames(ps, wire) && forall p | p in b :: T.OnWire(wire, p)
    ensures Within(ks, |ps|) && Frames(Pick(ps, ks)) == b
  {
    if b == [] {
      ks := [];
    } else {
      var rest := ChooseFrames(ps, wire, b[1..]);
      var k := ChooseFrame(ps, wire, b[0]);
      ks := [k] + rest;
      assert ks[1..] == rest && Pick(ps, ks)[0] == ps[k] && Pick(ps, ks)[1..] == Pick(ps, rest);
      assert [b[0]] + b[1..] == b;
    }
  }

  lemma ChooseFrame(ps: seq<Rdt.Packet>, wire: seq<G.Sent>, p: R.Packet) returns (i: nat)
    requires LogsFrames(ps, wire) && T.OnWire(wire, p)
    ensures i < |ps| && ps[i].typ == DATA && ps[i].seqNo == p.seqNo && ps[i].payload == p.payload
  {
    var k :| 0 <= k < |wire| && wire[k].seqNo == p.seqNo && wire[k].frame.payload == p.payload;
    assert Logged(ps, wire[k]);
    i :| 0 <= i < |ps| && ps[i].typ == DATA && ps[i].seqNo == wire[k].seqNo && ps[i].payload == wire[k].frame.payload;
  }

  /** Delivering the datagrams at ks hands the batch b to the reassembler. */
  ghost predicate HandsOver(
      open: L.Opener, seal: L.Sealer, iv: seq<byte>, start: nat, ps: seq<Rdt.Packet>, ks: seq<nat>, b: seq<R.Packet>)
    requires start + |ps| <= D.SEQ_LIMIT
  {
    Within(ks, |ps|) && Frames(Received(open, iv, Pick(Datagrams(seal, iv, start, ps), ks))) == b
  }

  /**
   * A batch of frames can be delivered in TwoParty if and only if it is what the pump reads off
   * some of the sender's datagrams, lost, repeated and reordered in whatever way.
   */
  lemma {:induction false} BatchesAreDatagramsIff(
      y: T.Sys, open: L.Opener, seal: L.Sealer, iv: seq<byte>, start: nat, ps: seq<Rdt.Packet>, b: seq<R.Packet>)
    requires L.Inverts(open, seal) && start + |ps| <= D.SEQ_LIMIT && forall p | p in ps :: L.Fits(p)
    requires LogsFrames(ps, y.snd.wire)
    ensures T.Enabled(y, T.DeliverFrames(b)) <==> exists ks: seq<nat> :: HandsOver(open, seal, iv, start, ps, ks, b)
  {
    if T.Enabled(y, T.DeliverFrames(b)) {
      var ks := ChooseFrames(ps, y.snd.wire, b);
      ReadsWhatWasSent(open, seal, iv, start, ps, ks);
      assert HandsOver(open, seal, iv, start, ps, ks, b);
    }
    if ks: seq<nat> :| HandsOver(open, seal, iv, start, ps, ks, b) {
      ReadsWhatWasSent(open, seal, iv, start, ps, ks);
      PickFrames(ps, ks, y.snd.wire);
    }
  }

  /** Delivering the one datagram at k hands the ACK a to the sender. */
  ghost predicate HandsAck(
      open: L.Opener, seal: L.Sealer, iv: seq<byte>, start: nat, ps: seq<Rdt.Packet>, k: nat, a: nat)
    requires start + |ps| <= D.SEQ_LIMIT
  {
    k < |ps| && Acks(Received(open, iv, Pick(Datagrams(seal, iv, start, ps), [k]))) == [a]
  }

  /** The same for the ACKs of the receiver. */
  lemma {:induction false} AcksAreDatagramsIff(
      y: T.Sys, open: L.Opener, seal: L.Sealer, iv: seq<byte>, start: nat, ps: seq<Rdt.Packet>, a: nat, now: int)
    requires L.Inverts(open, seal) && start + |ps| <= D.SEQ_LIMIT && forall p | p in ps :: L.Fits(p)
    requires LogsAcks(ps, y.rcv.acks)
    ensures T.Enabled(y, T.DeliverAck(a, now)) <==> exists k: nat :: HandsAck(open, seal, iv, start, ps, k, a)
  {
    if T.Enabled(y, T.DeliverAck(a, now)) {
      var k :| 0 <= k < |ps| && ps[k].typ == ACK && ps[k].seqNo == a;
      AckRead(open, seal, iv, start, ps, k);
      assert HandsAck(open, seal, iv, start, ps, k, a);
    }
    if k: nat :| HandsAck(open, seal, iv, start, ps, k, a) {
      AckRead(open, seal, iv, start, ps, k);
      assert ps[k] in ps;
    }
  }

  lemma {:induction false} AckRead(
      open: L.Opener, seal: L.Sealer, iv: seq<byte>, start: nat, ps: seq<Rdt.Packet>, k: nat)
    requires L.Inverts(open, seal) && start + |ps| <= D.SEQ_LIMIT && (forall p | p in ps :: L.Fits(p)) && k < |ps|
    ensures Acks(Received(open, iv, Pick(Datagrams(seal, iv, start, ps), [k])))
            == if ps[k].typ == ACK then [ps[k].seqNo] else []
  {
    ReadsWhatWasSent(open, seal, iv, start, ps, [k]);
    AckOfOne(ps, k);
  }

  lemma {:induction false} AckOfOne(ps: seq<Rdt.Packet>, k: nat)
    requires k < |ps|
    ensures Acks(Pick(ps, [k])) == if ps[k].typ == ACK then [ps[k].seqNo] else []
  {
    var ks := [k];
    assert ks[1..] == [];
    var one := Pick(ps, ks);
    assert one == [ps[k]] + Pick(ps, ks[1..]);
    assert one[0] == ps[k] && one[1..] == [];
  }
}
