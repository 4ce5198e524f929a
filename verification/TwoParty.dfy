/**
 * The go-back-N sender and the pump's receiving half as the two ends of a lossy network. Every
 * frame ever put on the wire and every ACK ever sent can be delivered at any later time, any
 * number of times and in any order, or never: loss, duplication and reordering.
 */
module TwoParty {
  import opened Bytes
  import opened Framing
  import PTun
  import R = Reassembler
  import I = Inbound
  import G = GoBackN
  import Runs = GoBackNRuns
  import E = GoBackNEvents
  import O = Outbound

  /** sent and arrived are histories: payloads in sending order, packets in arrival order. */
  datatype Sys = Sys(
    snd: G.Sender,
    rcv: I.State,
    first: nat,
    sent: seq<seq<byte>>,
    arrived: seq<R.Packet>)

  datatype Event =
    | Send(frame: G.Frame, sentAt: int)
    | DeliverFrames(batch: seq<R.Packet>)
    | DeliverAck(ack: nat, ackedAt: int)
    | Tick(tickedAt: int)
    | ReAck
    | Stall
    | Idle                                       // the pump does something else

  function Initial(first: nat, now: int): (y: Sys)
  {
    Sys(G.Initial(first, now), I.INITIAL, first, [], [])
  }

  ghost predicate OnWire(wire: seq<G.Sent>, p: R.Packet) {
    exists k | 0 <= k < |wire| :: wire[k].seqNo == p.seqNo && wire[k].frame.payload == p.payload
  }

  ghost predicate Enabled(y: Sys, e: Event) {
    match e
    case Send(f, _) => f.typ == 0x02
    case DeliverFrames(b) => forall p | p in b :: OnWire(y.snd.wire, p)
    case DeliverAck(a, _) => a in y.rcv.acks
    case _ => true
  }

  ghost function After(y: Sys, e: Event): (y': Sys)
    requires y.snd.cwnd != 0.0
  {
    match e
    case Send(f, now) => y.(snd := G.AfterSend(y.snd, f, now), sent := y.sent + [f.payload])
    case DeliverFrames(b) => Delivered(y, b)
    case DeliverAck(a, now) => y.(snd := G.AfterAck(y.snd, a, now))
    case Tick(now) => y.(snd := G.AfterTick(y.snd, now))
    case ReAck => y.(rcv := I.AfterReAck(y.rcv))
    case Stall => y.(rcv := I.AfterStall(y.rcv))
    case Idle => y
  }

  function Delivered(y: Sys, b: seq<R.Packet>): (y': Sys)
  {
    y.(rcv := I.AfterBatch(y.rcv, b), arrived := y.arrived + b)
  }

  lemma DeliverIs(y: Sys, b: seq<R.Packet>)
    requires y.snd.cwnd != 0.0
    ensures After(y, DeliverFrames(b)) == Delivered(y, b)
  {
  }

  // --- the invariant ------------------------------------------------------------------------------

  ghost predicate IsSent(y: Sys, q: nat, payload: seq<byte>) {
    y.first <= q < y.first + |y.sent| && payload == y.sent[q - y.first]
  }

  /** Whatever is on the wire or has arrived is what was sent under its number. */
  ghost predicate Authentic(y: Sys) {
    && y.snd.txSeq == y.first + |y.sent|
    && (forall k | 0 <= k < |y.snd.wire| :: IsSent(y, y.snd.wire[k].seqNo, y.snd.wire[k].frame.payload))
    && (forall k | 0 <= k < |y.arrived| :: IsSent(y, y.arrived[k].seqNo, y.arrived[k].payload))
  }

  /** Only what the receiver has consumed can be acknowledged. */
  ghost predicate Bounded(y: Sys) {
    && y.first <= y.snd.sendBase
    && (!y.rcv.started ==> y.snd.sendBase == y.first)
    && (y.rcv.started ==> y.first <= y.rcv.recv.base < y.rcv.next <= y.snd.txSeq && y.snd.sendBase <= y.rcv.next)
  }

  ghost predicate Inv(y: Sys) {
    G.Inv(y.snd) && I.Inv(y.rcv, y.arrived) && Authentic(y) && Bounded(y)
  }

  lemma InitialInv(first: nat, now: int)
    ensures Inv(Initial(first, now))
  {
    G.InitInv(first, now);
    I.InitialInv();
  }

  lemma {:induction false} FirstIsSent(y: Sys, q: nat)
    requires Authentic(y) && I.First(y.arrived, q).Some?
    ensures IsSent(y, q, I.First(y.arrived, q).value)
  {
    I.FirstIsArrival(y.arrived, q);
  }

  lemma SendInv(y: Sys, f: G.Frame, now: int)
    requires Inv(y)
    ensures Inv(After(y, Send(f, now)))
  {
    G.SendInv(y.snd, f, now);
    SendAuthentic(y, f, now);
  }

  lemma SendAuthentic(y: Sys, f: G.Frame, now: int)
    requires G.Inv(y.snd) && Authentic(y)
    ensures Authentic(After(y, Send(f, now)))
  {
    var y' := After(y, Send(f, now));
    forall k | 0 <= k < |y.arrived| ensures IsSent(y', y.arrived[k].seqNo, y.arrived[k].payload) {
      assert IsSent(y, y.arrived[k].seqNo, y.arrived[k].payload);
    }
    forall k | 0 <= k < |y'.snd.wire| ensures IsSent(y', y'.snd.wire[k].seqNo, y'.snd.wire[k].frame.payload) {
      if k < |y.snd.wire| {
        assert IsSent(y, y.snd.wire[k].seqNo, y.snd.wire[k].frame.payload);
      }
    }
  }

  /** A retransmission puts the stored frame on the wire, which is the one sent under its number. */
  lemma ResendAuthentic(y: Sys, s: G.Sender)
    requires G.Inv(y.snd) && Authentic(y) && s.txSeq == y.snd.txSeq
    requires s.wire == y.snd.wire || G.RepeatsOldest(y.snd, s.wire)
    ensures Authentic(y.(snd := s))
  {
    var y' := y.(snd := s);
    forall k | 0 <= k < |y'.arrived| ensures IsSent(y', y'.arrived[k].seqNo, y'.arrived[k].payload) {
      assert IsSent(y, y.arrived[k].seqNo, y.arrived[k].payload);
    }
    forall k | 0 <= k < |s.wire| ensures IsSent(y', s.wire[k].seqNo, s.wire[k].frame.payload) {
      if k < |y.snd.wire| {
        assert IsSent(y, y.snd.wire[k].seqNo, y.snd.wire[k].frame.payload);
      } else {
        InflightIsSent(y);
      }
    }
  }

  /** The oldest frame in flight is the one sent under its number, and some copy of it can be delivered. */
  lemma InflightIsSent(y: Sys)
    requires G.Inv(y.snd) && Authentic(y) && y.snd.sendBase in y.snd.inflight
    ensures IsSent(y, y.snd.sendBase, y.snd.inflight[y.snd.sendBase].frame.payload)
    ensures OnWire(y.snd.wire, R.Packet(y.snd.sendBase, y.snd.inflight[y.snd.sendBase].frame.payload))
  {
    var b := y.snd.sendBase;
    assert G.Tracked(y.snd.wire, b, y.snd.inflight[b]);
    if forall k | 0 <= k < |y.snd.wire| :: y.snd.wire[k].seqNo != b {
      G.CountNone(y.snd.wire, b);
    }
    var k :| 0 <= k < |y.snd.wire| && y.snd.wire[k].seqNo == b;
    assert IsSent(y, y.snd.wire[k].seqNo, y.snd.wire[k].frame.payload);
  }

  /** A sender step that neither sends anew nor moves the base past the receiver. */
  lemma SenderStepInv(y: Sys, s: G.Sender)
    requires Inv(y) && G.Inv(s) && s.txSeq == y.snd.txSeq
    requires s.wire == y.snd.wire || G.RepeatsOldest(y.snd, s.wire)
    requires s.sendBase == y.snd.sendBase || (y.rcv.started && y.snd.sendBase <= s.sendBase <= y.rcv.next)
    ensures Inv(y.(snd := s))
  {
    ResendAuthentic(y, s);
  }

  lemma AckInv(y: Sys, a: nat, now: int)
    requires Inv(y) && a in y.rcv.acks
    ensures Inv(After(y, DeliverAck(a, now)))
    ensures After(y, DeliverAck(a, now)).snd.sendBase == if a + 1 > y.snd.sendBase then a + 1 else y.snd.sendBase
  {
    G.AckInv(y.snd, a, now);
    G.AckTransmits(y.snd, a, now);
    var k :| 0 <= k < |y.rcv.acks| && y.rcv.acks[k] == a;
    SenderStepInv(y, G.AfterAck(y.snd, a, now));
  }

  lemma DeliverAuthentic(y: Sys, b: seq<R.Packet>)
    requires G.Inv(y.snd) && Authentic(y) && Enabled(y, DeliverFrames(b))
    ensures Authentic(Delivered(y, b))
  {
    var y' := Delivered(y, b);
    forall k | 0 <= k < |y'.arrived| ensures IsSent(y', y'.arrived[k].seqNo, y'.arrived[k].payload) {
      if k < |y.arrived| {
        assert IsSent(y, y.arrived[k].seqNo, y.arrived[k].payload);
      } else {
        WireIsSent(y, b, k - |y.arrived|);
      }
    }
    forall k | 0 <= k < |y.snd.wire| ensures IsSent(y', y.snd.wire[k].seqNo, y.snd.wire[k].frame.payload) {
      assert IsSent(y, y.snd.wire[k].seqNo, y.snd.wire[k].frame.payload);
    }
  }

  /** What the receiver has consumed was sent, so it is never ahead of the sender. */
  lemma ConsumedWasSent(y: Sys)
    requires Authentic(y) && I.Inv(y.rcv, y.arrived) && y.rcv.started
    ensures y.first <= y.rcv.recv.base < y.rcv.next <= y.snd.txSeq
  {
    assert I.First(y.arrived, y.rcv.recv.base).Some?;
    FirstIsSent(y, y.rcv.recv.base);
    assert I.First(y.arrived, y.rcv.next - 1).Some?;
    FirstIsSent(y, y.rcv.next - 1);
  }

  lemma DeliverInv(y: Sys, b: seq<R.Packet>)
    requires Inv(y) && Enabled(y, DeliverFrames(b))
    ensures Inv(Delivered(y, b))
    ensures Forward(y, Delivered(y, b))
  {
    var y' := Delivered(y, b);
    I.BatchInv(y.rcv, y.arrived, b);
    DeliverAuthentic(y, b);
    if y.rcv.started {
      I.BatchForward(y.rcv, y.arrived, b);
    }
    if y'.rcv.started {
      ConsumedWasSent(y');
    }
  }

  lemma ReceiverAcksInv(y: Sys)
    requires Inv(y)
    ensures Inv(y.(rcv := I.AfterReAck(y.rcv))) && Inv(y.(rcv := I.AfterStall(y.rcv)))
    ensures Forward(y, y.(rcv := I.AfterReAck(y.rcv))) && Forward(y, y.(rcv := I.AfterStall(y.rcv)))
  {
    I.ReAckInv(y.rcv, y.arrived);
    I.StallInv(y.rcv, y.arrived);
    AuthenticIgnoresReceiver(y, I.AfterReAck(y.rcv));
    AuthenticIgnoresReceiver(y, I.AfterStall(y.rcv));
  }

  lemma AuthenticIgnoresReceiver(y: Sys, r: I.State)
    requires Authentic(y)
    ensures Authentic(y.(rcv := r))
  {
    var y' := y.(rcv := r);
    forall k | 0 <= k < |y.snd.wire| ensures IsSent(y', y.snd.wire[k].seqNo, y.snd.wire[k].frame.payload) {
      assert IsSent(y, y.snd.wire[k].seqNo, y.snd.wire[k].frame.payload);
    }
    forall k | 0 <= k < |y.arrived| ensures IsSent(y', y.arrived[k].seqNo, y.arrived[k].payload) {
      assert IsSent(y, y.arrived[k].seqNo, y.arrived[k].payload);
    }
  }

  /** Neither end ever goes back, and the stream keeps its start. */
  ghost predicate Forward(y: Sys, y': Sys) {
    && y.snd.sendBase <= y'.snd.sendBase
    && (y.rcv.started ==>
          y'.rcv.started && y.rcv.next <= y'.rcv.next && y'.rcv.recv.base == y.rcv.recv.base)
  }

  lemma NewFrameStep(y: Sys, e: Event)
    requires Inv(y) && e.Send?
    ensures Inv(After(y, e)) && Forward(y, After(y, e))
  {
    SendInv(y, e.frame, e.sentAt);
  }

  lemma DeliverStep(y: Sys, e: Event)
    requires Inv(y) && Enabled(y, e) && e.DeliverFrames?
    ensures Inv(After(y, e)) && Forward(y, After(y, e))
  {
    DeliverIs(y, e.batch);
    DeliverInv(y, e.batch);
  }

  lemma AckStep(y: Sys, e: Event)
    requires Inv(y) && Enabled(y, e) && e.DeliverAck?
    ensures Inv(After(y, e)) && Forward(y, After(y, e))
  {
    AckInv(y, e.ack, e.ackedAt);
  }

  lemma TickIs(y: Sys, e: Event)
    requires y.snd.cwnd != 0.0 && e.Tick?
    ensures After(y, e) == y.(snd := G.AfterTick(y.snd, e.tickedAt))
  {
  }

  lemma TickKeeps(y: Sys, s: G.Sender, now: int)
    requires Inv(y) && s == G.AfterTick(y.snd, now)
    ensures Inv(y.(snd := s)) && Forward(y, y.(snd := s))
  {
    G.TickInv(y.snd, now);
    G.TickTransmits(y.snd, now);
    SenderStepInv(y, s);
  }

  lemma TickStep(y: Sys, e: Event)
    requires Inv(y) && e.Tick?
    ensures Inv(After(y, e)) && Forward(y, After(y, e))
  {
    TickIs(y, e);
    TickKeeps(y, G.AfterTick(y.snd, e.tickedAt), e.tickedAt);
  }

  lemma ReceiverIs(y: Sys, e: Event)
    requires y.snd.cwnd != 0.0 && (e.ReAck? || e.Stall?)
    ensures After(y, e) == y.(rcv := if e.ReAck? then I.AfterReAck(y.rcv) else I.AfterStall(y.rcv))
  {
  }

  lemma ReceiverStep(y: Sys, e: Event)
    requires Inv(y) && (e.ReAck? || e.Stall?)
    ensures Inv(After(y, e)) && Forward(y, After(y, e))
  {
    ReceiverIs(y, e);
    ReceiverAcksInv(y);
  }

  /** Every step keeps the invariant and moves neither end back. */
  lemma StepInv(y: Sys, e: Event)
    requires Inv(y) && Enabled(y, e)
    ensures Inv(After(y, e)) && Forward(y, After(y, e))
  {
    match e
    case Send(_, _) => NewFrameStep(y, e);
    case DeliverFrames(_) => DeliverStep(y, e);
    case DeliverAck(_, _) => AckStep(y, e);
    case Tick(_) => TickStep(y, e);
    case ReAck => ReceiverStep(y, e);
    case Stall => ReceiverStep(y, e);
    case Idle =>
  }

  /** One step from y to y'. The window is never zero where the invariant holds. */
  ghost predicate Steps(y: Sys, e: Event, y': Sys) {
    y.snd.cwnd != 0.0 && Enabled(y, e) && y' == After(y, e)
  }

  lemma StepsInv(y: Sys, e: Event, y': Sys)
    requires Inv(y) && Steps(y, e, y')
    ensures Inv(y') && Forward(y, y') && y'.first == y.first
  {
    StepInv(y, e);
  }

  /** Only sending adds to what was sent. */
  lemma SentKept(y: Sys, e: Event, y': Sys)
    requires Steps(y, e, y') && !e.Send?
    ensures y'.sent == y.sent && y'.snd.txSeq == y.snd.txSeq
  {
  }

  lemma IdleKeeps(y: Sys, y': Sys)
    requires Steps(y, Idle, y')
    ensures y' == y
  {
  }

  // --- safety over whole runs ---------------------------------------------------------------------

  ghost predicate IsRun(ys: seq<Sys>, es: seq<Event>, first: nat, t0: int) {
    && |ys| == |es| + 1
    && ys[0] == Initial(first, t0)
    && (forall k: nat | k < |es| :: StepAt(ys, es, k))
  }

  ghost predicate StepAt(ys: seq<Sys>, es: seq<Event>, k: nat) {
    k < |es| && |ys| == |es| + 1 && Steps(ys[k], es[k], ys[k + 1])
  }

  lemma {:induction false} RunInv(ys: seq<Sys>, es: seq<Event>, first: nat, t0: int, k: nat)
    requires IsRun(ys, es, first, t0) && k <= |es|
    ensures Inv(ys[k]) && ys[k].first == first
  {
    if k == 0 {
      InitialInv(first, t0);
    } else {
      RunInv(ys, es, first, t0, k - 1);
      assert StepAt(ys, es, k - 1);
      StepsInv(ys[k - 1], es[k - 1], ys[k]);
    }
  }

  lemma {:induction false} CatIsSent(y: Sys, lo: nat, hi: nat)
    requires Authentic(y) && I.Arrived(y.arrived, lo, hi) && y.first <= lo <= hi <= y.first + |y.sent|
    ensures I.CatFirst(y.arrived, lo, hi) == Flatten(y.sent[lo - y.first..hi - y.first])
  {
    var part := y.sent[lo - y.first..hi - y.first];
    forall k: nat | k < |part| ensures FirstIs(y.arrived, lo + k, part[k]) {
      assert I.First(y.arrived, lo + k).Some?;
      FirstIsSent(y, lo + k);
    }
    CatOf(y.arrived, part, lo, hi);
  }

  ghost predicate FirstIs(arrived: seq<R.Packet>, q: nat, payload: seq<byte>) {
    I.First(arrived, q) == Some(payload)
  }

  lemma {:induction false} CatOf(arrived: seq<R.Packet>, part: seq<seq<byte>>, lo: nat, hi: nat)
    requires hi == lo + |part| && forall k: nat | k < |part| :: FirstIs(arrived, lo + k, part[k])
    ensures I.CatFirst(arrived, lo, hi) == Flatten(part)
  {
    if lo < hi {
      var front, last := part[..|part| - 1], part[|part| - 1];
      assert FirstIs(arrived, hi - 1, last);
      CatOf(arrived, front, lo, hi - 1);
      FlattenSnoc(front, last);
      assert part == front + [last];
    }
  }

  /** The bytes delivered are the payloads sent under the consumed numbers, in order and once each. */
  ghost predicate DeliversSent(y: Sys) {
    && y.first <= y.rcv.recv.base <= y.rcv.next <= y.first + |y.sent|
    && y.rcv.delivered == Flatten(y.sent[y.rcv.recv.base - y.first..y.rcv.next - y.first])
  }

  lemma DeliveredIsSent(y: Sys)
    requires Inv(y) && y.rcv.started
    ensures DeliversSent(y)
  {
    forall q | y.rcv.recv.base <= q < y.rcv.next ensures I.First(y.arrived, q).Some? {
    }
    CatIsSent(y, y.rcv.recv.base, y.rcv.next);
  }

  /**
   * Two-party safety. In every reachable state of every run over the lossy network, once the
   * receiver has started: sendBase <= next <= txSeq; every frame the receiver still lacks is
   * still in flight at the sender; and the bytes delivered are exactly the payloads sent under
   * the consumed numbers, in order and once each.
   */
  lemma TwoPartySafety(ys: seq<Sys>, es: seq<Event>, first: nat, t0: int, k: nat)
    requires IsRun(ys, es, first, t0) && k <= |es| && ys[k].rcv.started
    ensures var y := ys[k];
            && first <= y.rcv.recv.base < y.rcv.next
            && y.snd.sendBase <= y.rcv.next <= y.snd.txSeq == first + |y.sent|
            && (forall q | y.rcv.next <= q < y.snd.txSeq :: q in y.snd.inflight)
            && y.first == first && DeliversSent(y)
  {
    RunInv(ys, es, first, t0, k);
    DeliveredIsSent(ys[k]);
  }

  /** If the receiver's first consumed number is the sender's first, delivery is a prefix of sending. */
  lemma DeliveredPrefix(ys: seq<Sys>, es: seq<Event>, first: nat, t0: int, k: nat)
    requires IsRun(ys, es, first, t0) && k <= |es| && ys[k].rcv.started && ys[k].rcv.recv.base == first
    ensures 0 <= ys[k].rcv.next - first <= |ys[k].sent|
    ensures ys[k].rcv.delivered == Flatten(ys[k].sent[..ys[k].rcv.next - first])
  {
    TwoPartySafety(ys, es, first, t0, k);
    assert ys[k].sent[0..ys[k].rcv.next - first] == ys[k].sent[..ys[k].rcv.next - first];
  }

  /**
   * When the payloads sent are a stream of well-formed messages cut into frames anywhere, with
   * the rest still pending, the receiver has routed a prefix of those messages, and all of them
   * once everything was framed and consumed.
   */
  lemma {:induction false} MessagesArriveInOrder(y: Sys, pending: seq<byte>, ms: seq<PTun.Msg>)
    requires Inv(y) && y.rcv.started && y.rcv.recv.base == y.first
    requires Flatten(y.sent) + pending == EncodeAll(PTun.Encode, ms) && forall m | m in ms :: PTun.WellFormed(m)
    ensures y.rcv.routed <= ms
    ensures pending == [] && y.rcv.next == y.snd.txSeq ==> y.rcv.routed == ms
  {
    var n := y.rcv.next - y.first;
    DeliveredIsSent(y);
    CutSent(y.sent, n, y.rcv.delivered, pending);
    PrefixOfMessages(y.rcv.delivered, Flatten(y.sent[n..]) + pending, ms);
  }

  /**
   * Once everything sent was consumed, well-formed messages whose encoding is at least as long
   * as what was sent are read exactly if it is their encoding, all of it, from the frame on at
   * which the receiver started.
   */
  lemma {:induction false} MessagesReadIff(y: Sys, ms: seq<PTun.Msg>)
    requires Inv(y) && y.rcv.started && y.rcv.next == y.snd.txSeq
    requires (forall m | m in ms :: PTun.WellFormed(m)) && |Flatten(y.sent)| <= |EncodeAll(PTun.Encode, ms)|
    ensures 0 <= y.rcv.recv.base - y.first <= |y.sent|
    ensures y.rcv.routed == ms <==> Flatten(y.sent[y.rcv.recv.base - y.first..|y.sent|]) == EncodeAll(PTun.Encode, ms)
  {
    DeliveredIsSent(y);
    TailNotLonger(y.sent, y.rcv.recv.base - y.first);
    PTun.ReadsExactly(y.rcv.delivered, ms);
  }

  lemma {:induction false} TailNotLonger(sent: seq<seq<byte>>, n: nat)
    requires n <= |sent|
    ensures |Flatten(sent)| == |Flatten(sent[..n])| + |Flatten(sent[n..|sent|])|
    ensures n == 0 ==> Flatten(sent[n..|sent|]) == Flatten(sent)
  {
    assert sent == sent[..n] + sent[n..|sent|];
    FlattenAppend(sent[..n], sent[n..|sent|]);
    assert n == 0 ==> sent[n..|sent|] == sent;
  }

  /** The same for a stream of deliverable writes. */
  lemma {:induction false} WritesArriveInOrder(y: Sys, pending: seq<byte>, writes: seq<O.WriteReq>)
    requires Inv(y) && y.rcv.started && y.rcv.recv.base == y.first
    requires Flatten(y.sent) + pending == EncodeAll(O.Chunk, writes)
    requires forall k | 0 <= k < |writes| :: O.Deliverable(writes[k])
    ensures y.rcv.routed <= O.AsMsgs(writes)
    ensures pending == [] && y.rcv.next == y.snd.txSeq ==> y.rcv.routed == O.AsMsgs(writes)
  {
    O.ChunksAreMessages(writes);
    O.DeliverableIffWellFormed(writes);
    MessagesArriveInOrder(y, pending, O.AsMsgs(writes));
  }

  lemma {:induction false} CutSent(sent: seq<seq<byte>>, n: nat, delivered: seq<byte>, pending: seq<byte>)
    requires n <= |sent| && delivered == Flatten(sent[0..n])
    ensures Flatten(sent) + pending == delivered + (Flatten(sent[n..]) + pending)
    ensures n == |sent| ==> Flatten(sent[n..]) == []
  {
    assert sent == sent[0..n] + sent[n..];
    FlattenAppend(sent[0..n], sent[n..]);
    AppendAssoc(delivered, Flatten(sent[n..]), pending);
  }

  /** What is read off a prefix of a stream of well-formed messages is a prefix of the messages. */
  lemma {:induction false} PrefixOfMessages(front: seq<byte>, rest: seq<byte>, ms: seq<PTun.Msg>)
    requires front + rest == EncodeAll(PTun.Encode, ms) && forall m | m in ms :: PTun.WellFormed(m)
    ensures Split(PTun.Scan, front).msgs <= ms
    ensures rest == [] ==> Split(PTun.Scan, front).msgs == ms
  {
    PTun.DemuxRoundTripIff(ms);
    PTun.IsCodec();
    SplitAppend(PTun.Scan, front, rest);
    assert rest == [] ==> front + rest == front;
  }

  // --- recovery from a stall ----------------------------------------------------------------------

  /** Two stall steps past a hole send the ACK before the hole four times more. */
  lemma {:induction false} TwoStalls(y: Sys) returns (y1: Sys, y2: Sys)
    requires Inv(y) && y.rcv.started && y.rcv.recv.maxSeq >= y.rcv.next
    ensures Steps(y, Stall, y1) && Steps(y1, Stall, y2) && Inv(y2) && y2.snd == y.snd && y2.first == y.first
    ensures y2.sent == y.sent && y2.rcv.started && y2.rcv.next == y.rcv.next > 0
    ensures var a := y.rcv.next - 1; y2.rcv.acks == y.rcv.acks + [a, a] + [a, a]
  {
    y1 := y.(rcv := I.AfterStall(y.rcv));
    ReceiverIs(y, Stall);
    ReceiverAcksInv(y);
    y2 := y1.(rcv := I.AfterStall(y1.rcv));
    ReceiverIs(y1, Stall);
    ReceiverAcksInv(y1);
  }

  /** The sender has heard that everything before the hole has arrived, and is waiting at it. */
  lemma {:induction false} AckedUpToHole(y: Sys, a: nat, now: int) returns (y': Sys)
    requires Inv(y) && y.rcv.started && a in y.rcv.acks && a + 1 == y.rcv.next < y.snd.txSeq
    ensures Steps(y, DeliverAck(a, now), y') && Inv(y') && y'.rcv == y.rcv && y'.sent == y.sent && y'.first == y.first
    ensures y'.snd.lastAckSeq == a && y'.snd.sendBase == a + 1 && y'.snd.txSeq == y.snd.txSeq && E.Stuck(y'.snd)
  {
    y' := AckArrives(y, a, now);
    AckIs(y, a, now);
    G.AckTransmits(y.snd, a, now);
    E.CounterMoves(y.snd, Runs.Event(Runs.AckIn(a), now));
  }

  lemma AckIs(y: Sys, a: nat, now: int)
    requires G.Inv(y.snd)
    ensures After(y, DeliverAck(a, now)) == y.(snd := Runs.Step(y.snd, Runs.Event(Runs.AckIn(a), now)))
  {
  }

  lemma {:induction false} OnceMore(y: Sys, now: int) returns (y': Sys)
    requires Inv(y) && E.Stuck(y.snd) && y.snd.lastAckSeq in y.rcv.acks
    ensures Steps(y, DeliverAck(y.snd.lastAckSeq, now), y') && Inv(y') && y'.rcv == y.rcv && y'.sent == y.sent
    ensures y'.first == y.first && y'.snd == E.Again(y.snd, now) && E.Stuck(y'.snd)
    ensures y'.snd.lastAckSeq == y.snd.lastAckSeq
  {
    y' := AckArrives(y, y.snd.lastAckSeq, now);
    AckIs(y, y.snd.lastAckSeq, now);
    E.RepeatMoves(y.snd, now);
  }

  /** Three repetitions of the ACK before the hole bring the missing frame, and nothing else. */
  lemma {:induction false} ThreeMore(y: Sys, now: int) returns (y1: Sys, y2: Sys, y3: Sys)
    requires Inv(y) && E.Stuck(y.snd) && y.snd.lastAckSeq in y.rcv.acks
    ensures var e := DeliverAck(y.snd.lastAckSeq, now); Steps(y, e, y1) && Steps(y1, e, y2) && Steps(y2, e, y3)
    ensures Inv(y3) && y3.sent == y.sent && y3.first == y.first && y3.snd.wire == y.snd.wire + [E.Oldest(y.snd)]
  {
    y1 := OnceMore(y, now);
    y2 := OnceMore(y1, now);
    y3 := OnceMore(y2, now);
    E.ThreeAgain(y.snd, now, now, now);
  }

  /** x is the frame sent under the number q, on the wire last. */
  ghost predicate EndsWith(y: Sys, before: seq<G.Sent>, q: nat) {
    exists x: G.Sent ::
      y.snd.wire == before + [x] && x.seqNo == q && IsSent(y, q, x.frame.payload)
  }

  /**
   * Stall recovery works: from every reachable state in which frames past a missing one have
   * arrived, two stall steps and the arrival of the four ACKs they send make the sender put
   * exactly the missing frame on the wire in answer to the last three, with no timeout.
   */
  lemma {:induction false} StallRecovers(y: Sys, now: int)
      returns (y1: Sys, y2: Sys, y3: Sys, y4: Sys, y5: Sys, y6: Sys)
    requires Inv(y) && y.rcv.started && y.rcv.recv.maxSeq >= y.rcv.next && y.rcv.next < y.snd.txSeq
    ensures Steps(y, Stall, y1) && Steps(y1, Stall, y2)
    ensures y.rcv.next > 0
    ensures var e := DeliverAck(y.rcv.next - 1, now);
            Steps(y2, e, y3) && Steps(y3, e, y4) && Steps(y4, e, y5) && Steps(y5, e, y6)
    ensures Inv(y6) && y6.sent == y.sent && y6.first == y.first && EndsWith(y6, y3.snd.wire, y.rcv.next)
  {
    y1, y2 := TwoStalls(y);
    var a := y.rcv.next - 1;
    AmongFour(y.rcv.acks, a);
    y3, y4, y5, y6 := FourAcks(y2, a, now);
  }

  lemma AmongFour(acks: seq<nat>, a: nat)
    ensures a in acks + [a, a] + [a, a]
  {
    assert (acks + [a, a] + [a, a])[|acks|] == a;
  }

  lemma {:induction false} FourAcks(y: Sys, a: nat, now: int) returns (y1: Sys, y2: Sys, y3: Sys, y4: Sys)
    requires Inv(y) && y.rcv.started && a in y.rcv.acks && a + 1 == y.rcv.next < y.snd.txSeq
    ensures var e := DeliverAck(a, now);
            Steps(y, e, y1) && Steps(y1, e, y2) && Steps(y2, e, y3) && Steps(y3, e, y4)
    ensures Inv(y4) && y4.sent == y.sent && y4.first == y.first && EndsWith(y4, y1.snd.wire, a + 1)
  {
    y1 := AckedUpToHole(y, a, now);
    y2, y3, y4 := ThreeMore(y1, now);
    OldestSentLast(y1, y4);
  }

  lemma {:induction false} OldestSentLast(y: Sys, y': Sys)
    requires Inv(y) && y.snd.sendBase < y.snd.txSeq && y'.sent == y.sent && y'.first == y.first
    requires y'.snd.wire == y.snd.wire + [E.Oldest(y.snd)]
    ensures EndsWith(y', y.snd.wire, y.snd.sendBase)
  {
    OldestIsSent(y);
  }

  lemma OldestIsSent(y: Sys)
    requires Inv(y) && y.snd.sendBase < y.snd.txSeq
    ensures var x := E.Oldest(y.snd); x.seqNo == y.snd.sendBase && IsSent(y, x.seqNo, x.frame.payload)
  {
    InflightIsSent(y);
  }

  // --- where the stream starts --------------------------------------------------------------------

  /** The stream starts at the sender's first frame exactly when the first batch contains it. */
  lemma StartsAtFirstIff(y: Sys, b: seq<R.Packet>)
    requires Inv(y) && !y.rcv.started && b != [] && Enabled(y, DeliverFrames(b))
    ensures After(y, DeliverFrames(b)) == Delivered(y, b) && Delivered(y, b).rcv.started
    ensures Delivered(y, b).rcv.recv.base == y.first <==> exists k | 0 <= k < |b| :: b[k].seqNo == y.first
  {
    DeliverIs(y, b);
    I.StartsLowest(b, 0);
    forall k | 0 <= k < |b| ensures y.first <= b[k].seqNo {
      WireIsSent(y, b, k);
    }
    if k :| 0 <= k < |b| && b[k].seqNo == y.first {
      I.StartsLowest(b, k);
    }
  }

  lemma WireIsSent(y: Sys, b: seq<R.Packet>, k: nat)
    requires Authentic(y) && Enabled(y, DeliverFrames(b)) && k < |b|
    ensures IsSent(y, b[k].seqNo, b[k].payload)
  {
    assert b[k] in b && OnWire(y.snd.wire, b[k]);
    var j :| 0 <= j < |y.snd.wire| && y.snd.wire[j].seqNo == b[k].seqNo && y.snd.wire[j].frame.payload == b[k].payload;
    assert IsSent(y, y.snd.wire[j].seqNo, y.snd.wire[j].frame.payload);
  }

  /** The receiver delivered the payload of q. */
  ghost predicate WasDelivered(y: Sys, q: nat) {
    y.rcv.started && y.rcv.recv.base <= q < y.rcv.next
  }

  /** Every acknowledged frame was delivered, if and only if the stream started at the first one. */
  lemma AckedDeliveredIff(y: Sys)
    requires Inv(y) && y.rcv.started && y.snd.sendBase > y.first
    ensures (forall q: nat | y.first <= q < y.snd.sendBase :: WasDelivered(y, q)) <==> y.rcv.recv.base == y.first
  {
    if y.rcv.recv.base > y.first {
      assert !WasDelivered(y, y.first);
    }
  }

  // --- progress ---------------------------------------------------------------------------------------

  /** Delivering the oldest unacknowledged frame takes the receiver past it, received before or not. */
  lemma OldestIsConsumed(y: Sys, b: seq<R.Packet>, k: nat)
    requires Inv(y) && Enabled(y, DeliverFrames(b)) && k < |b| && b[k].seqNo == y.snd.sendBase
    ensures Delivered(y, b).rcv.started && Delivered(y, b).rcv.next > y.snd.sendBase
  {
    if !y.rcv.started {
      forall j | 0 <= j < |b| ensures b[k].seqNo <= b[j].seqNo {
        WireIsSent(y, b, j);
      }
    }
    I.ConsumesExpected(y.rcv, y.arrived, b, k);
  }

  /**
   * Progress in one round: from any reachable state with unacknowledged frames, one delivery
   * that includes the oldest frame, then one periodic ACK and its delivery, strictly advance the
   * base, whether the frame itself or only its ACK had been lost.
   */
  lemma RoundAdvances(y: Sys, b: seq<R.Packet>, k: nat, now: int) returns (y1: Sys, y2: Sys, y3: Sys)
    requires Inv(y) && Enabled(y, DeliverFrames(b)) && k < |b| && b[k].seqNo == y.snd.sendBase
    ensures Steps(y, DeliverFrames(b), y1) && Steps(y1, ReAck, y2)
    ensures y2.rcv.next > 0 && Steps(y2, DeliverAck(y2.rcv.next - 1, now), y3)
    ensures Inv(y3) && y3.snd.sendBase > y.snd.sendBase
  {
    y1 := DeliverOldest(y, b, k);
    y2, y3 := RepeatAndAck(y1, now);
  }

  /** A batch of nothing but the oldest unacknowledged frame. */
  lemma OldestAlone(y: Sys) returns (b: seq<R.Packet>)
    requires Inv(y) && y.snd.sendBase < y.snd.txSeq
    ensures |b| == 1 && b[0].seqNo == y.snd.sendBase && Enabled(y, DeliverFrames(b))
  {
    InflightIsSent(y);
    b := [R.Packet(y.snd.sendBase, y.snd.inflight[y.snd.sendBase].frame.payload)];
  }

  /** A round with that batch starts the stream, if it does, at the first frame. */
  lemma OldestRound(y: Sys, now: int) returns (b: seq<R.Packet>, y1: Sys, y2: Sys, y3: Sys)
    requires Inv(y) && y.snd.sendBase < y.snd.txSeq
    ensures Steps(y, DeliverFrames(b), y1) && Steps(y1, ReAck, y2)
    ensures y2.rcv.next > 0 && Steps(y2, DeliverAck(y2.rcv.next - 1, now), y3)
    ensures y3.snd.sendBase > y.snd.sendBase
    ensures y1.first == y.first && y1.rcv.started
    ensures y1.rcv.recv.base == if y.rcv.started then y.rcv.recv.base else y.first
    ensures y2.first == y.first && y2.rcv.started && y2.rcv.recv.base == y1.rcv.recv.base
    ensures y3.first == y.first && y3.rcv.started && y3.rcv.recv.base == y1.rcv.recv.base
  {
    b := OldestAlone(y);
    y1, y2, y3 := RoundAdvances(y, b, 0, now);
    OldestStarts(y, b, y1);
    StepsInv(y1, ReAck, y2);
    StepsInv(y2, DeliverAck(y2.rcv.next - 1, now), y3);
  }

  lemma OldestStarts(y: Sys, b: seq<R.Packet>, y1: Sys)
    requires Inv(y) && |b| == 1 && b[0].seqNo == y.snd.sendBase && Steps(y, DeliverFrames(b), y1)
    ensures Inv(y1) && y1.first == y.first && y1.rcv.started
    ensures y1.rcv.recv.base == if y.rcv.started then y.rcv.recv.base else y.first
  {
    StepsInv(y, DeliverFrames(b), y1);
    DeliverIs(y, b);
    OldestIsConsumed(y, b, 0);
    if !y.rcv.started {
      StartsAtFirstIff(y, b);
    }
  }

  lemma RepeatAndAck(y: Sys, now: int) returns (y': Sys, y'': Sys)
    requires Inv(y) && y.rcv.started
    ensures Steps(y, ReAck, y')
    ensures y'.rcv.next > 0 && Steps(y', DeliverAck(y'.rcv.next - 1, now), y'')
    ensures Inv(y'') && y''.snd.sendBase >= y.rcv.next
  {
    y' := RepeatAck(y);
    y'' := LastAckArrives(y', now);
  }

  lemma LastAckArrives(y: Sys, now: int) returns (y': Sys)
    requires Inv(y) && y.rcv.next > 0 && y.rcv.next - 1 in y.rcv.acks
    ensures Steps(y, DeliverAck(y.rcv.next - 1, now), y') && Inv(y') && y'.snd.sendBase >= y.rcv.next
  {
    y' := AckArrives(y, y.rcv.next - 1, now);
  }

  lemma DeliverOldest(y: Sys, b: seq<R.Packet>, k: nat) returns (y': Sys)
    requires Inv(y) && Enabled(y, DeliverFrames(b)) && k < |b| && b[k].seqNo == y.snd.sendBase
    ensures Steps(y, DeliverFrames(b), y')
    ensures Inv(y') && y'.snd == y.snd && y'.rcv.started && y'.rcv.next > y.snd.sendBase
  {
    y' := Delivered(y, b);
    DeliverIs(y, b);
    DeliverInv(y, b);
    OldestIsConsumed(y, b, k);
  }

  lemma RepeatAck(y: Sys) returns (y': Sys)
    requires Inv(y) && y.rcv.started
    ensures Steps(y, ReAck, y') && Inv(y') && y'.snd == y.snd
    ensures y'.rcv.next == y.rcv.next > 0 && y.rcv.next - 1 in y'.rcv.acks
    ensures y'.rcv.started && y'.rcv.recv == y.rcv.recv && y'.sent == y.sent && y'.first == y.first
  {
    y' := y.(rcv := I.AfterReAck(y.rcv));
    ReceiverAcksInv(y);
    assert y'.rcv.acks[|y.rcv.acks|] == y.rcv.next - 1;
  }

  lemma AckArrives(y: Sys, a: nat, now: int) returns (y': Sys)
    requires Inv(y) && a in y.rcv.acks
    ensures Steps(y, DeliverAck(a, now), y') && Inv(y') && y'.snd.sendBase >= a + 1
    ensures y'.rcv == y.rcv && y'.sent == y.sent && y'.first == y.first
  {
    y' := After(y, DeliverAck(a, now));
    AckInv(y, a, now);
  }

  lemma {:induction false} RunForward(ys: seq<Sys>, es: seq<Event>, first: nat, t0: int, i: nat, j: nat)
    requires IsRun(ys, es, first, t0) && i <= j <= |es|
    ensures Forward(ys[i], ys[j])
  {
    if i < j {
      RunForward(ys, es, first, t0, i, j - 1);
      RunInv(ys, es, first, t0, j - 1);
      assert StepAt(ys, es, j - 1);
      StepsInv(ys[j - 1], es[j - 1], ys[j]);
    }
  }

  /**
   * A fair round from i to r, with anything at all interleaved: some copy of the frame that was
   * oldest at i is delivered, later the receiver repeats its ACK, and later that ACK arrives.
   */
  ghost predicate FairRound(ys: seq<Sys>, es: seq<Event>, i: nat, r: nat)
    requires |ys| == |es| + 1
  {
    exists j: nat, k: nat, l: nat | i <= j < k < l < r <= |es| ::
      Redelivers(ys, es, i, j) && es[k].ReAck? && Acknowledges(ys, es, k, l)
  }

  /** Event j delivers a copy of the frame that was oldest at i. */
  ghost predicate Redelivers(ys: seq<Sys>, es: seq<Event>, i: nat, j: nat)
    requires |ys| == |es| + 1 && i <= j < |es|
  {
    es[j].DeliverFrames? && exists m | 0 <= m < |es[j].batch| :: es[j].batch[m].seqNo == ys[i].snd.sendBase
  }

  /** Event l delivers the ACK for all the receiver had consumed at k. */
  ghost predicate Acknowledges(ys: seq<Sys>, es: seq<Event>, k: nat, l: nat)
    requires |ys| == |es| + 1 && k < l < |es|
  {
    es[l].DeliverAck? && es[l].ack + 1 == ys[k].rcv.next
  }

  /** A fair round with unacknowledged frames at its start strictly advances the base. */
  lemma FairRoundAdvances(ys: seq<Sys>, es: seq<Event>, first: nat, t0: int, i: nat, r: nat)
    requires IsRun(ys, es, first, t0) && i <= r <= |es| && FairRound(ys, es, i, r)
    ensures ys[r].snd.sendBase > ys[i].snd.sendBase
  {
    var j: nat, k: nat, l: nat :| i <= j < k < l < r <= |es|
      && Redelivers(ys, es, i, j) && es[k].ReAck? && Acknowledges(ys, es, k, l);
    RunForward(ys, es, first, t0, i, j);
    PastOldest(ys, es, first, t0, i, j);
    RunForward(ys, es, first, t0, j + 1, k);
    AckLands(ys, es, first, t0, l);
    RunForward(ys, es, first, t0, l + 1, r);
  }

  lemma AckLands(ys: seq<Sys>, es: seq<Event>, first: nat, t0: int, l: nat)
    requires IsRun(ys, es, first, t0) && l < |es| && es[l].DeliverAck?
    ensures ys[l + 1].snd.sendBase >= es[l].ack + 1
  {
    RunInv(ys, es, first, t0, l);
    assert StepAt(ys, es, l);
    AckInv(ys[l], es[l].ack, es[l].ackedAt);
  }

  lemma PastOldest(ys: seq<Sys>, es: seq<Event>, first: nat, t0: int, i: nat, j: nat)
    requires IsRun(ys, es, first, t0) && i <= j < |es| && Redelivers(ys, es, i, j)
    ensures ys[j + 1].rcv.started && ys[j + 1].rcv.next > ys[i].snd.sendBase
  {
    var m :| 0 <= m < |es[j].batch| && es[j].batch[m].seqNo == ys[i].snd.sendBase;
    RunInv(ys, es, first, t0, i);
    RunInv(ys, es, first, t0, j);
    RunInv(ys, es, first, t0, j + 1);
    RunForward(ys, es, first, t0, i, j);
    if ys[j].snd.sendBase == ys[i].snd.sendBase {
      assert StepAt(ys, es, j);
      DeliverIs(ys[j], es[j].batch);
      OldestIsConsumed(ys[j], es[j].batch, m);
    } else {
      RunForward(ys, es, first, t0, j, j + 1);
      assert ys[j].rcv.started;
    }
  }

  /** marks cut the run into rounds, each fair or starting with nothing unacknowledged. */
  ghost predicate FairRounds(ys: seq<Sys>, es: seq<Event>, marks: seq<nat>)
    requires |ys| == |es| + 1
  {
    && (forall k | 0 <= k < |marks| :: marks[k] <= |es|)
    && (forall k | 0 <= k < |marks| - 1 ::
          marks[k] <= marks[k + 1] &&
          (ys[marks[k]].snd.sendBase == ys[marks[k]].snd.txSeq || FairRound(ys, es, marks[k], marks[k + 1])))
  }

  lemma {:induction false} RoundsAdvance(
      ys: seq<Sys>, es: seq<Event>, first: nat, t0: int, marks: seq<nat>, n: nat, total: nat)
    requires IsRun(ys, es, first, t0) && FairRounds(ys, es, marks) && n < |marks|
    requires forall k | 0 <= k <= n :: ys[marks[k]].snd.txSeq == total
    ensures ys[marks[n]].snd.sendBase >=
            if ys[marks[0]].snd.sendBase + n < total then ys[marks[0]].snd.sendBase + n else total
  {
    RunInv(ys, es, first, t0, marks[0]);
    if n > 0 {
      RoundsAdvance(ys, es, first, t0, marks, n - 1, total);
      RunForward(ys, es, first, t0, marks[n - 1], marks[n]);
      if ys[marks[n - 1]].snd.sendBase != total {
        FairRoundAdvances(ys, es, first, t0, marks[n - 1], marks[n]);
      }
    }
  }

  /**
   * Draining: if nothing new is sent over as many fair rounds as frames were unacknowledged at
   * their start, then at their end everything is acknowledged, everything was consumed, and
   * everything from the receiver's starting frame on has been delivered.
   */
  lemma FairRoundsDrain(ys: seq<Sys>, es: seq<Event>, first: nat, t0: int, marks: seq<nat>)
    requires IsRun(ys, es, first, t0) && FairRounds(ys, es, marks) && marks != []
    requires forall k | 0 <= k < |marks| :: ys[marks[k]].snd.txSeq == ys[marks[0]].snd.txSeq
    requires |marks| - 1 >= ys[marks[0]].snd.txSeq - ys[marks[0]].snd.sendBase
    ensures var y := ys[marks[|marks| - 1]];
            && y.snd.sendBase == y.snd.txSeq
            && (y.rcv.started ==>
                  && y.rcv.next == y.snd.txSeq && 0 <= y.rcv.recv.base - first <= |y.sent|
                  && y.rcv.delivered == Flatten(y.sent[y.rcv.recv.base - first..|y.sent|]))
            && (!y.rcv.started ==> y.sent == [])
  {
    var n := |marks| - 1;
    var y := ys[marks[n]];
    RoundsAdvance(ys, es, first, t0, marks, n, ys[marks[0]].snd.txSeq);
    RunInv(ys, es, first, t0, marks[0]);
    RunInv(ys, es, first, t0, marks[n]);
    AllAcknowledged(y);
  }

  lemma AllAcknowledged(y: Sys)
    requires Inv(y) && y.snd.sendBase >= y.snd.txSeq
    ensures y.snd.sendBase == y.snd.txSeq
    ensures y.rcv.started ==>
              && y.rcv.next == y.snd.txSeq && 0 <= y.rcv.recv.base - y.first <= |y.sent|
              && y.rcv.delivered == Flatten(y.sent[y.rcv.recv.base - y.first..|y.sent|])
    ensures !y.rcv.started ==> y.sent == []
  {
    if y.rcv.started {
      DeliveredIsSent(y);
    }
  }

  /**
   * Where AckedDeliveredIff fails: a run in which the first of two frames is lost, the receiver
   * starts at the second, and its cumulative ACK makes the sender free both.
   */
  lemma LostHead(first: nat, t0: int, f: G.Frame, g: G.Frame) returns (ys: seq<Sys>, es: seq<Event>)
    requires f.typ == 0x02 && g.typ == 0x02
    ensures IsRun(ys, es, first, t0)
    ensures var y := ys[|es|];
            && y.sent == [f.payload, g.payload] && y.snd.sendBase == y.snd.txSeq == first + 2
            && y.rcv.started && !WasDelivered(y, first)
  {
    var y0 := Initial(first, t0);
    InitialInv(first, t0);
    var y1 := SendStep(y0, f, t0);
    var y2 := SendStep(y1, g, t0);
    assert y2.sent == [f.payload, g.payload] && y2.snd.wire == [G.Sent(first, f), G.Sent(first + 1, g)];
    var b, y3 := SkipFirst(y2);
    var y4, y5 := AckAll(y3, t0);
    FiveSteps(y0, Send(f, t0), y1, Send(g, t0), y2, DeliverFrames(b), y3, ReAck, y4, DeliverAck(first + 1, t0), y5);
    ys := [y0, y1, y2, y3, y4, y5];
    es := [Send(f, t0), Send(g, t0), DeliverFrames(b), ReAck, DeliverAck(first + 1, t0)];
  }

  lemma SkipFirst(y: Sys) returns (b: seq<R.Packet>, y': Sys)
    requires Inv(y) && !y.rcv.started && |y.snd.wire| == 2 && y.snd.wire[1].seqNo == y.first + 1
    ensures Steps(y, DeliverFrames(b), y') && Inv(y')
    ensures y'.snd == y.snd && y'.sent == y.sent && y'.first == y.first
    ensures y'.rcv.started && y'.rcv.recv.base != y.first && y'.rcv.next > y.first + 1
  {
    b := SecondOnly(y, y.first);
    y' := Delivered(y, b);
    DeliverIs(y, b);
    DeliverInv(y, b);
    StartsSecond(y, b);
  }

  lemma StartsSecond(y: Sys, b: seq<R.Packet>)
    requires Inv(y) && !y.rcv.started && Enabled(y, DeliverFrames(b))
    requires b != [] && forall k | 0 <= k < |b| :: b[k].seqNo == y.first + 1
    ensures Delivered(y, b).rcv.started && Delivered(y, b).rcv.recv.base != y.first
    ensures Delivered(y, b).rcv.next > y.first + 1
  {
    StartsAtFirstIff(y, b);
    I.ConsumesExpected(y.rcv, y.arrived, b, 0);
  }

  lemma AckAll(y: Sys, now: int) returns (y1: Sys, y2: Sys)
    requires Inv(y) && y.rcv.started && y.rcv.recv.base != y.first
    requires |y.sent| == 2 && y.rcv.next > y.first + 1
    ensures Steps(y, ReAck, y1) && Steps(y1, DeliverAck(y.first + 1, now), y2)
    ensures y2.sent == y.sent && y2.snd.sendBase == y2.snd.txSeq == y.first + 2
    ensures y2.rcv.started && !WasDelivered(y2, y.first)
  {
    y1 := RepeatAck(y);
    y2 := AckArrives(y1, y.first + 1, now);
  }

  lemma SendStep(y: Sys, f: G.Frame, now: int) returns (y': Sys)
    requires Inv(y) && f.typ == 0x02
    ensures Steps(y, Send(f, now), y') && Inv(y')
    ensures y'.sent == y.sent + [f.payload] && y'.rcv == y.rcv && y'.arrived == y.arrived && y'.first == y.first
    ensures y'.snd.wire == y.snd.wire + [G.Sent(y.snd.txSeq, f)] && y'.snd.sendBase == y.snd.sendBase
  {
    y' := After(y, Send(f, now));
    SendInv(y, f, now);
  }

  lemma SecondOnly(y: Sys, first: nat) returns (b: seq<R.Packet>)
    requires |y.snd.wire| == 2 && y.snd.wire[1].seqNo == first + 1
    ensures b != [] && (forall k | 0 <= k < |b| :: b[k].seqNo == first + 1) && Enabled(y, DeliverFrames(b))
  {
    b := [R.Packet(first + 1, y.snd.wire[1].frame.payload)];
    assert OnWire(y.snd.wire, b[0]);
  }

  lemma FiveSteps(
      y0: Sys, e1: Event, y1: Sys, e2: Event, y2: Sys, e3: Event, y3: Sys, e4: Event, y4: Sys, e5: Event, y5: Sys)
    requires Steps(y0, e1, y1) && Steps(y1, e2, y2) && Steps(y2, e3, y3) && Steps(y3, e4, y4) && Steps(y4, e5, y5)
    ensures forall k: nat | k < 5 :: StepAt([y0, y1, y2, y3, y4, y5], [e1, e2, e3, e4, e5], k)
  {
    var ys, es := [y0, y1, y2, y3, y4, y5], [e1, e2, e3, e4, e5];
    forall k: nat | k < 5 ensures StepAt(ys, es, k) {
      assert k == 0 || k == 1 || k == 2 || k == 3 || k == 4;
    }
  }
}
