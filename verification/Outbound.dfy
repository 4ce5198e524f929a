/**
 * The sending half of pump (kalay/tunnelconn.go): queued writes become P2PTunnel chunks in a
 * byte buffer, which is cut into reliable frames while the congestion window has room.
 */
module Outbound {
  import opened Bytes
  import opened Framing
  import PTun
  import G = GoBackN

  datatype WriteReq = WriteReq(idx: byte, data: seq<byte>)

  /** maxFrame and sendWindow, both overridable and always positive. */
  datatype Limits = Limits(maxFrame: nat, sendWindow: nat)

  ghost predicate Positive(l: Limits) {
    l.maxFrame > 0 && l.sendWindow > 0
  }

  /** accepted, framed and data are histories: writes taken, data payloads sent, their numbers. */
  datatype State = State(
    sender: G.Sender,
    pending: seq<byte>,
    accepted: seq<WriteReq>,
    framed: seq<seq<byte>>,
    data: seq<nat>)

  /** The message a write is meant to be, and the chunk it is written as. */
  function AsMsg(w: WriteReq): (m: PTun.Msg)
  {
    PTun.Msg(PTun.DATA, w.idx, w.data)
  }

  function Chunk(w: WriteReq): (s: seq<byte>)
  {
    PTun.Encode(AsMsg(w))
  }

  function DataFrame(conn: byte, payload: seq<byte>): (f: G.Frame)
  {
    G.Frame(0x02, 0x01, conn, payload)
  }

  // --- steps ----------------------------------------------------------------------------------

  datatype Step =
    | Accept(w: WriteReq)                        // a write is taken from the queue
    | FrameOne(now: int)                         // the framing loop sends one frame
    | Control(payload: seq<byte>, now: int)      // a control payload bypasses buffer and window
    | Ack(ack: nat, ackedAt: int)
    | Tick(tickedAt: int)

  ghost predicate Enabled(o: State, l: Limits, st: Step) {
    match st
    case Accept(_) => |o.pending| < l.sendWindow * l.maxFrame
    case FrameOne(_) =>
      o.pending != [] && o.sender.txSeq - o.sender.sendBase < G.CwndFrames(o.sender.cwnd, l.sendWindow)
    case _ => true
  }

  ghost function After(o: State, l: Limits, conn: byte, st: Step): (o': State)
    requires o.sender.cwnd != 0.0
  {
    match st
    case Accept(w) => o.(pending := o.pending + Chunk(w), accepted := o.accepted + [w])
    case FrameOne(now) =>
      var n := Min(l.maxFrame, |o.pending|);
      o.(sender := G.AfterSend(o.sender, DataFrame(conn, o.pending[..n]), now),
         pending := o.pending[n..],
         framed := o.framed + [o.pending[..n]],
         data := o.data + [o.sender.txSeq])
    case Control(p, now) => o.(sender := G.AfterSend(o.sender, DataFrame(conn, p), now))
    case Ack(a, now) => o.(sender := G.AfterAck(o.sender, a, now))
    case Tick(now) => o.(sender := G.AfterTick(o.sender, now))
  }

  // --- what every step keeps ---------------------------------------------------------------------

  /** Sent data bytes followed by the buffer are the chunks of the accepted writes, in order. */
  ghost predicate Conserved(o: State) {
    Flatten(o.framed) + o.pending == EncodeAll(Chunk, o.accepted)
  }

  /** framed is what the data frames carried on the wire; no payload is empty or over maxFrame. */
  ghost predicate OnWire(o: State, l: Limits, conn: byte) {
    && |o.data| == |o.framed|
    && (forall k | 0 <= k < |o.data| ::
          && o.data[k] < o.sender.txSeq && 0 < |o.framed[k]| <= l.maxFrame
          && G.Sent(o.data[k], DataFrame(conn, o.framed[k])) in o.sender.wire)
    && (forall j, k | 0 <= j < k < |o.data| :: o.data[j] < o.data[k])
  }

  /** The unacknowledged data frames. */
  function Unacked(o: State): (s: set<nat>)
  {
    set q | q in o.data && q >= o.sender.sendBase
  }

  ghost predicate Inv(o: State, l: Limits, conn: byte) {
    && G.Inv(o.sender)
    && Conserved(o)
    && OnWire(o, l, conn)
    && |Unacked(o)| <= l.sendWindow
  }

  function Initial(txSeq: nat, now: int): (o: State)
  {
    State(G.Initial(txSeq, now), [], [], [], [])
  }

  lemma InitialInv(l: Limits, conn: byte, txSeq: nat, now: int)
    ensures Inv(Initial(txSeq, now), l, conn)
  {
    G.InitInv(txSeq, now);
    assert Unacked(Initial(txSeq, now)) == {};
  }

  lemma AcceptConserves(o: State, w: WriteReq)
    requires Conserved(o)
    ensures Conserved(o.(pending := o.pending + Chunk(w), accepted := o.accepted + [w]))
  {
    EncodeAllSnoc(Chunk, o.accepted, w);
    AppendAssoc(Flatten(o.framed), o.pending, Chunk(w));
  }

  lemma {:induction false} FrameConserves(framed: seq<seq<byte>>, pending: seq<byte>, n: nat)
    requires n <= |pending|
    ensures Flatten(framed + [pending[..n]]) + pending[n..] == Flatten(framed) + pending
  {
    FlattenSnoc(framed, pending[..n]);
    AppendAssoc(Flatten(framed), pending[..n], pending[n..]);
    assert pending[..n] + pending[n..] == pending;
  }

  lemma {:induction false} IntervalSize(s: set<nat>, lo: nat, hi: nat)
    requires lo <= hi && forall q | q in s :: lo <= q < hi
    ensures |s| <= hi - lo
    decreases hi - lo
  {
    if lo == hi {
      assert s == {};
    } else {
      IntervalSize(s - {hi - 1}, lo, hi - 1);
    }
  }

  lemma {:induction false} SubsetSize(a: set<nat>, b: set<nat>)
    requires a <= b
    ensures |a| <= |b|
  {
    if a != {} {
      var x :| x in a;
      SubsetSize(a - {x}, b - {x});
    }
  }

  lemma FrameInv(o: State, l: Limits, conn: byte, now: int)
    requires Inv(o, l, conn) && Positive(l) && Enabled(o, l, FrameOne(now))
    ensures Inv(After(o, l, conn, FrameOne(now)), l, conn)
  {
    var n := Min(l.maxFrame, |o.pending|);
    var o' := After(o, l, conn, FrameOne(now));
    G.SendInv(o.sender, DataFrame(conn, o.pending[..n]), now);
    FrameConserves(o.framed, o.pending, n);
    FrameOnWire(o, l, conn, now);
    forall q | q in Unacked(o') ensures o.sender.sendBase <= q < o.sender.txSeq + 1 {
      assert exists k :: 0 <= k < |o'.data| && o'.data[k] == q;
    }
    IntervalSize(Unacked(o'), o.sender.sendBase, o.sender.txSeq + 1);
  }

  lemma FrameOnWire(o: State, l: Limits, conn: byte, now: int)
    requires G.Inv(o.sender) && OnWire(o, l, conn) && Positive(l) && o.pending != []
    ensures OnWire(After(o, l, conn, FrameOne(now)), l, conn)
  {
    var n := Min(l.maxFrame, |o.pending|);
    var f := DataFrame(conn, o.pending[..n]);
    var wire := o.sender.wire + [G.Sent(o.sender.txSeq, f)];
    assert wire[|o.sender.wire|] == G.Sent(o.sender.txSeq, f);
    forall x | x in o.sender.wire ensures x in wire {
    }
  }

  /** A step that changes only the sender, forgets nothing on the wire and moves no sequence number back. */
  lemma SenderStepInv(o: State, l: Limits, conn: byte, s: G.Sender)
    requires Inv(o, l, conn) && G.Inv(s)
    requires o.sender.wire <= s.wire && o.sender.txSeq <= s.txSeq && o.sender.sendBase <= s.sendBase
    ensures Inv(o.(sender := s), l, conn)
  {
    forall x | x in o.sender.wire ensures x in s.wire {
      var k :| 0 <= k < |o.sender.wire| && o.sender.wire[k] == x;
      assert s.wire[k] == x;
    }
    SubsetSize(Unacked(o.(sender := s)), Unacked(o));
  }

  lemma AcceptInv(o: State, l: Limits, conn: byte, w: WriteReq)
    requires Inv(o, l, conn)
    ensures Inv(After(o, l, conn, Accept(w)), l, conn)
  {
    AcceptConserves(o, w);
    assert Unacked(After(o, l, conn, Accept(w))) == Unacked(o);
  }

  lemma ControlInv(o: State, l: Limits, conn: byte, payload: seq<byte>, now: int)
    requires Inv(o, l, conn)
    ensures Inv(After(o, l, conn, Control(payload, now)), l, conn)
  {
    G.SendInv(o.sender, DataFrame(conn, payload), now);
    SenderStepInv(o, l, conn, G.AfterSend(o.sender, DataFrame(conn, payload), now));
  }

  lemma AckInv(o: State, l: Limits, conn: byte, ack: nat, now: int)
    requires Inv(o, l, conn)
    ensures Inv(After(o, l, conn, Ack(ack, now)), l, conn)
  {
    G.AckInv(o.sender, ack, now);
    SenderStepInv(o, l, conn, G.AfterAck(o.sender, ack, now));
  }

  lemma TickInv(o: State, l: Limits, conn: byte, now: int)
    requires Inv(o, l, conn)
    ensures Inv(After(o, l, conn, Tick(now)), l, conn)
  {
    G.TickInv(o.sender, now);
    SenderStepInv(o, l, conn, G.AfterTick(o.sender, now));
  }

  lemma StepInv(o: State, l: Limits, conn: byte, st: Step)
    requires Inv(o, l, conn) && Positive(l) && Enabled(o, l, st)
    ensures Inv(After(o, l, conn, st), l, conn)
  {
    match st
    case Accept(w) => AcceptInv(o, l, conn, w);
    case FrameOne(now) => FrameInv(o, l, conn, now);
    case Control(p, now) => ControlInv(o, l, conn, p, now);
    case Ack(a, now) => AckInv(o, l, conn, a, now);
    case Tick(now) => TickInv(o, l, conn, now);
  }

  /** A frame is full, or takes all that is pending. */
  lemma FrameGreedy(o: State, l: Limits, conn: byte, now: int)
    requires o.sender.cwnd != 0.0 && Positive(l) && Enabled(o, l, FrameOne(now))
    ensures var o' := After(o, l, conn, FrameOne(now));
            && |o'.framed| == |o.framed| + 1
            && var payload := o'.framed[|o.framed|];
               (|payload| == l.maxFrame || o'.pending == []) && |payload| <= l.maxFrame
               && payload + o'.pending == o.pending
  {
    var n := Min(l.maxFrame, |o.pending|);
    TakeDrop(o.pending, n);
  }

  // --- whole runs -----------------------------------------------------------------------------------

  /** One step. The window is never zero where the invariant holds. */
  ghost predicate Steps(o: State, st: Step, o': State, l: Limits, conn: byte) {
    o.sender.cwnd != 0.0 && Enabled(o, l, st) && o' == After(o, l, conn, st)
  }

  ghost predicate StepAt(states: seq<State>, steps: seq<Step>, l: Limits, conn: byte, k: nat) {
    k < |steps| && |states| == |steps| + 1 && Steps(states[k], steps[k], states[k + 1], l, conn)
  }

  /** Each next state is one enabled step on. */
  ghost predicate IsPath(states: seq<State>, steps: seq<Step>, l: Limits, conn: byte) {
    |states| == |steps| + 1 && forall k: nat | k < |steps| :: StepAt(states, steps, l, conn, k)
  }

  ghost predicate IsRun(states: seq<State>, steps: seq<Step>, l: Limits, conn: byte, txSeq: nat, t0: int) {
    IsPath(states, steps, l, conn) && states[0] == Initial(txSeq, t0)
  }

  /**
   * In every run, control sends included: the data payloads sent so far followed by the buffer
   * are the chunk encodings of the accepted writes in order, each payload is on the wire under
   * its own increasing number, and unacknowledged data frames never exceed sendWindow, however
   * the congestion window moves.
   */
  lemma {:induction false} OutboundConservation(
      states: seq<State>, steps: seq<Step>, l: Limits, conn: byte, txSeq: nat, t0: int, k: nat)
    requires Positive(l) && IsRun(states, steps, l, conn, txSeq, t0) && k <= |steps|
    ensures Inv(states[k], l, conn)
  {
    if k == 0 {
      InitialInv(l, conn, txSeq, t0);
    } else {
      OutboundConservation(states, steps, l, conn, txSeq, t0, k - 1);
      assert StepAt(states, steps, l, conn, k - 1);
      StepInv(states[k - 1], l, conn, steps[k - 1]);
    }
  }

  /** No write accepted is larger than this. */
  ghost predicate WritesUpTo(ws: seq<WriteReq>, max: nat) {
    forall k | 0 <= k < |ws| :: |ws[k].data| <= max
  }

  /** The buffer never holds more than a window of frames and one chunk. */
  lemma {:induction false} PendingBounded(
      states: seq<State>, steps: seq<Step>, l: Limits, conn: byte, txSeq: nat, t0: int, max: nat, k: nat)
    requires Positive(l) && IsRun(states, steps, l, conn, txSeq, t0) && k <= |steps|
    requires WritesUpTo(states[k].accepted, max)
    ensures |states[k].pending| < l.sendWindow * l.maxFrame + 4 + max
  {
    if k == 0 {
      WindowPositive(l);
    } else {
      assert StepAt(states, steps, l, conn, k - 1);
      PendingStep(states[k - 1], l, conn, steps[k - 1], max);
      if WritesUpTo(states[k - 1].accepted, max) {
        PendingBounded(states, steps, l, conn, txSeq, t0, max, k - 1);
      }
    }
  }

  lemma WindowPositive(l: Limits)
    requires Positive(l)
    ensures l.sendWindow * l.maxFrame > 0
  {
  }

  lemma PendingStep(o: State, l: Limits, conn: byte, st: Step, max: nat)
    requires o.sender.cwnd != 0.0 && Enabled(o, l, st) && WritesUpTo(After(o, l, conn, st).accepted, max)
    ensures WritesUpTo(o.accepted, max)
    ensures var o' := After(o, l, conn, st);
            if st.Accept? then |o'.pending| < l.sendWindow * l.maxFrame + 4 + max else |o'.pending| <= |o.pending|
  {
    var o' := After(o, l, conn, st);
    if st.Accept? {
      assert o'.accepted[|o.accepted|] == st.w;
      PTun.EncodedBytes(AsMsg(st.w));
      forall k | 0 <= k < |o.accepted| ensures |o.accepted[k].data| <= max {
        assert o'.accepted[k] == o.accepted[k];
      }
    }
  }

  // --- what the peer reads --------------------------------------------------------------------------------

  function AsMsgs(ws: seq<WriteReq>): (ms: seq<PTun.Msg>)
    ensures |ms| == |ws| && forall k | 0 <= k < |ws| :: ms[k] == AsMsg(ws[k])
  {
    if ws == [] then [] else [AsMsg(ws[0])] + AsMsgs(ws[1..])
  }

  lemma {:induction false} ChunksAreMessages(ws: seq<WriteReq>)
    ensures EncodeAll(Chunk, ws) == EncodeAll(PTun.Encode, AsMsgs(ws))
  {
    if ws != [] {
      ChunksAreMessages(ws[1..]);
      assert AsMsgs(ws)[1..] == AsMsgs(ws[1..]);
    }
  }

  predicate Deliverable(w: WriteReq) {
    w.idx != 0 && 0 < |w.data| <= PTun.CHUNK_MAX
  }

  lemma {:induction false} DeliverableIffWellFormed(ws: seq<WriteReq>)
    ensures (forall k | 0 <= k < |ws| :: Deliverable(ws[k])) <==> forall m | m in AsMsgs(ws) :: PTun.WellFormed(m)
  {
    var ms := AsMsgs(ws);
    if forall k | 0 <= k < |ws| :: Deliverable(ws[k]) {
      forall m | m in ms ensures PTun.WellFormed(m) {
        var k :| 0 <= k < |ms| && ms[k] == m;
        assert Deliverable(ws[k]);
      }
    } else {
      var k :| 0 <= k < |ws| && !Deliverable(ws[k]);
      assert ms[k] in ms && ms[k] == AsMsg(ws[k]) && !PTun.WellFormed(ms[k]);
    }
  }

  /**
   * When everything accepted has been framed, the demultiplexer reads the data stream back as
   * exactly the writes, if and only if each is non-empty, at most CHUNK_MAX bytes and on a
   * nonzero channel: writeChan does not split larger writes.
   */
  lemma PeerReadsWritesIff(o: State, l: Limits, conn: byte)
    requires Inv(o, l, conn) && o.pending == []
    ensures Split(PTun.Scan, Flatten(o.framed)).msgs == AsMsgs(o.accepted)
       <==> forall k | 0 <= k < |o.accepted| :: Deliverable(o.accepted[k])
  {
    assert Flatten(o.framed) + [] == Flatten(o.framed);
    ChunksAreMessages(o.accepted);
    PTun.DemuxRoundTripIff(AsMsgs(o.accepted));
    DeliverableIffWellFormed(o.accepted);
  }

  /** One more step in front of a path. */
  lemma PathCons(o: State, st: Step, states: seq<State>, steps: seq<Step>, l: Limits, conn: byte)
    requires IsPath(states, steps, l, conn) && Steps(o, st, states[0], l, conn)
    ensures IsPath([o] + states, [st] + steps, l, conn)
  {
    forall k: nat | k < |steps| + 1 ensures StepAt([o] + states, [st] + steps, l, conn, k) {
      if k > 0 {
        assert StepAt(states, steps, l, conn, k - 1);
      }
    }
  }

  /** Whatever is pending can be framed: a path of ACKs and frames that ends with nothing pending. */
  lemma {:induction false} CanFrameAll(o: State, l: Limits, conn: byte, now: int)
      returns (states: seq<State>, steps: seq<Step>)
    requires Inv(o, l, conn) && Positive(l)
    ensures IsPath(states, steps, l, conn) && states[0] == o
    ensures var o' := states[|steps|]; Inv(o', l, conn) && o'.pending == [] && o'.accepted == o.accepted
    decreases |o.pending|, o.sender.txSeq - o.sender.sendBase
  {
    if o.pending == [] {
      states, steps := [o], [];
    } else {
      var st, o' := FrameOrAck(o, l, conn, now);
      states, steps := CanFrameAll(o', l, conn, now);
      PathCons(o, st, states, steps, l, conn);
      states, steps := [o] + states, [st] + steps;
    }
  }

  /** Frames if the window has room, and acknowledges everything otherwise. */
  lemma FrameOrAck(o: State, l: Limits, conn: byte, now: int) returns (st: Step, o': State)
    requires Inv(o, l, conn) && Positive(l) && o.pending != []
    ensures Steps(o, st, o', l, conn) && Inv(o', l, conn) && o'.accepted == o.accepted
    ensures |o'.pending| < |o.pending| ||
            (o'.pending == o.pending && o'.sender.txSeq - o'.sender.sendBase < o.sender.txSeq - o.sender.sendBase)
  {
    st := if Enabled(o, l, FrameOne(now)) then FrameOne(now) else Ack(o.sender.txSeq - 1, now);
    o' := After(o, l, conn, st);
    StepInv(o, l, conn, st);
    if st.Ack? {
      G.AckTransmits(o.sender, o.sender.txSeq - 1, now);
    }
  }

  /**
   * Any write that is not deliverable is misread: whatever the frame size and the window, a run
   * that accepts it and frames all of it leaves a stream the demultiplexer does not read back as
   * that write.
   */
  lemma MisreadWrite(w: WriteReq, l: Limits, conn: byte, txSeq: nat, t0: int)
      returns (states: seq<State>, steps: seq<Step>)
    requires !Deliverable(w) && Positive(l)
    ensures IsRun(states, steps, l, conn, txSeq, t0)
    ensures var o := states[|steps|];
            o.pending == [] && o.accepted == [w] && Split(PTun.Scan, Flatten(o.framed)).msgs != AsMsgs([w])
  {
    var o0 := Initial(txSeq, t0);
    InitialInv(l, conn, txSeq, t0);
    var o1 := After(o0, l, conn, Accept(w));
    StepInv(o0, l, conn, Accept(w));
    var path, rest := CanFrameAll(o1, l, conn, t0);
    PathCons(o0, Accept(w), path, rest, l, conn);
    states, steps := [o0] + path, [Accept(w)] + rest;
    var o := states[|steps|];
    assert o == path[|rest|] && o.accepted == [w] && !Deliverable(o.accepted[0]);
    PeerReadsWritesIff(o, l, conn);
  }

  // --- the loops of pump ---------------------------------------------------------------------------------------

  class Pump {
    const tunnel: G.Tunnel
    const limits: Limits
    const conn: byte
    var pending: seq<byte>
    ghost var accepted: seq<WriteReq>
    ghost var framed: seq<seq<byte>>
    ghost var data: seq<nat>

    ghost function View(): (o: State)
      reads this, tunnel
    {
      State(tunnel.State(), pending, accepted, framed, data)
    }

    ghost predicate Valid()
      reads this, tunnel
    {
      Positive(limits) && Inv(View(), limits, conn)
    }

    constructor (limits: Limits, conn: byte, txSeq: nat, now: int)
      requires Positive(limits)
      ensures Valid() && fresh(tunnel) && View() == Initial(txSeq, now)
    {
      this.limits := limits;
      this.conn := conn;
      tunnel := new G.Tunnel(txSeq, now);
      pending, accepted, framed, data := [], [], [], [];
      new;
      InitialInv(limits, conn, txSeq, now);
    }

    /** Takes queued writes while the buffer is below about one window; returns how many. */
    method AcceptWrites(queue: seq<WriteReq>) returns (n: nat)
      requires Valid()
      modifies this
      ensures Valid() && n <= |queue| && accepted == old(accepted) + queue[..n]
      ensures framed == old(framed) && data == old(data)
      ensures n < |queue| ==> |pending| >= limits.sendWindow * limits.maxFrame
    {
      n := 0;
      while |pending| < limits.sendWindow * limits.maxFrame && n < |queue|
        invariant Valid() && n <= |queue| && accepted == old(accepted) + queue[..n]
        invariant framed == old(framed) && data == old(data)
        decreases |queue| - n
      {
        AcceptOne(queue[n]);
        assert queue[..n + 1] == queue[..n] + [queue[n]];
        n := n + 1;
      }
    }

    /** Appends the chunk header and then the data. */
    method AcceptOne(w: WriteReq)
      requires Valid() && Enabled(View(), limits, Accept(w))
      modifies this
      ensures Valid() && View() == After(old(View()), limits, conn, Accept(w))
    {
      StepInv(View(), limits, conn, Accept(w));
      var header := [PTun.DATA, w.idx] + LeBytes(|w.data|, 2);
      AppendAssoc(pending, header, w.data);
      pending := pending + header;
      pending := pending + w.data;
      accepted := accepted + [w];
    }

    /** Cuts the buffer into frames until it is empty or the congestion window is full. */
    method FrameStream(now: int)
      requires Valid()
      modifies this, tunnel
      ensures Valid() && accepted == old(accepted)
      ensures pending == [] || tunnel.txSeq - tunnel.sendBase >= G.CwndFrames(tunnel.cwnd, limits.sendWindow)
      ensures tunnel.sendBase == old(tunnel.sendBase) && tunnel.cwnd == old(tunnel.cwnd)
      ensures old(framed) <= framed && old(data) <= data
    {
      while |pending| > 0 && tunnel.txSeq - tunnel.sendBase < tunnel.WindowFrames(limits.sendWindow)
        invariant Valid() && accepted == old(accepted)
        invariant tunnel.sendBase == old(tunnel.sendBase) && tunnel.cwnd == old(tunnel.cwnd)
        invariant old(framed) <= framed && old(data) <= data
        decreases |pending|
      {
        FrameOnce(now);
      }
    }

    method FrameOnce(now: int)
      requires Valid() && Enabled(View(), limits, FrameOne(now))
      modifies this, tunnel
      ensures Valid() && View() == After(old(View()), limits, conn, FrameOne(now))
    {
      StepInv(View(), limits, conn, FrameOne(now));
      var n := Min(limits.maxFrame, |pending|);
      var payload := pending[..n];
      data := data + [tunnel.txSeq];
      tunnel.SendReliable(DataFrame(conn, payload), now);
      framed := framed + [payload];
      pending := pending[n..];
    }
  }
}
