/**
 * The whole path of a write: the sending half of pump queues, chunks and frames it, the lossy
 * network carries the frames and the ACKs, and the receiving half of pump reassembles,
 * acknowledges and demultiplexes. Control messages bypass the queue and the window and may go
 * out at any moment, in the middle of a chunk too.
 */
module EndToEnd {
  import opened Bytes
  import opened Framing
  import PTun
  import R = Reassembler
  import G = GoBackN
  import O = Outbound
  import T = TwoParty

  /**
   * The sender is part of both halves. stream is the history of messages in the order they are
   * meant to be read: a control message belongs behind the message it was sent in the middle of.
   */
  datatype State = State(out: O.State, net: T.Sys, stream: seq<PTun.Msg>)

  datatype Event =
    | Accept(w: O.WriteReq)                          // a write is taken from the queue
    | FrameOne(now: int)                             // the framing loop sends one frame
    | Control(m: PTun.Msg, cut: nat, sentAt: int)    // a control message goes out; cut messages were begun
    | Network(e: T.Event)                            // a delivery, a timer or a repeated ACK

  function Initial(first: nat, t0: int): (s: State)
  {
    State(O.Initial(first, t0), T.Initial(first, t0), [])
  }

  /** The frame the framing loop sends next. */
  function NextFrame(o: O.State, l: O.Limits, conn: byte): (f: G.Frame)
  {
    O.DataFrame(conn, o.pending[..Min(l.maxFrame, |o.pending|)])
  }

  /** What an event is to the network. */
  function Act(s: State, l: O.Limits, conn: byte, e: Event): (a: T.Event)
  {
    match e
    case Accept(_) => T.Idle
    case FrameOne(now) => T.Send(NextFrame(s.out, l, conn), now)
    case Control(m, _, now) => T.Send(O.DataFrame(conn, PTun.Encode(m)), now)
    case Network(n) => n
  }

  ghost predicate Steps(s: State, l: O.Limits, conn: byte, e: Event, s': State) {
    && T.Steps(s.net, Act(s, l, conn, e), s'.net)
    && match e
       case Accept(w) => Accepts(s, l, conn, w, s')
       case FrameOne(now) => Frames(s, l, conn, now, s')
       case Control(m, cut, now) => Inserts(s, l, conn, m, cut, now, s')
       case Network(n) => !n.Send? && s' == Moved(s, s'.net)
  }

  function Moved(s: State, net: T.Sys): (s': State)
  {
    s.(out := s.out.(sender := net.snd), net := net)
  }

  ghost predicate Accepts(s: State, l: O.Limits, conn: byte, w: O.WriteReq, s': State) {
    && s.out.sender.cwnd != 0.0 && O.Enabled(s.out, l, O.Accept(w))
    && s'.out == O.After(s.out, l, conn, O.Accept(w)) && s'.stream == s.stream + [O.AsMsg(w)]
  }

  ghost predicate Frames(s: State, l: O.Limits, conn: byte, now: int, s': State) {
    && s.out.sender.cwnd != 0.0 && O.Enabled(s.out, l, O.FrameOne(now))
    && s'.out == O.After(s.out, l, conn, O.FrameOne(now)) && s'.stream == s.stream
  }

  /** A control message the demultiplexer knows is sent when exactly cut messages have been begun. */
  ghost predicate Inserts(s: State, l: O.Limits, conn: byte, m: PTun.Msg, cut: nat, now: int, s': State) {
    && m.typ != PTun.DATA && PTun.WellFormed(m) && Begun(s.stream, |Flatten(s.net.sent)|, cut)
    && s.out.sender.cwnd != 0.0 && s'.out == O.After(s.out, l, conn, O.Control(PTun.Encode(m), now))
    && s'.stream == s.stream[..cut] + [m] + s.stream[cut..]
  }

  /** The first n bytes of the stream end in, or at the end of, its message number cut - 1. */
  ghost predicate Begun(stream: seq<PTun.Msg>, n: nat, cut: nat) {
    && cut <= |stream| && n <= |EncodeAll(PTun.Encode, stream[..cut])|
    && (cut > 0 ==> |EncodeAll(PTun.Encode, stream[..cut - 1])| < n)
  }

  lemma {:induction false} CutExists(stream: seq<PTun.Msg>, n: nat) returns (cut: nat)
    requires n <= |EncodeAll(PTun.Encode, stream)|
    ensures Begun(stream, n, cut)
  {
    if stream == [] {
      cut := 0;
    } else {
      var front := stream[..|stream| - 1];
      if n <= |EncodeAll(PTun.Encode, front)| {
        cut := CutExists(front, n);
        assert stream[..cut] == front[..cut];
        assert cut > 0 ==> stream[..cut - 1] == front[..cut - 1];
      } else {
        cut := |stream|;
        assert stream[..cut] == stream;
      }
    }
  }

  // --- data among control ---------------------------------------------------------------------------

  /** The data chunks among the messages. */
  function DataOf(ms: seq<PTun.Msg>): (ds: seq<PTun.Msg>)
  {
    if ms == [] then [] else (if ms[0].typ == PTun.DATA then [ms[0]] else []) + DataOf(ms[1..])
  }

  lemma {:induction false} DataOfCons(m: PTun.Msg, ms: seq<PTun.Msg>)
    ensures DataOf([m] + ms) == if m.typ == PTun.DATA then [m] + DataOf(ms) else DataOf(ms)
  {
    assert ([m] + ms)[1..] == ms;
  }

  lemma {:induction false} DataOfAppend(a: seq<PTun.Msg>, b: seq<PTun.Msg>)
    ensures DataOf(a + b) == DataOf(a) + DataOf(b)
  {
    if a == [] {
      assert a + b == b;
    } else {
      DataOfAppend(a[1..], b);
      DataOfConsAppend(a[0], a[1..], b);
      assert a == [a[0]] + a[1..];
    }
  }

  lemma {:induction false} DataOfConsAppend(m: PTun.Msg, rest: seq<PTun.Msg>, b: seq<PTun.Msg>)
    requires DataOf(rest + b) == DataOf(rest) + DataOf(b)
    ensures DataOf(([m] + rest) + b) == DataOf([m] + rest) + DataOf(b)
  {
    AppendAssoc([m], rest, b);
    DataOfCons(m, rest + b);
    DataOfCons(m, rest);
    AppendAssoc([m], DataOf(rest), DataOf(b));
  }

  lemma DataOfOne(m: PTun.Msg)
    ensures DataOf([m]) == if m.typ == PTun.DATA then [m] else []
  {
    assert DataOf([m]) == (if m.typ == PTun.DATA then [m] else []) + DataOf([]);
  }

  lemma {:induction false} DataOfHas(ms: seq<PTun.Msg>, m: PTun.Msg)
    requires m in ms && m.typ == PTun.DATA
    ensures m in DataOf(ms)
  {
    if m != ms[0] {
      DataOfHas(ms[1..], m);
    }
  }

  lemma {:induction false} DataOfPrefix(a: seq<PTun.Msg>, b: seq<PTun.Msg>)
    requires a <= b
    ensures DataOf(a) <= DataOf(b)
  {
    assert b == a + b[|a|..];
    DataOfAppend(a, b[|a|..]);
  }

  /** The control messages among them are well-formed. */
  ghost predicate ControlsKnown(ms: seq<PTun.Msg>) {
    forall m | m in ms && m.typ != PTun.DATA :: PTun.WellFormed(m)
  }

  // --- what every step keeps ------------------------------------------------------------------------

  /** The bytes sent, and those to be sent if nothing overtakes them. */
  function Wire(s: State): (bytes: seq<byte>)
  {
    Flatten(s.net.sent) + s.out.pending
  }

  /** They are the encoding of the stream. */
  ghost predicate Spelled(s: State) {
    Wire(s) == EncodeAll(PTun.Encode, s.stream)
  }

  /** The stream is as long as its bytes, its data chunks are the accepted writes, and its controls are known. */
  ghost predicate Carried(wire: seq<byte>, stream: seq<PTun.Msg>, accepted: seq<O.WriteReq>) {
    && |wire| == |EncodeAll(PTun.Encode, stream)|
    && DataOf(stream) == O.AsMsgs(accepted)
    && ControlsKnown(stream)
  }

  ghost predicate NoneEmpty(sent: seq<seq<byte>>) {
    forall k | 0 <= k < |sent| :: sent[k] != []
  }

  ghost predicate Inv(s: State) {
    && T.Inv(s.net) && s.out.sender == s.net.snd && NoneEmpty(s.net.sent)
    && Carried(Wire(s), s.stream, s.out.accepted)
  }

  lemma InitialInv(first: nat, t0: int)
    ensures Inv(Initial(first, t0)) && Spelled(Initial(first, t0))
  {
    T.InitialInv(first, t0);
  }

  lemma {:induction false} AsMsgsSnoc(ws: seq<O.WriteReq>, w: O.WriteReq)
    ensures O.AsMsgs(ws + [w]) == O.AsMsgs(ws) + [O.AsMsg(w)]
  {
  }

  lemma {:induction false} AcceptCarries(
      wire: seq<byte>, stream: seq<PTun.Msg>, accepted: seq<O.WriteReq>, w: O.WriteReq)
    requires Carried(wire, stream, accepted)
    ensures Carried(wire + O.Chunk(w), stream + [O.AsMsg(w)], accepted + [w])
    ensures wire + O.Chunk(w) == EncodeAll(PTun.Encode, stream + [O.AsMsg(w)])
       <==> wire == EncodeAll(PTun.Encode, stream)
  {
    EncodeAllSnoc(PTun.Encode, stream, O.AsMsg(w));
    CancelEnds([], wire, EncodeAll(PTun.Encode, stream), O.Chunk(w));
    DataOfAppend(stream, [O.AsMsg(w)]);
    DataOfOne(O.AsMsg(w));
    AsMsgsSnoc(accepted, w);
  }

  /** Putting a control message among the messages, at the place it is meant to be read. */
  lemma {:induction false} ControlCarries(
      wire: seq<byte>, wire': seq<byte>, a: seq<PTun.Msg>, b: seq<PTun.Msg>, accepted: seq<O.WriteReq>, m: PTun.Msg)
    requires Carried(wire, a + b, accepted) && |wire'| == |wire| + |PTun.Encode(m)|
    requires m.typ != PTun.DATA && PTun.WellFormed(m)
    ensures Carried(wire', a + [m] + b, accepted)
  {
    EncodeAllAppend(PTun.Encode, a, b);
    EncodeAllAppend(PTun.Encode, a + [m], b);
    EncodeAllSnoc(PTun.Encode, a, m);
    DataOfAppend(a, b);
    DataOfAppend(a + [m], b);
    DataOfAppend(a, [m]);
    DataOfOne(m);
    assert DataOf(a) + [] == DataOf(a);
    forall x | x in a + [m] + b && x.typ != PTun.DATA ensures PTun.WellFormed(x) {
      assert x == m || x in a + b;
    }
  }

  lemma {:induction false} ControlCarriesAt(
      wire: seq<byte>, wire': seq<byte>, stream: seq<PTun.Msg>, cut: nat, accepted: seq<O.WriteReq>, m: PTun.Msg)
    requires Carried(wire, stream, accepted) && |wire'| == |wire| + |PTun.Encode(m)| && cut <= |stream|
    requires m.typ != PTun.DATA && PTun.WellFormed(m)
    ensures Carried(wire', stream[..cut] + [m] + stream[cut..], accepted)
  {
    TakeDrop(stream, cut);
    ControlCarries(wire, wire', stream[..cut], stream[cut..], accepted, m);
  }

  lemma AcceptInv(s: State, l: O.Limits, conn: byte, w: O.WriteReq, s': State)
    requires Inv(s) && Steps(s, l, conn, Accept(w), s')
    ensures Inv(s') && Wire(s') == Wire(s) + O.Chunk(w)
  {
    T.IdleKeeps(s.net, s'.net);
    AppendAssoc(Flatten(s.net.sent), s.out.pending, O.Chunk(w));
    AcceptCarries(Wire(s), s.stream, s.out.accepted, w);
  }

  lemma FrameInv(s: State, l: O.Limits, conn: byte, now: int, s': State)
    requires Inv(s) && O.Positive(l) && Steps(s, l, conn, FrameOne(now), s')
    ensures Inv(s') && Wire(s') == Wire(s)
  {
    SendNet(s.net, NextFrame(s.out, l, conn), now, s'.net);
    O.FrameConserves(s.net.sent, s.out.pending, Min(l.maxFrame, |s.out.pending|));
  }

  lemma ControlInv(s: State, l: O.Limits, conn: byte, m: PTun.Msg, cut: nat, now: int, s': State)
    requires Inv(s) && Steps(s, l, conn, Control(m, cut, now), s')
    ensures Inv(s') && Wire(s') == Flatten(s.net.sent) + PTun.Encode(m) + s.out.pending
  {
    SendNet(s.net, O.DataFrame(conn, PTun.Encode(m)), now, s'.net);
    FlattenSnoc(s.net.sent, PTun.Encode(m));
    ControlCarriesAt(Wire(s), Wire(s'), s.stream, cut, s.out.accepted, m);
  }

  /** A frame with bytes in it goes out. */
  lemma SendNet(y: T.Sys, f: G.Frame, now: int, y': T.Sys)
    requires T.Inv(y) && NoneEmpty(y.sent) && f.payload != [] && T.Steps(y, T.Send(f, now), y')
    ensures T.Inv(y') && y'.first == y.first && y'.snd == G.AfterSend(y.snd, f, now) && y'.rcv == y.rcv
    ensures y'.sent == y.sent + [f.payload] && NoneEmpty(y'.sent)
  {
    T.StepsInv(y, T.Send(f, now), y');
  }

  lemma NetworkInv(s: State, l: O.Limits, conn: byte, n: T.Event, s': State)
    requires Inv(s) && Steps(s, l, conn, Network(n), s')
    ensures Inv(s') && Wire(s') == Wire(s)
  {
    T.StepsInv(s.net, n, s'.net);
    T.SentKept(s.net, n, s'.net);
  }

  lemma StepInv(s: State, l: O.Limits, conn: byte, e: Event, s': State)
    requires Inv(s) && O.Positive(l) && Steps(s, l, conn, e, s')
    ensures Inv(s')
  {
    match e
    case Accept(w) => AcceptInv(s, l, conn, w, s');
    case FrameOne(now) => FrameInv(s, l, conn, now, s');
    case Control(m, cut, now) => ControlInv(s, l, conn, m, cut, now, s');
    case Network(n) => NetworkInv(s, l, conn, n, s');
  }

  lemma StepFirst(s: State, l: O.Limits, conn: byte, e: Event, s': State)
    requires Inv(s) && Steps(s, l, conn, e, s')
    ensures s'.net.first == s.net.first
  {
    T.StepsInv(s.net, Act(s, l, conn, e), s'.net);
  }

  // --- when the bytes stay the encoding of the stream --------------------------------------------------

  /** What a control message sent now overtakes: the rest of the message being sent. */
  function Overtaken(s: State, cut: nat): (rest: seq<byte>)
    requires Begun(s.stream, |Flatten(s.net.sent)|, cut)
  {
    EncodeAll(PTun.Encode, s.stream[..cut])[|Flatten(s.net.sent)|..]
  }

  /** Not a control send, or one whose bytes commute with those they overtake. */
  ghost predicate Harmless(s: State, e: Event) {
    e.Control? ==>
      && Begun(s.stream, |Flatten(s.net.sent)|, e.cut)
      && PTun.Encode(e.m) + Overtaken(s, e.cut) == Overtaken(s, e.cut) + PTun.Encode(e.m)
  }

  /** Between two messages nothing is overtaken. */
  lemma HarmlessAtBoundary(s: State, e: Event)
    requires e.Control? && Begun(s.stream, |Flatten(s.net.sent)|, e.cut)
    requires |EncodeAll(PTun.Encode, s.stream[..e.cut])| == |Flatten(s.net.sent)|
    ensures Harmless(s, e)
  {
    assert Overtaken(s, e.cut) == [];
  }

  /** A stream that is the encoding of its messages stays so exactly over harmless events. */
  lemma SpelledIff(s: State, l: O.Limits, conn: byte, e: Event, s': State)
    requires Inv(s) && O.Positive(l) && Steps(s, l, conn, e, s') && Spelled(s)
    ensures Spelled(s') <==> Harmless(s, e)
  {
    if e.Control? {
      ControlInv(s, l, conn, e.m, e.cut, e.sentAt, s');
      ControlSpelledIff(s, e.m, e.cut);
    } else {
      SpelledKept(s, l, conn, e, s');
    }
  }

  lemma {:induction false} ControlSpelledIff(s: State, m: PTun.Msg, cut: nat)
    requires Spelled(s) && Begun(s.stream, |Flatten(s.net.sent)|, cut)
    ensures var rest := Overtaken(s, cut);
            Flatten(s.net.sent) + PTun.Encode(m) + s.out.pending
            == EncodeAll(PTun.Encode, s.stream[..cut] + [m] + s.stream[cut..])
            <==> PTun.Encode(m) + rest == rest + PTun.Encode(m)
  {
    var begun, after := s.stream[..cut], s.stream[cut..];
    var rest := Overtaken(s, cut);
    assert s.stream == begun + after;
    EncodeAllAppend(PTun.Encode, begun, after);
    CutBytes(Flatten(s.net.sent), s.out.pending, EncodeAll(PTun.Encode, begun), EncodeAll(PTun.Encode, after));
    OvertakenIff(PTun.Encode, begun, Flatten(s.net.sent), rest, m, after);
  }

  lemma CutBytes(sent: seq<byte>, pending: seq<byte>, begun: seq<byte>, after: seq<byte>)
    requires sent + pending == begun + after && |sent| <= |begun|
    ensures begun == sent + begun[|sent|..] && pending == begun[|sent|..] + after
  {
    assert sent == (sent + pending)[..|sent|] == begun[..|sent|];
    assert pending == (sent + pending)[|sent|..] == (begun + after)[|sent|..];
  }

  /** Without a control send it makes no difference to whether the bytes are the encoding. */
  lemma SpelledKept(s: State, l: O.Limits, conn: byte, e: Event, s': State)
    requires Inv(s) && O.Positive(l) && Steps(s, l, conn, e, s') && !e.Control?
    ensures Spelled(s') <==> Spelled(s)
  {
    match e
    case Accept(w) =>
      AcceptInv(s, l, conn, w, s');
      AcceptCarries(Wire(s), s.stream, s.out.accepted, w);
    case FrameOne(now) => FrameInv(s, l, conn, now, s');
    case Network(n) => NetworkInv(s, l, conn, n, s');
  }

  // --- paths and runs -------------------------------------------------------------------------------

  ghost predicate StepAt(ss: seq<State>, es: seq<Event>, l: O.Limits, conn: byte, k: nat) {
    k < |es| && |ss| == |es| + 1 && Steps(ss[k], l, conn, es[k], ss[k + 1])
  }

  ghost predicate IsPath(ss: seq<State>, es: seq<Event>, l: O.Limits, conn: byte) {
    |ss| == |es| + 1 && forall k: nat | k < |es| :: StepAt(ss, es, l, conn, k)
  }

  ghost predicate IsRun(ss: seq<State>, es: seq<Event>, l: O.Limits, conn: byte, first: nat, t0: int) {
    O.Positive(l) && IsPath(ss, es, l, conn) && ss[0] == Initial(first, t0)
  }

  /** The invariant holds k steps into a path. */
  ghost predicate HoldsAt(ss: seq<State>, k: nat) {
    k < |ss| && Inv(ss[k])
  }

  lemma NextHolds(ss: seq<State>, es: seq<Event>, l: O.Limits, conn: byte, k: nat)
    requires O.Positive(l) && IsPath(ss, es, l, conn) && k < |es| && HoldsAt(ss, k)
    ensures HoldsAt(ss, k + 1)
  {
    assert StepAt(ss, es, l, conn, k);
    StepInv(ss[k], l, conn, es[k], ss[k + 1]);
  }

  lemma {:induction false} PathInv(ss: seq<State>, es: seq<Event>, l: O.Limits, conn: byte, k: nat)
    requires O.Positive(l) && IsPath(ss, es, l, conn) && HoldsAt(ss, 0) && k <= |es|
    ensures HoldsAt(ss, k)
  {
    if k > 0 {
      PathInv(ss, es, l, conn, k - 1);
      NextHolds(ss, es, l, conn, k - 1);
    }
  }

  lemma RunInv(ss: seq<State>, es: seq<Event>, l: O.Limits, conn: byte, first: nat, t0: int, k: nat)
    requires IsRun(ss, es, l, conn, first, t0) && k <= |es|
    ensures HoldsAt(ss, k)
  {
    InitialInv(first, t0);
    PathInv(ss, es, l, conn, k);
  }

  /** The network's part of a run, event by event. */
  ghost function Nets(ss: seq<State>): (ys: seq<T.Sys>)
    ensures |ys| == |ss| && forall k | 0 <= k < |ss| :: ys[k] == ss[k].net
  {
    seq(|ss|, k requires 0 <= k < |ss| => ss[k].net)
  }

  ghost function Acts(ss: seq<State>, es: seq<Event>, l: O.Limits, conn: byte): (as': seq<T.Event>)
    requires |ss| == |es| + 1
    ensures |as'| == |es| && forall k | 0 <= k < |es| :: as'[k] == Act(ss[k], l, conn, es[k])
  {
    seq(|es|, k requires 0 <= k < |es| => Act(ss[k], l, conn, es[k]))
  }

  lemma NetworkRun(ss: seq<State>, es: seq<Event>, l: O.Limits, conn: byte, first: nat, t0: int)
    requires IsRun(ss, es, l, conn, first, t0)
    ensures T.IsRun(Nets(ss), Acts(ss, es, l, conn), first, t0)
  {
    forall k: nat | k < |es| ensures T.StepAt(Nets(ss), Acts(ss, es, l, conn), k) {
      assert StepAt(ss, es, l, conn, k);
    }
  }

  lemma RunFirst(ss: seq<State>, es: seq<Event>, l: O.Limits, conn: byte, first: nat, t0: int, k: nat)
    requires IsRun(ss, es, l, conn, first, t0) && k <= |es|
    ensures ss[k].net.first == first
  {
    NetworkRun(ss, es, l, conn, first, t0);
    T.RunInv(Nets(ss), Acts(ss, es, l, conn), first, t0, k);
  }

  /** While every control send was harmless, the bytes on their way are the encoding of the stream. */
  lemma {:induction false} RunSpelled(
      ss: seq<State>, es: seq<Event>, l: O.Limits, conn: byte, first: nat, t0: int, k: nat)
    requires IsRun(ss, es, l, conn, first, t0) && k <= |es| && forall i: nat | i < k :: Harmless(ss[i], es[i])
    ensures Spelled(ss[k])
  {
    if k == 0 {
      InitialInv(first, t0);
    } else {
      RunSpelled(ss, es, l, conn, first, t0, k - 1);
      RunInv(ss, es, l, conn, first, t0, k - 1);
      assert StepAt(ss, es, l, conn, k - 1);
      SpelledIff(ss[k - 1], l, conn, es[k - 1], ss[k]);
    }
  }

  /** Nothing but control sends can change whether they are. */
  lemma {:induction false} SpelledBetween(
      ss: seq<State>, es: seq<Event>, l: O.Limits, conn: byte, first: nat, t0: int, i: nat, j: nat)
    requires IsRun(ss, es, l, conn, first, t0) && i <= j <= |es| && forall k | i <= k < j :: !es[k].Control?
    ensures Spelled(ss[j]) <==> Spelled(ss[i])
  {
    if i < j {
      SpelledBetween(ss, es, l, conn, first, t0, i, j - 1);
      SpelledOver(ss, es, l, conn, first, t0, j - 1);
    }
  }

  lemma {:induction false} SpelledOver(
      ss: seq<State>, es: seq<Event>, l: O.Limits, conn: byte, first: nat, t0: int, k: nat)
    requires IsRun(ss, es, l, conn, first, t0) && k < |es| && !es[k].Control?
    ensures Spelled(ss[k + 1]) <==> Spelled(ss[k])
  {
    RunInv(ss, es, l, conn, first, t0, k);
    assert StepAt(ss, es, l, conn, k);
    SpelledKept(ss[k], l, conn, es[k], ss[k + 1]);
  }

  // --- what the peer reads --------------------------------------------------------------------------

  ghost predicate AllDeliverable(ws: seq<O.WriteReq>) {
    forall i | 0 <= i < |ws| :: O.Deliverable(ws[i])
  }

  lemma {:induction false} StreamWellFormed(stream: seq<PTun.Msg>, ws: seq<O.WriteReq>)
    requires DataOf(stream) == O.AsMsgs(ws) && ControlsKnown(stream) && AllDeliverable(ws)
    ensures forall m | m in stream :: PTun.WellFormed(m)
  {
    O.DeliverableIffWellFormed(ws);
    forall m | m in stream ensures PTun.WellFormed(m) {
      if m.typ == PTun.DATA {
        DataOfHas(stream, m);
      }
    }
  }

  /**
   * End to end, in every run over the lossy network in which the receiver started at the first
   * frame and every control send was harmless: if the accepted writes are non-empty, at most
   * CHUNK_MAX bytes and on nonzero channels, then what the peer has routed is a prefix of the
   * messages sent, and the data chunks in it are a prefix of the writes, in order and once each.
   */
  lemma {:induction false} WritesAreRead(
      ss: seq<State>, es: seq<Event>, l: O.Limits, conn: byte, first: nat, t0: int, k: nat)
    requires IsRun(ss, es, l, conn, first, t0) && k <= |es| && forall i: nat | i < k :: Harmless(ss[i], es[i])
    requires ss[k].net.rcv.started && ss[k].net.rcv.recv.base == first && AllDeliverable(ss[k].out.accepted)
    ensures var s := ss[k];
            s.net.rcv.routed <= s.stream && DataOf(s.net.rcv.routed) <= O.AsMsgs(s.out.accepted)
  {
    RunInv(ss, es, l, conn, first, t0, k);
    RunFirst(ss, es, l, conn, first, t0, k);
    RunSpelled(ss, es, l, conn, first, t0, k);
    ReadAt(ss[k]);
  }

  lemma {:induction false} ReadAt(s: State)
    requires Inv(s) && Spelled(s) && s.net.rcv.started && s.net.rcv.recv.base == s.net.first
    requires AllDeliverable(s.out.accepted)
    ensures s.net.rcv.routed <= s.stream && DataOf(s.net.rcv.routed) <= O.AsMsgs(s.out.accepted)
  {
    StreamWellFormed(s.stream, s.out.accepted);
    T.MessagesArriveInOrder(s.net, s.out.pending, s.stream);
    DataOfPrefix(s.net.rcv.routed, s.stream);
  }

  /**
   * Exactly when all of it is read: in every reachable state with nothing pending and nothing
   * unacknowledged, the peer has routed the messages as they were meant, if and only if it
   * started at the first frame and the bytes sent are the encoding of those messages.
   */
  lemma {:induction false} AllReadIff(
      ss: seq<State>, es: seq<Event>, l: O.Limits, conn: byte, first: nat, t0: int, k: nat)
    requires IsRun(ss, es, l, conn, first, t0) && k <= |es| && Measure(ss[k]) == 0
    requires ss[k].net.rcv.started && AllDeliverable(ss[k].out.accepted)
    ensures ss[k].net.rcv.routed == ss[k].stream <==> ss[k].net.rcv.recv.base == first && Spelled(ss[k])
  {
    RunInv(ss, es, l, conn, first, t0, k);
    RunFirst(ss, es, l, conn, first, t0, k);
    ReadIffAt(ss[k]);
  }

  lemma {:induction false} ReadIffAt(s: State)
    requires Inv(s) && Measure(s) == 0 && s.net.rcv.started && AllDeliverable(s.out.accepted)
    ensures s.net.rcv.routed == s.stream <==> s.net.rcv.recv.base == s.net.first && Spelled(s)
  {
    StreamWellFormed(s.stream, s.out.accepted);
    assert s.out.pending == [];
    assert Wire(s) == Flatten(s.net.sent);
    T.MessagesReadIff(s.net, s.stream);
    HeadIff(s.net.sent, s.net.rcv.recv.base - s.net.first, EncodeAll(PTun.Encode, s.stream));
  }

  /** A tail of the frames is as long as all of them only if it is all of them. */
  lemma {:induction false} HeadIff(sent: seq<seq<byte>>, n: nat, e: seq<byte>)
    requires NoneEmpty(sent) && n <= |sent| && |e| == |Flatten(sent)|
    ensures Flatten(sent[n..|sent|]) == e <==> n == 0 && Flatten(sent) == e
  {
    T.TailNotLonger(sent, n);
    if n > 0 {
      assert sent[..n][0] != [];
      assert Flatten(sent[..n]) == sent[..n][0] + Flatten(sent[..n][1..]);
    }
  }

  /**
   * Exactly which control send spoils the stream: when the one at c is the first that may not be
   * harmless and the last of all, and later everything was framed and acknowledged by a receiver
   * that started at the first frame, then all messages are read as they were meant if and only if
   * the bytes of that control message commute with those they overtake, which can be told before
   * it is sent.
   */
  lemma {:induction false} ControlSpoilsIff(
      ss: seq<State>, es: seq<Event>, l: O.Limits, conn: byte, first: nat, t0: int, c: nat, k: nat)
    requires IsRun(ss, es, l, conn, first, t0) && c < k <= |es| && Measure(ss[k]) == 0
    requires (forall i: nat | i < c :: Harmless(ss[i], es[i])) && forall i | c < i < k :: !es[i].Control?
    requires ss[k].net.rcv.started && ss[k].net.rcv.recv.base == first && AllDeliverable(ss[k].out.accepted)
    ensures ss[k].net.rcv.routed == ss[k].stream <==> Harmless(ss[c], es[c])
  {
    RunSpelled(ss, es, l, conn, first, t0, c);
    RunInv(ss, es, l, conn, first, t0, c);
    assert StepAt(ss, es, l, conn, c);
    SpelledIff(ss[c], l, conn, es[c], ss[c + 1]);
    SpelledBetween(ss, es, l, conn, first, t0, c + 1, k);
    AllReadIff(ss, es, l, conn, first, t0, k);
  }

  // --- draining --------------------------------------------------------------------------------------

  /** Bytes and frames still to be sent and acknowledged; a frame weighs less than the bytes it takes. */
  ghost function Measure(s: State): (n: int)
  {
    Weight(s) - s.net.snd.sendBase
  }

  ghost function Weight(s: State): (n: int)
  {
    2 * |s.out.pending| + s.net.snd.txSeq
  }

  /** Nothing new enters the stream. */
  predicate Quiet(e: Event) {
    e.FrameOne? || e.Network?
  }

  lemma QuietStep(s: State, l: O.Limits, conn: byte, e: Event, s': State)
    requires Inv(s) && O.Positive(l) && Steps(s, l, conn, e, s') && Quiet(e)
    ensures Weight(s') <= Weight(s) && (e.FrameOne? ==> Weight(s') < Weight(s))
    ensures s'.out.accepted == s.out.accepted && s'.stream == s.stream
  {
    if e.Network? {
      T.SentKept(s.net, e.e, s'.net);
    }
  }

  ghost predicate QuietBetween(es: seq<Event>, i: nat, j: nat)
    requires i <= j <= |es|
  {
    forall k | i <= k < j :: Quiet(es[k])
  }

  lemma {:induction false} WeightFalls(
      ss: seq<State>, es: seq<Event>, l: O.Limits, conn: byte, first: nat, t0: int, i: nat, j: nat)
    requires IsRun(ss, es, l, conn, first, t0) && i <= j <= |es| && QuietBetween(es, i, j)
    ensures Weight(ss[j]) <= Weight(ss[i])
    ensures ss[j].out.accepted == ss[i].out.accepted && ss[j].stream == ss[i].stream
  {
    if i < j {
      WeightFalls(ss, es, l, conn, first, t0, i, j - 1);
      RunInv(ss, es, l, conn, first, t0, j - 1);
      assert StepAt(ss, es, l, conn, j - 1);
      QuietStep(ss[j - 1], l, conn, es[j - 1], ss[j]);
    }
  }

  lemma FramingLowers(
      ss: seq<State>, es: seq<Event>, l: O.Limits, conn: byte, first: nat, t0: int, i: nat, k: nat, j: nat)
    requires IsRun(ss, es, l, conn, first, t0) && i <= k < j <= |es|
    requires QuietBetween(es, i, j) && es[k].FrameOne?
    ensures Weight(ss[j]) < Weight(ss[i])
  {
    WeightFalls(ss, es, l, conn, first, t0, i, k);
    RunInv(ss, es, l, conn, first, t0, k);
    assert StepAt(ss, es, l, conn, k);
    QuietStep(ss[k], l, conn, es[k], ss[k + 1]);
    WeightFalls(ss, es, l, conn, first, t0, k + 1, j);
  }

  /**
   * A fair round from i to r: if a frame is unacknowledged at i then the network has a fair
   * round for it, and if none is but bytes are pending then the framing loop, whose window is
   * then open, sends a frame.
   */
  ghost predicate FairRound(ss: seq<State>, es: seq<Event>, l: O.Limits, conn: byte, i: nat, r: nat)
    requires |ss| == |es| + 1 && i <= r <= |es|
  {
    if ss[i].net.snd.sendBase < ss[i].net.snd.txSeq then T.FairRound(Nets(ss), Acts(ss, es, l, conn), i, r)
    else ss[i].out.pending == [] || exists k | i <= k < r :: es[k].FrameOne?
  }

  lemma RoundLowers(ss: seq<State>, es: seq<Event>, l: O.Limits, conn: byte, first: nat, t0: int, i: nat, r: nat)
    requires IsRun(ss, es, l, conn, first, t0) && i <= r <= |es| && QuietBetween(es, i, r)
    requires FairRound(ss, es, l, conn, i, r)
    ensures Measure(ss[r]) <= Measure(ss[i]) && (Measure(ss[i]) > 0 ==> Measure(ss[r]) < Measure(ss[i]))
  {
    NetworkRun(ss, es, l, conn, first, t0);
    var ys, as' := Nets(ss), Acts(ss, es, l, conn);
    WeightFalls(ss, es, l, conn, first, t0, i, r);
    T.RunForward(ys, as', first, t0, i, r);
    if ys[i].snd.sendBase < ys[i].snd.txSeq {
      T.FairRoundAdvances(ys, as', first, t0, i, r);
    } else {
      T.RunInv(ys, as', first, t0, i);
      if k :| i <= k < r && es[k].FrameOne? {
        FramingLowers(ss, es, l, conn, first, t0, i, k, r);
      }
    }
  }

  /** marks cut a quiet stretch of the run into fair rounds. */
  ghost predicate FairRounds(ss: seq<State>, es: seq<Event>, l: O.Limits, conn: byte, marks: seq<nat>)
    requires |ss| == |es| + 1
  {
    forall k | 0 <= k < |marks| - 1 :: RoundAt(ss, es, l, conn, marks, k)
  }

  ghost predicate RoundAt(ss: seq<State>, es: seq<Event>, l: O.Limits, conn: byte, marks: seq<nat>, k: nat)
    requires |ss| == |es| + 1
  {
    && k + 1 < |marks| && marks[k] <= marks[k + 1] <= |es|
    && QuietBetween(es, marks[k], marks[k + 1]) && FairRound(ss, es, l, conn, marks[k], marks[k + 1])
  }

  lemma {:induction false} RoundsLower(
      ss: seq<State>, es: seq<Event>, l: O.Limits, conn: byte, first: nat, t0: int, marks: seq<nat>, n: nat)
    requires IsRun(ss, es, l, conn, first, t0) && n < |marks| && marks[0] <= |es|
    requires FairRounds(ss, es, l, conn, marks)
    ensures marks[0] <= marks[n] <= |es| && QuietBetween(es, marks[0], marks[n])
    ensures Measure(ss[marks[n]]) <= 0 || Measure(ss[marks[n]]) <= Measure(ss[marks[0]]) - n
  {
    if n > 0 {
      RoundsLower(ss, es, l, conn, first, t0, marks, n - 1);
      assert RoundAt(ss, es, l, conn, marks, n - 1);
      RoundLowers(ss, es, l, conn, first, t0, marks[n - 1], marks[n]);
    }
  }

  /** Before the receiver has started nothing can be acknowledged, and a message is never empty. */
  lemma {:induction false} NothingToRead(s: State)
    requires Inv(s) && !s.net.rcv.started && Measure(s) <= 0
    ensures s.stream == [] && s.net.rcv.routed == []
  {
    T.AllAcknowledged(s.net);
    assert s.net.sent == [] && s.out.pending == [];
    EncodedNotEmpty(s.stream);
  }

  lemma {:induction false} EncodedNotEmpty(ms: seq<PTun.Msg>)
    ensures EncodeAll(PTun.Encode, ms) == [] <==> ms == []
  {
  }

  /**
   * Every accepted write is eventually read: over as many fair rounds as Measure says, with
   * nothing new accepted, all that is pending is framed and all frames are acknowledged; and if
   * the writes are deliverable, every control send was harmless and the stream started at the
   * first frame, then all messages were routed at the peer, and the data chunks among them are
   * exactly the accepted writes.
   */
  lemma {:induction false} EveryWriteIsRead(
      ss: seq<State>, es: seq<Event>, l: O.Limits, conn: byte, first: nat, t0: int, marks: seq<nat>)
    requires IsRun(ss, es, l, conn, first, t0)
    requires marks != [] && marks[0] <= |es| && FairRounds(ss, es, l, conn, marks)
    requires |marks| - 1 >= Measure(ss[marks[0]])
    ensures marks[0] <= marks[|marks| - 1] <= |es|
    ensures var s := ss[marks[|marks| - 1]];
            && s.out.pending == [] && s.net.snd.sendBase == s.net.snd.txSeq
            && s.out.accepted == ss[marks[0]].out.accepted
            && (AllDeliverable(s.out.accepted) && (s.net.rcv.started ==> s.net.rcv.recv.base == first)
                && (forall i: nat | i < marks[0] :: Harmless(ss[i], es[i])) ==>
                  s.net.rcv.routed == s.stream && DataOf(s.net.rcv.routed) == O.AsMsgs(s.out.accepted))
  {
    var n := |marks| - 1;
    RoundsLower(ss, es, l, conn, first, t0, marks, n);
    WeightFalls(ss, es, l, conn, first, t0, marks[0], marks[n]);
    var s := ss[marks[n]];
    RunInv(ss, es, l, conn, first, t0, marks[n]);
    assert Measure(s) >= 0;
    if !s.net.rcv.started {
      NothingToRead(s);
    } else if AllDeliverable(s.out.accepted) && forall i: nat | i < marks[0] :: Harmless(ss[i], es[i]) {
      RunSpelled(ss, es, l, conn, first, t0, marks[0]);
      SpelledBetween(ss, es, l, conn, first, t0, marks[0], marks[n]);
      AllReadIff(ss, es, l, conn, first, t0, marks[n]);
    }
  }

  // --- draining is always possible ---------------------------------------------------------------------

  /** With nothing unacknowledged the framing loop can send. */
  lemma WindowOpen(s: State, l: O.Limits, now: int)
    requires Inv(s) && O.Positive(l) && s.net.snd.sendBase == s.net.snd.txSeq && s.out.pending != []
    ensures O.Enabled(s.out, l, O.FrameOne(now))
  {
  }

  /** One more step in front of a path. */
  lemma PathCons(s: State, e: Event, ss: seq<State>, es: seq<Event>, l: O.Limits, conn: byte)
    requires IsPath(ss, es, l, conn) && Steps(s, l, conn, e, ss[0])
    ensures IsPath([s] + ss, [e] + es, l, conn)
  {
    forall k: nat | k < |es| + 1 ensures StepAt([s] + ss, [e] + es, l, conn, k) {
      if k > 0 {
        assert StepAt(ss, es, l, conn, k - 1);
      }
    }
  }

  /** If the receiver has started, it was at the first frame. */
  ghost predicate StartsRight(y: T.Sys) {
    y.rcv.started ==> y.rcv.recv.base == y.first
  }

  /** ss is a path from s over quiet events. */
  ghost predicate QuietPath(s: State, ss: seq<State>, es: seq<Event>, l: O.Limits, conn: byte) {
    IsPath(ss, es, l, conn) && ss[0] == s && QuietBetween(es, 0, |es|)
  }

  /** The path leads to s' and does not spoil the start of the stream. */
  ghost predicate LeadsTo(s: State, ss: seq<State>, s': State) {
    ss != [] && ss[|ss| - 1] == s' && Inv(s') && Same(s, s')
  }

  lemma QuietCons(s: State, e: Event, s1: State, ss: seq<State>, es: seq<Event>, s': State, l: O.Limits, conn: byte)
    requires Drains(s, l, conn, e, s1) && QuietPath(s1, ss, es, l, conn) && LeadsTo(s1, ss, s')
    ensures QuietPath(s, [s] + ss, [e] + es, l, conn) && LeadsTo(s, [s] + ss, s')
  {
    PathCons(s, e, ss, es, l, conn);
  }

  /** What quiet steps of a drain leave alone. */
  ghost predicate Same(s: State, s': State) {
    && s'.net.first == s.net.first && s'.stream == s.stream && s'.out.accepted == s.out.accepted
    && (StartsRight(s.net) ==> StartsRight(s'.net))
  }

  /** e is a quiet step from s to s' that leaves the rest alone. */
  ghost predicate Drains(s: State, l: O.Limits, conn: byte, e: Event, s': State) {
    Quiet(e) && Steps(s, l, conn, e, s') && Inv(s') && Same(s, s')
  }

  /** A network step as a step of the whole. */
  lemma NetworkStep(s: State, n: T.Event, y: T.Sys, l: O.Limits, conn: byte) returns (s': State)
    requires Inv(s) && O.Positive(l) && T.Steps(s.net, n, y) && !n.Send? && (StartsRight(s.net) ==> StartsRight(y))
    ensures s'.net == y && Drains(s, l, conn, Network(n), s') && Weight(s') == Weight(s)
  {
    s' := Moved(s, y);
    NetworkInv(s, l, conn, n, s');
    StepFirst(s, l, conn, Network(n), s');
    T.SentKept(s.net, n, y);
  }

  /** Delivering the oldest unacknowledged frame alone, then its ACK, is a round that lowers the measure. */
  lemma RoundStep(s: State, l: O.Limits, conn: byte, now: int)
      returns (e1: Event, s1: State, e2: Event, s2: State, e3: Event, s3: State)
    requires Inv(s) && O.Positive(l) && s.net.snd.sendBase < s.net.snd.txSeq
    ensures Drains(s, l, conn, e1, s1) && Drains(s1, l, conn, e2, s2) && Drains(s2, l, conn, e3, s3)
    ensures Measure(s3) < Measure(s)
  {
    var b, y1, y2, y3 := T.OldestRound(s.net, now);
    var n1, n2, n3 := T.DeliverFrames(b), T.ReAck, T.DeliverAck(y2.rcv.next - 1, now);
    e1, e2, e3 := Network(n1), Network(n2), Network(n3);
    s1 := NetworkStep(s, n1, y1, l, conn);
    s2 := NetworkStep(s1, n2, y2, l, conn);
    s3 := NetworkStep(s2, n3, y3, l, conn);
  }

  lemma FrameStep(s: State, l: O.Limits, conn: byte, now: int) returns (s': State)
    requires Inv(s) && O.Positive(l) && s.net.snd.sendBase == s.net.snd.txSeq && s.out.pending != []
    ensures Drains(s, l, conn, FrameOne(now), s') && Measure(s') < Measure(s)
  {
    WindowOpen(s, l, now);
    var y := T.After(s.net, T.Send(NextFrame(s.out, l, conn), now));
    s' := State(O.After(s.out, l, conn, O.FrameOne(now)), y, s.stream);
    FrameInv(s, l, conn, now, s');
    StepFirst(s, l, conn, FrameOne(now), s');
    QuietStep(s, l, conn, FrameOne(now), s');
  }

  /** From every state the invariant allows, quiet steps lead to one with nothing pending or unacknowledged. */
  lemma {:induction false} CanDrain(s: State, l: O.Limits, conn: byte, now: int)
      returns (ss: seq<State>, es: seq<Event>, s': State)
    requires Inv(s) && O.Positive(l)
    ensures QuietPath(s, ss, es, l, conn) && LeadsTo(s, ss, s') && Measure(s') == 0
    decreases Measure(s)
  {
    if s.net.snd.sendBase < s.net.snd.txSeq {
      var e1, s1, e2, s2, e3, s3 := RoundStep(s, l, conn, now);
      ss, es, s' := CanDrain(s3, l, conn, now);
      QuietCons(s2, e3, s3, ss, es, s', l, conn);
      QuietCons(s1, e2, s2, [s2] + ss, [e3] + es, s', l, conn);
      QuietCons(s, e1, s1, [s1] + ([s2] + ss), [e2] + ([e3] + es), s', l, conn);
      ss, es := [s] + ([s1] + ([s2] + ss)), [e1] + ([e2] + ([e3] + es));
    } else if s.out.pending != [] {
      var s1 := FrameStep(s, l, conn, now);
      ss, es, s' := CanDrain(s1, l, conn, now);
      QuietCons(s, FrameOne(now), s1, ss, es, s', l, conn);
      ss, es := [s] + ss, [FrameOne(now)] + es;
    } else {
      ss, es, s' := [s], [], s;
    }
  }

  // --- a control message inside a chunk ----------------------------------------------------------------

  /** The chunk of a first write is accepted, and its first frame sent. */
  lemma {:induction false} FrameFirst(w: O.WriteReq, l: O.Limits, conn: byte, first: nat, t0: int)
      returns (s1: State, s2: State)
    requires O.Positive(l) && l.maxFrame < |O.Chunk(w)|
    ensures Steps(Initial(first, t0), l, conn, Accept(w), s1) && Steps(s1, l, conn, FrameOne(t0), s2)
    ensures Inv(s2) && StartsRight(s2.net) && s2.net.first == first
    ensures s2.stream == [O.AsMsg(w)] && s2.out.accepted == [w]
    ensures Begun(s2.stream, |Flatten(s2.net.sent)|, 1) && Overtaken(s2, 1) == O.Chunk(w)[l.maxFrame..]
  {
    var s := Initial(first, t0);
    InitialInv(first, t0);
    s1 := State(O.After(s.out, l, conn, O.Accept(w)), s.net, [O.AsMsg(w)]);
    assert [] + [O.AsMsg(w)] == [O.AsMsg(w)] && [] + O.Chunk(w) == O.Chunk(w) && [] + [w] == [w];
    AcceptInv(s, l, conn, w, s1);
    s2 := FrameStep(s1, l, conn, t0);
    FirstFrame(s1, s2, w, l, conn, t0);
  }

  /** A control message is sent behind it, whatever is then pending. */
  lemma {:induction false} ControlStep(s: State, m: PTun.Msg, l: O.Limits, conn: byte, now: int) returns (s': State)
    requires Inv(s) && |s.stream| == 1 && Begun(s.stream, |Flatten(s.net.sent)|, 1)
    requires m.typ != PTun.DATA && PTun.WellFormed(m)
    ensures Steps(s, l, conn, Control(m, 1, now), s') && Inv(s') && s'.stream == s.stream + [m]
    ensures s'.out.accepted == s.out.accepted && s'.net.rcv == s.net.rcv && s'.net.first == s.net.first
  {
    var y := T.After(s.net, T.Send(O.DataFrame(conn, PTun.Encode(m)), now));
    s' := State(O.After(s.out, l, conn, O.Control(PTun.Encode(m), now)), y, s.stream + [m]);
    assert s.stream[..1] + [m] + s.stream[1..] == s.stream + [m];
    ControlInv(s, l, conn, m, 1, now, s');
  }

  lemma {:induction false} PathOfThree(
      s: State, e1: Event, s1: State, e2: Event, s2: State, e3: Event, path: seq<State>, rest: seq<Event>,
      l: O.Limits, conn: byte) returns (ss: seq<State>, es: seq<Event>)
    requires Steps(s, l, conn, e1, s1) && Steps(s1, l, conn, e2, s2)
    requires IsPath(path, rest, l, conn) && Steps(s2, l, conn, e3, path[0])
    ensures IsPath(ss, es, l, conn) && |es| == |rest| + 3 && ss[0] == s && ss[2] == s2
    ensures es[0] == e1 && es[1] == e2 && es[2] == e3
    ensures ss[|es|] == path[|rest|] && forall i | 3 <= i < |es| :: es[i] == rest[i - 3]
  {
    PathCons(s2, e3, path, rest, l, conn);
    PathCons(s1, e2, [s2] + path, [e3] + rest, l, conn);
    PathCons(s, e1, [s1] + ([s2] + path), [e2] + ([e3] + rest), l, conn);
    ss, es := [s] + ([s1] + ([s2] + path)), [e1] + ([e2] + ([e3] + rest));
  }

  lemma {:induction false} FirstFrame(s: State, s': State, w: O.WriteReq, l: O.Limits, conn: byte, now: int)
    requires Inv(s) && Steps(s, l, conn, FrameOne(now), s') && O.Positive(l)
    requires s.net.sent == [] && s.out.pending == O.Chunk(w) && s.stream == [O.AsMsg(w)] && l.maxFrame < |O.Chunk(w)|
    ensures |Flatten(s'.net.sent)| == l.maxFrame && Begun(s'.stream, l.maxFrame, 1)
    ensures Overtaken(s', 1) == O.Chunk(w)[l.maxFrame..]
  {
    var payload := O.Chunk(w)[..l.maxFrame];
    assert s'.net.sent == [] + [payload];
    FlattenSnoc([], payload);
    assert s'.stream[..1] == [] + [O.AsMsg(w)] && s'.stream[..0] == [];
    EncodeAllSnoc(PTun.Encode, [], O.AsMsg(w));
  }

  /** A sound state with nothing left to send or acknowledge, for these messages and writes. */
  ghost predicate Drained(s: State, first: nat, stream: seq<PTun.Msg>, accepted: seq<O.WriteReq>) {
    && Inv(s) && StartsRight(s.net) && s.net.first == first && Measure(s) == 0
    && s.stream == stream && s.out.accepted == accepted
  }

  lemma {:induction false} ControlThenDrain(s: State, m: PTun.Msg, l: O.Limits, conn: byte, now: int)
      returns (path: seq<State>, rest: seq<Event>)
    requires Inv(s) && O.Positive(l) && |s.stream| == 1 && Begun(s.stream, |Flatten(s.net.sent)|, 1)
    requires m.typ != PTun.DATA && PTun.WellFormed(m) && StartsRight(s.net)
    ensures IsPath(path, rest, l, conn) && Steps(s, l, conn, Control(m, 1, now), path[0])
    ensures forall i | 0 <= i < |rest| :: Quiet(rest[i])
    ensures Drained(path[|rest|], s.net.first, s.stream + [m], s.out.accepted)
  {
    var s1 := ControlStep(s, m, l, conn, now);
    var s';
    path, rest, s' := CanDrain(s1, l, conn, now);
  }

  /** A run that sends a control message behind the first frame of a chunk, and drains. */
  lemma {:induction false} InsideChunkRun(
      w: O.WriteReq, m: PTun.Msg, l: O.Limits, conn: byte, first: nat, t0: int)
      returns (ss: seq<State>, es: seq<Event>)
    requires m.typ != PTun.DATA && PTun.WellFormed(m) && O.Positive(l) && l.maxFrame < |O.Chunk(w)|
    ensures IsRun(ss, es, l, conn, first, t0) && |es| >= 3 && !es[0].Control? && !es[1].Control?
    ensures es[2] == Control(m, 1, t0) && forall i | 2 < i < |es| :: !es[i].Control?
    ensures Begun(ss[2].stream, |Flatten(ss[2].net.sent)|, 1) && Overtaken(ss[2], 1) == O.Chunk(w)[l.maxFrame..]
    ensures Drained(ss[|es|], first, [O.AsMsg(w)] + [m], [w])
  {
    var s1, s2 := FrameFirst(w, l, conn, first, t0);
    var path, rest := ControlThenDrain(s2, m, l, conn, t0);
    ss, es := PathOfThree(Initial(first, t0), Accept(w), s1, FrameOne(t0), s2, Control(m, 1, t0), path, rest, l, conn);
    forall i | 2 < i < |es| ensures !es[i].Control? {
      assert Quiet(rest[i - 3]);
    }
  }

  /**
   * Pump may send a control message in the middle of a chunk: for every frame size that cuts the
   * chunk of a deliverable write and every known control message whose bytes do not commute with
   * the rest of that chunk, a run that sends it there and drains, after which the peer has not
   * read the write and the control message.
   */
  lemma {:induction false} ControlInsideChunk(
      w: O.WriteReq, m: PTun.Msg, l: O.Limits, conn: byte, first: nat, t0: int)
      returns (ss: seq<State>, es: seq<Event>)
    requires O.Deliverable(w) && m.typ != PTun.DATA && PTun.WellFormed(m) && O.Positive(l)
    requires l.maxFrame < |O.Chunk(w)|
    requires var rest := O.Chunk(w)[l.maxFrame..]; PTun.Encode(m) + rest != rest + PTun.Encode(m)
    ensures IsRun(ss, es, l, conn, first, t0)
    ensures var s := ss[|es|];
            && Measure(s) == 0 && s.out.accepted == [w] && s.stream == [O.AsMsg(w), m]
            && s.net.rcv.started && s.net.rcv.recv.base == first && s.net.rcv.routed != s.stream
  {
    ss, es := InsideChunkRun(w, m, l, conn, first, t0);
    var s := ss[|es|];
    if !s.net.rcv.started {
      NothingToRead(s);
    }
    assert AllDeliverable(s.out.accepted);
    ControlSpoilsIff(ss, es, l, conn, first, t0, 2, |es|);
  }
}
