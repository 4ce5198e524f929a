/**
 * Outbound reliability (kalay/gobackn.go): the in-flight window, cumulative ACKs, retransmission
 * of the oldest frame, backoff and give-up, and the AIMD congestion window.
 *
 * Sender is the state; the functions are what each operation does to it, and class Tunnel below
 * carries them out in place. The clock is a parameter. wire records, in order, every
 * transmission of a reliable frame.
 */
module GoBackN {
  import opened Bytes
  import opened Rtt

  const GIVE_UP := 30_000 * MS
  const CWND_MIN := 4
  const CWND_INIT := 8

  datatype Frame = Frame(typ: byte, b16: byte, conn: byte, payload: seq<byte>)
  datatype OutFrame = OutFrame(frame: Frame, sentAt: int, retx: bool)
  datatype Sent = Sent(seqNo: nat, frame: Frame)

  datatype Sender = Sender(
    inflight: map<nat, OutFrame>,
    sendBase: nat,               // oldest unacknowledged sequence number
    txSeq: nat,                  // next sequence number
    rtt: Estimate,
    lastReTx: int,
    lastProg: int,
    dupAcks: nat,
    retxRun: nat,                // timeouts since the base last advanced
    lastAckSeq: nat,
    cwnd: real,
    cwndCut: Option<int>,        // None is Go's zero time
    wire: seq<Sent>)

  // --- the operations -----------------------------------------------------------------------

  function Initial(txSeq: nat, now: int): (s: Sender)
  {
    Sender(map[], txSeq, txSeq, Estimate(0, 0, RTO_INIT), now, now, 0, 0, 0, CWND_INIT as real, None, [])
  }

  /** The send window in frames: the congestion window clamped to [CWND_MIN, sendWindow]. */
  function CwndFrames(cwnd: real, sendWindow: nat): (w: nat)
    ensures w <= sendWindow
    ensures w >= CWND_MIN || w == sendWindow
  {
    var w := if cwnd.Floor < CWND_MIN then CWND_MIN else cwnd.Floor;
    if w > sendWindow then sendWindow else w
  }

  /** In plain numbers: the whole frames of cwnd, never below four, never above sendWindow. */
  lemma WindowInFrames(cwnd: real, sendWindow: nat)
    ensures var w := CwndFrames(cwnd, sendWindow);
            && (4.0 <= cwnd < (sendWindow + 1) as real ==> w as real <= cwnd < (w + 1) as real)
            && (cwnd < 4.0 && sendWindow >= 4 ==> w == 4)
            && (cwnd >= sendWindow as real || sendWindow < 4 ==> w == sendWindow)
  {
  }

  /** A larger congestion window is never a smaller send window. */
  lemma WindowMonotone(c: real, c': real, sendWindow: nat)
    requires c <= c'
    ensures CwndFrames(c, sendWindow) <= CwndFrames(c', sendWindow)
  {
  }

  /** Multiplicative decrease, at most once per retransmit timeout. */
  function AfterCut(s: Sender, now: int): (r: Sender)
  {
    if s.cwndCut.Some? && now - s.cwndCut.value < s.rtt.rto then s else
    var half := s.cwnd / 2.0;
    s.(cwnd := if half < CWND_MIN as real then CWND_MIN as real else half, cwndCut := Some(now))
  }

  function AfterSend(s: Sender, f: Frame, now: int): (r: Sender)
  {
    s.(wire := s.wire + [Sent(s.txSeq, f)],
       inflight := s.inflight[s.txSeq := OutFrame(f, now, false)],
       txSeq := s.txSeq + 1,
       lastReTx := now)
  }

  function AfterResend(s: Sender, now: int): (r: Sender)
  {
    var s1 := if s.sendBase in s.inflight then
                var o := s.inflight[s.sendBase];
                s.(wire := s.wire + [Sent(s.sendBase, o.frame)],
                   inflight := s.inflight[s.sendBase := o.(retx := true)])
              else s;
    AfterCut(s1.(lastReTx := now), now)
  }

  predicate Advances(s: Sender, ack: nat) {
    s.sendBase < ack + 1 <= s.txSeq
  }

  predicate Duplicates(s: Sender, ack: nat) {
    !Advances(s, ack) && s.sendBase < s.txSeq && ack == s.lastAckSeq
  }

  /** The frame whose round trip an ACK measures: only one never retransmitted. */
  predicate Samples(s: Sender, ack: nat) {
    Advances(s, ack) && ack in s.inflight && !s.inflight[ack].retx
  }

  function AfterAdvance(s: Sender, ack: nat, now: int): (r: Sender)
    requires s.cwnd != 0.0
  {
    s.(rtt := if Samples(s, ack) then Sample(s.rtt, now - s.inflight[ack].sentAt) else s.rtt,
       inflight := map q | q in s.inflight && !(s.sendBase <= q <= ack) :: s.inflight[q],
       sendBase := ack + 1,
       lastProg := now, lastReTx := now, dupAcks := 0, retxRun := 0,
       cwnd := s.cwnd + ((ack + 1 - s.sendBase) as real) / s.cwnd)
  }

  function AfterDuplicate(s: Sender, now: int): (r: Sender)
  {
    if s.dupAcks + 1 >= 3 then AfterResend(s, now).(dupAcks := 0) else s.(dupAcks := s.dupAcks + 1)
  }

  function AfterAck(s: Sender, ack: nat, now: int): (r: Sender)
    requires s.cwnd != 0.0
  {
    (if Advances(s, ack) then AfterAdvance(s, ack, now)
     else if Duplicates(s, ack) then AfterDuplicate(s, now)
     else s).(lastAckSeq := ack)
  }

  /** rto<<min(run, 4) */
  function Backoff(rto: int, run: nat): (t: int)
  {
    if run == 0 then rto else if run == 1 then 2 * rto else if run == 2 then 4 * rto
    else if run == 3 then 8 * rto else 16 * rto
  }

  predicate TimesOut(s: Sender, now: int) {
    s.sendBase < s.txSeq && now - s.lastReTx > Backoff(s.rtt.rto, s.retxRun)
  }

  predicate GivesUp(s: Sender, now: int) {
    s.sendBase < s.txSeq && now - s.lastProg > GIVE_UP
  }

  function AfterTick(s: Sender, now: int): (r: Sender)
  {
    if TimesOut(s, now) then AfterResend(s, now).(retxRun := s.retxRun + 1) else s
  }

  // --- what every operation keeps -------------------------------------------------------------

  /** Number of transmissions of q. */
  function Count(wire: seq<Sent>, q: nat): (n: nat)
  {
    if wire == [] then 0 else
    Count(wire[..|wire| - 1], q) + (if wire[|wire| - 1].seqNo == q then 1 else 0)
  }

  lemma {:induction false} CountAppend(wire: seq<Sent>, x: Sent, q: nat)
    ensures Count(wire + [x], q) == Count(wire, q) + (if x.seqNo == q then 1 else 0)
  {
    assert (wire + [x])[..|wire|] == wire;
  }

  lemma {:induction false} CountNone(wire: seq<Sent>, q: nat)
    requires forall i | 0 <= i < |wire| :: wire[i].seqNo != q
    ensures Count(wire, q) == 0
  {
    if wire != [] {
      CountNone(wire[..|wire| - 1], q);
    }
  }

  ghost predicate Carries(wire: seq<Sent>, q: nat, f: Frame) {
    forall i | 0 <= i < |wire| :: wire[i].seqNo == q ==> wire[i].frame == f
  }

  /** Every transmission of a sequence number carries the same type, connection and payload. */
  ghost predicate SameContent(wire: seq<Sent>) {
    forall i, j | 0 <= i < |wire| && 0 <= j < |wire| ::
      wire[i].seqNo == wire[j].seqNo ==> wire[i].frame == wire[j].frame
  }

  /** A frame in flight was transmitted, always as it is kept, and exactly once unless marked. */
  ghost predicate Tracked(wire: seq<Sent>, q: nat, o: OutFrame) {
    && Carries(wire, q, o.frame)
    && if o.retx then Count(wire, q) >= 2 else Count(wire, q) == 1
  }

  /** The in-flight keys are exactly the window [sendBase, txSeq). */
  ghost predicate Window(s: Sender) {
    && s.sendBase <= s.txSeq
    && (forall q: nat :: q in s.inflight <==> s.sendBase <= q < s.txSeq)
  }

  ghost predicate History(s: Sender) {
    && (forall i | 0 <= i < |s.wire| :: s.wire[i].seqNo < s.txSeq)
    && SameContent(s.wire)
    && (forall q | q in s.inflight :: Tracked(s.wire, q, s.inflight[q]))
  }

  ghost predicate Numbers(s: Sender) {
    && RTO_MIN <= s.rtt.rto <= RTO_MAX
    && s.cwnd >= CWND_MIN as real
    && s.dupAcks <= 2
  }

  ghost predicate Inv(s: Sender) {
    Window(s) && History(s) && Numbers(s)
  }

  lemma InitInv(txSeq: nat, now: int)
    ensures Inv(Initial(txSeq, now))
  {
  }

  lemma {:induction false} HistoryAppend(wire: seq<Sent>, x: Sent)
    requires SameContent(wire) && Carries(wire, x.seqNo, x.frame)
    ensures SameContent(wire + [x])
    ensures forall q, o | q != x.seqNo && Tracked(wire, q, o) :: Tracked(wire + [x], q, o)
    ensures Carries(wire + [x], x.seqNo, x.frame) && Count(wire + [x], x.seqNo) == Count(wire, x.seqNo) + 1
  {
    forall q, o | q != x.seqNo && Tracked(wire, q, o) ensures Tracked(wire + [x], q, o) {
      CountAppend(wire, x, q);
    }
    CountAppend(wire, x, x.seqNo);
  }

  lemma SendInv(s: Sender, f: Frame, now: int)
    requires Inv(s)
    ensures Inv(AfterSend(s, f, now))
  {
    CountNone(s.wire, s.txSeq);
    HistoryAppend(s.wire, Sent(s.txSeq, f));
  }

  lemma ResendInv(s: Sender, now: int)
    requires Inv(s)
    ensures Inv(AfterResend(s, now))
  {
    if s.sendBase in s.inflight {
      assert Tracked(s.wire, s.sendBase, s.inflight[s.sendBase]);
      HistoryAppend(s.wire, Sent(s.sendBase, s.inflight[s.sendBase].frame));
    }
  }

  lemma AckInv(s: Sender, ack: nat, now: int)
    requires Inv(s)
    ensures Inv(AfterAck(s, ack, now))
  {
    if Duplicates(s, ack) {
      ResendInv(s, now);
    } else if Advances(s, ack) {
      GrowthNonNegative(s.cwnd, (ack + 1 - s.sendBase) as real);
    }
  }

  lemma TickInv(s: Sender, now: int)
    requires Inv(s)
    ensures Inv(AfterTick(s, now))
  {
    ResendInv(s, now);
  }

  /** A tick moves neither end of the window and transmits at most the oldest frame, as it is kept. */
  lemma TickTransmits(s: Sender, now: int)
    ensures var r := AfterTick(s, now);
            && r.txSeq == s.txSeq && r.sendBase == s.sendBase
            && (r.wire == s.wire || RepeatsOldest(s, r.wire))
  {
  }

  /** An ACK moves the base only as far as it says, and transmits at most the oldest frame. */
  lemma AckTransmits(s: Sender, ack: nat, now: int)
    requires s.cwnd != 0.0
    ensures var r := AfterAck(s, ack, now);
            && r.txSeq == s.txSeq && r.sendBase == (if Advances(s, ack) then ack + 1 else s.sendBase)
            && (r.wire == s.wire || RepeatsOldest(s, r.wire))
  {
  }

  ghost predicate RepeatsOldest(s: Sender, wire: seq<Sent>) {
    s.sendBase in s.inflight && wire == s.wire + [Sent(s.sendBase, s.inflight[s.sendBase].frame)]
  }

  /**
   * An ACK frees what it names if that is ahead and was sent; otherwise, with frames
   * unacknowledged, it counts as a duplicate of an equal one just before, and the third
   * duplicate brings the oldest frame.
   */
  ghost predicate AckMeans(s: Sender, r: Sender, ack: nat) {
    if s.sendBase < ack + 1 <= s.txSeq then r.sendBase == ack + 1 && r.wire == s.wire && r.dupAcks == 0
    else
      && r.sendBase == s.sendBase
      && if s.sendBase < s.txSeq && ack == s.lastAckSeq then
           if s.dupAcks >= 2 then RepeatsOldest(s, r.wire) && r.dupAcks == 0
           else r.wire == s.wire && r.dupAcks == s.dupAcks + 1
         else r.wire == s.wire && r.dupAcks == s.dupAcks
  }

  lemma AckBranches(s: Sender, ack: nat, now: int)
    requires Inv(s)
    ensures AckMeans(s, AfterAck(s, ack, now), ack)
  {
    assert s.sendBase < s.txSeq ==> s.sendBase in s.inflight;
  }

  lemma GrowthNonNegative(c: real, a: real)
    requires c > 0.0 && a >= 0.0
    ensures a / c >= 0.0
  {
  }

  /** Karn's rule (section 3 of RFC 6298): a sampled frame was transmitted exactly once. */
  lemma {:induction false} SampledOnce(s: Sender, ack: nat)
    requires Inv(s) && Samples(s, ack)
    ensures Count(s.wire, ack) == 1
  {
    assert Tracked(s.wire, ack, s.inflight[ack]);
  }

  // --- the operations in place -------------------------------------------------------------------

  class Tunnel {
    var inflight: map<nat, OutFrame>
    var sendBase: nat
    var txSeq: nat
    var srtt: int
    var rttvar: int
    var rto: int
    var lastReTx: int
    var lastProg: int
    var dupAcks: nat
    var retxRun: nat
    var lastAckSeq: nat
    var cwnd: real
    var cwndCut: Option<int>
    var wire: seq<Sent>          // what the session was given to send

    ghost function State(): (s: Sender)
      reads this
    {
      Sender(inflight, sendBase, txSeq, Estimate(srtt, rttvar, rto), lastReTx, lastProg, dupAcks, retxRun,
             lastAckSeq, cwnd, cwndCut, wire)
    }

    ghost predicate Valid()
      reads this
    {
      Inv(State())
    }

    /** initGoBackN, once setup has advanced txSeq past the handshake frames. */
    constructor (txSeq: nat, now: int)
      ensures Valid() && State() == Initial(txSeq, now)
    {
      this.txSeq := txSeq;
      inflight := map[];
      sendBase := txSeq;
      srtt, rttvar, rto := 0, 0, RTO_INIT;
      lastReTx, lastProg := now, now;
      dupAcks, retxRun, lastAckSeq := 0, 0, 0;
      cwnd := CWND_INIT as real;
      cwndCut := None;
      wire := [];
      new;
      InitInv(txSeq, now);
    }

    /** cwndFrames */
    function WindowFrames(sendWindow: nat): (w: nat)
      reads this`cwnd
      ensures w <= sendWindow && (w >= CWND_MIN || w == sendWindow)
    {
      CwndFrames(cwnd, sendWindow)
    }

    method CwndCutHalf(now: int)
      modifies this
      ensures State() == AfterCut(old(State()), now)
      ensures old(cwndCut).None? || now - old(cwndCut).value >= old(rto) ==>
                (2.0 * cwnd == old(cwnd) || (cwnd == 4.0 && old(cwnd) < 8.0)) && cwndCut == Some(now)
      ensures old(cwndCut).Some? && now - old(cwndCut).value < old(rto) ==>
                cwnd == old(cwnd) && cwndCut == old(cwndCut)
    {
      if cwndCut.Some? && now - cwndCut.value < rto {
        return;
      }
      cwnd := cwnd / 2.0;
      if cwnd < CWND_MIN as real {
        cwnd := CWND_MIN as real;
      }
      cwndCut := Some(now);
    }

    method SendReliable(f: Frame, now: int)
      requires Valid()
      modifies this
      ensures Valid() && State() == AfterSend(old(State()), f, now)
    {
      SendInv(State(), f, now);
      var q := txSeq;
      wire := wire + [Sent(q, f)];
      inflight := inflight[q := OutFrame(f, now, false)];
      txSeq := txSeq + 1;
      lastReTx := now;
    }

    method SampleRTT(s: int)
      modifies this
      ensures State() == old(State()).(rtt := Sample(old(State()).rtt, s))
    {
      if srtt == 0 {
        srtt, rttvar := s, Quo(s, 2);
      } else {
        var d := srtt - s;
        if d < 0 {
          d := -d;
        }
        rttvar := rttvar + Quo(d - rttvar, 4);
        srtt := srtt + Quo(s - srtt, 8);
      }
      rto := srtt + 4 * rttvar;
      if rto < RTO_MIN {
        rto := RTO_MIN;
      } else if rto > RTO_MAX {
        rto := RTO_MAX;
      }
    }

    method ResendOldest(now: int)
      modifies this
      ensures State() == AfterResend(old(State()), now)
    {
      if sendBase in inflight {
        var o := inflight[sendBase];
        wire := wire + [Sent(sendBase, o.frame)];
        inflight := inflight[sendBase := o.(retx := true)];
      }
      lastReTx := now;
      CwndCutHalf(now);
    }

    method AckOutbound(ack: nat, now: int)
      requires Valid()
      modifies this
      ensures Valid() && State() == AfterAck(old(State()), ack, now)
      ensures lastAckSeq == ack && AckMeans(old(State()), State(), ack)
    {
      AckInv(State(), ack, now);
      AckBranches(State(), ack, now);
      if ack + 1 > sendBase && ack + 1 <= txSeq {
        AdvanceBase(ack, now);
      } else if sendBase < txSeq && ack == lastAckSeq {
        dupAcks := dupAcks + 1;
        if dupAcks >= 3 {
          ResendOldest(now);
          dupAcks := 0;
        }
      }
      lastAckSeq := ack;
    }

    /** The progress branch of ackOutbound. */
    method AdvanceBase(ack: nat, now: int)
      requires Advances(State(), ack) && cwnd != 0.0
      modifies this
      ensures State() == AfterAdvance(old(State()), ack, now)
    {
      var newBase := ack + 1;
      SampleAcked(ack, now);
      var acked := (newBase - sendBase) as real;
      DeleteAcked(newBase);
      sendBase := newBase;
      lastProg := now;
      lastReTx := now;
      dupAcks, retxRun := 0, 0;
      cwnd := cwnd + acked / cwnd;
    }

    /** Samples the acknowledged frame, unless it was retransmitted. */
    method SampleAcked(ack: nat, now: int)
      requires Advances(State(), ack)
      modifies this
      ensures var s := old(State());
              State() == s.(rtt := if Samples(s, ack) then Sample(s.rtt, now - s.inflight[ack].sentAt) else s.rtt)
    {
      if ack in inflight && !inflight[ack].retx {
        SampleRTT(now - inflight[ack].sentAt);
      }
    }

    /** The delete loop of ackOutbound. */
    method DeleteAcked(newBase: nat)
      requires sendBase < newBase
      modifies this`inflight
      ensures inflight == map q | q in old(inflight) && !(sendBase <= q < newBase) :: old(inflight)[q]
    {
      var q := sendBase;
      while q < newBase
        invariant sendBase <= q <= newBase
        invariant inflight == map k | k in old(inflight) && !(sendBase <= k < q) :: old(inflight)[k]
      {
        inflight := inflight - {q};
        q := q + 1;
      }
    }

    /** Reports whether the stream is given up. */
    method OutboundTick(now: int) returns (dead: bool)
      requires Valid()
      modifies this
      ensures Valid() && State() == AfterTick(old(State()), now)
      ensures dead <==> GivesUp(old(State()), now)
    {
      if sendBase >= txSeq {
        return false;
      }
      TickInv(State(), now);
      if now - lastReTx > Backoff(rto, retxRun) {
        ResendOldest(now);
        retxRun := retxRun + 1;
      }
      return now - lastProg > GIVE_UP;
    }
  }
}
