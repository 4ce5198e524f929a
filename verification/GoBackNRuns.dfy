/** Whole runs of the go-back-N sender: accounting, give-up, and the congestion window over time. */
module GoBackNRuns {
  import opened Bytes
  import opened Rtt
  import opened GoBackN

  datatype Op = Send(frame: Frame) | AckIn(ack: nat) | OnTick
  datatype Event = Event(op: Op, now: int)

  ghost function Step(s: Sender, e: Event): (r: Sender)
    requires Inv(s)
    ensures Inv(r)
  {
    match e.op
    case Send(f) => SendInv(s, f, e.now); AfterSend(s, f, e.now)
    case AckIn(a) => AckInv(s, a, e.now); AfterAck(s, a, e.now)
    case OnTick => TickInv(s, e.now); AfterTick(s, e.now)
  }

  /** The sender as initGoBackN leaves it. */
  ghost function Start(txSeq: nat, t0: int): (s: Sender)
    ensures Inv(s) && s == Initial(txSeq, t0)
  {
    InitInv(txSeq, t0);
    Initial(txSeq, t0)
  }

  /** The state after the events, in order. */
  ghost function Run(s: Sender, es: seq<Event>): (r: Sender)
    requires Inv(s)
    ensures Inv(r)
  {
    if es == [] then s else Step(Run(s, es[..|es| - 1]), es[|es| - 1])
  }

  function EndTime(t0: int, es: seq<Event>): (t: int)
  {
    if es == [] then t0 else es[|es| - 1].now
  }

  /** The clock, starting at t0, never goes back. */
  ghost predicate Ordered(t0: int, es: seq<Event>)
  {
    es == [] || (Ordered(t0, es[..|es| - 1]) && EndTime(t0, es[..|es| - 1]) <= es[|es| - 1].now)
  }

  // --- counting -----------------------------------------------------------------------------

  datatype Kind = Sends | DuplicateAcks | FastRetransmits | Timeouts | Halvings

  ghost predicate Happens(k: Kind, s: Sender, e: Event)
    requires Inv(s)
  {
    match k
    case Sends => e.op.Send?
    case DuplicateAcks => e.op.AckIn? && Duplicates(s, e.op.ack)
    case FastRetransmits => e.op.AckIn? && Duplicates(s, e.op.ack) && s.dupAcks + 1 >= 3
    case Timeouts => e.op.OnTick? && TimesOut(s, e.now)
    case Halvings => Step(s, e).cwndCut != s.cwndCut
  }

  ghost function Total(k: Kind, s: Sender, es: seq<Event>): (n: nat)
    requires Inv(s)
  {
    if es == [] then 0 else
    var front, last := es[..|es| - 1], es[|es| - 1];
    Total(k, s, front) + (if Happens(k, Run(s, front), last) then 1 else 0)
  }

  /** Every fast retransmit is paid for by three duplicate ACKs. */
  lemma {:induction false} DuplicateAckAccounting(s: Sender, es: seq<Event>)
    requires Inv(s)
    ensures 3 * Total(FastRetransmits, s, es) + Run(s, es).dupAcks <= s.dupAcks + Total(DuplicateAcks, s, es)
  {
    if es != [] {
      DuplicateAckAccounting(s, es[..|es| - 1]);
    }
  }

  /** Every transmission is a first send, a fast retransmit or a timeout resend, and each of those transmits. */
  lemma {:induction false} TransmissionAccounting(s: Sender, es: seq<Event>)
    requires Inv(s)
    ensures |Run(s, es).wire| ==
            |s.wire| + Total(Sends, s, es) + Total(FastRetransmits, s, es) + Total(Timeouts, s, es)
  {
    if es != [] {
      var front, last := es[..|es| - 1], es[|es| - 1];
      TransmissionAccounting(s, front);
      StepTransmits(Run(s, front), last);
    }
  }

  lemma StepTransmits(p: Sender, e: Event)
    requires Inv(p)
    ensures |Step(p, e).wire| == |p.wire| +
              if Happens(Sends, p, e) || Happens(FastRetransmits, p, e) || Happens(Timeouts, p, e) then 1 else 0
  {
    assert p.sendBase < p.txSeq ==> p.sendBase in p.inflight;
  }

  // --- timing ---------------------------------------------------------------------------------

  /** The least time the first k timeouts since the last progress take. */
  function Waited(k: nat): (t: int)
    ensures t >= 0
  {
    if k == 0 then 0 else Waited(k - 1) + Backoff(RTO_MIN, k - 1)
  }

  ghost predicate Timed(s: Sender, t: int) {
    && s.lastProg <= s.lastReTx <= t
    && s.lastReTx - s.lastProg >= Waited(s.retxRun)
    && (s.cwndCut.Some? ==> s.cwndCut.value <= t)
    && (forall q | q in s.inflight :: s.inflight[q].sentAt <= t)
  }

  lemma ResendTimed(s: Sender, now: int, t: int)
    requires Inv(s) && Timed(s, t) && t <= now
    ensures var r := AfterResend(s, now);
            && r.lastReTx == now && r.lastProg == s.lastProg && r.retxRun == s.retxRun
            && (r.cwndCut.Some? ==> r.cwndCut.value <= now)
            && (forall q | q in r.inflight :: r.inflight[q].sentAt <= now)
  {
  }

  lemma AckTimed(s: Sender, ack: nat, now: int, t: int)
    requires Inv(s) && Timed(s, t) && t <= now
    ensures Timed(AfterAck(s, ack, now), now)
  {
    if Duplicates(s, ack) {
      ResendTimed(s, now, t);
    }
  }

  lemma TickTimed(s: Sender, now: int, t: int)
    requires Inv(s) && Timed(s, t) && t <= now
    ensures Timed(AfterTick(s, now), now)
  {
    if TimesOut(s, now) {
      ResendTimed(s, now, t);
      assert Backoff(RTO_MIN, s.retxRun) <= Backoff(s.rtt.rto, s.retxRun);
    }
  }

  lemma SendTimed(s: Sender, f: Frame, now: int, t: int)
    requires Inv(s) && Timed(s, t) && t <= now
    ensures Timed(AfterSend(s, f, now), now)
  {
  }

  lemma StepTimed(s: Sender, e: Event, t: int)
    requires Inv(s) && Timed(s, t) && t <= e.now
    ensures Timed(Step(s, e), e.now)
  {
    match e.op
    case Send(f) => SendTimed(s, f, e.now, t);
    case AckIn(a) => AckTimed(s, a, e.now, t);
    case OnTick => TickTimed(s, e.now, t);
  }

  lemma {:induction false} RunTimed(s: Sender, es: seq<Event>, t0: int)
    requires Inv(s) && Timed(s, t0) && Ordered(t0, es)
    ensures Timed(Run(s, es), EndTime(t0, es))
    ensures t0 <= EndTime(t0, es)
  {
    if es != [] {
      RunTimed(s, es[..|es| - 1], t0);
      StepTimed(Run(s, es[..|es| - 1]), es[|es| - 1], EndTime(t0, es[..|es| - 1]));
    }
  }

  lemma {:induction false} WaitedMonotone(k: nat, m: nat)
    requires k <= m
    ensures Waited(k) <= Waited(m)
  {
    if k < m {
      WaitedMonotone(k, m - 1);
    }
  }

  lemma WaitedEleven()
    ensures Waited(11) == 31_750_000_000
  {
    assert Waited(3) == 1_750_000_000;
    assert Waited(5) == Waited(3) + 6_000_000_000;
    assert Waited(7) == Waited(5) + 8_000_000_000;
    assert Waited(9) == Waited(7) + 8_000_000_000;
  }

  /** Eleven timeouts outlast the give-up limit. */
  lemma {:induction false} ElevenTimeoutsTooLong(k: nat)
    requires Waited(k) <= GIVE_UP
    ensures k <= 10
  {
    WaitedEleven();
    if k >= 11 {
      WaitedMonotone(11, k);
    }
  }

  /** No tick of the run found the stream dead. */
  ghost predicate Alive(s: Sender, es: seq<Event>)
    requires Inv(s)
  {
    es == [] ||
    var front, last := es[..|es| - 1], es[|es| - 1];
    Alive(s, front) && !(last.op.OnTick? && GivesUp(Run(s, front), last.now))
  }

  lemma {:induction false} AliveRetxRun(s: Sender, es: seq<Event>, t0: int)
    requires Inv(s) && Timed(s, t0) && Ordered(t0, es) && Alive(s, es) && s.retxRun <= 10
    ensures Run(s, es).retxRun <= 10
  {
    if es != [] {
      var front, last := es[..|es| - 1], es[|es| - 1];
      AliveRetxRun(s, front, t0);
      RunTimed(s, es, t0);
      if last.op.OnTick? && TimesOut(Run(s, front), last.now) {
        ElevenTimeoutsTooLong(Run(s, es).retxRun);
      }
    }
  }

  lemma StepTimeouts(p: Sender, e: Event)
    requires Inv(p)
    ensures p.sendBase <= Step(p, e).sendBase
    ensures p.sendBase == Step(p, e).sendBase ==>
              Step(p, e).retxRun == p.retxRun + if Happens(Timeouts, p, e) then 1 else 0
  {
  }

  /** The base never moves back, and while it stays every timeout is on the retransmission count. */
  lemma {:induction false} BaseMonotone(s: Sender, es: seq<Event>)
    requires Inv(s)
    ensures s.sendBase <= Run(s, es).sendBase
    ensures s.sendBase == Run(s, es).sendBase ==> Total(Timeouts, s, es) + s.retxRun == Run(s, es).retxRun
  {
    if es != [] {
      BaseMonotone(s, es[..|es| - 1]);
      StepTimeouts(Run(s, es[..|es| - 1]), es[|es| - 1]);
    }
  }

  /**
   * While the base stays where it is, a sender that was alive until the last event has timed
   * out at most 11 times, and at most 10 times if that event did not find it dead either.
   */
  lemma {:induction false} TimeoutsBeforeGiveUp(s: Sender, es: seq<Event>, t0: int)
    requires Inv(s) && Timed(s, t0) && Ordered(t0, es) && s.retxRun <= 10
    requires es != [] && Alive(s, es[..|es| - 1]) && Run(s, es).sendBase == s.sendBase
    ensures Total(Timeouts, s, es) <= 11
    ensures Alive(s, es) ==> Total(Timeouts, s, es) <= 10
  {
    AliveRetxRun(s, es[..|es| - 1], t0);
    BaseMonotone(s, es);
    if Alive(s, es) {
      AliveRetxRun(s, es, t0);
    }
  }

  /** A step that moves the base forward is what sets lastProg. */
  lemma StepProgress(s: Sender, e: Event)
    requires Inv(s)
    ensures var r := Step(s, e);
            || (r.sendBase == s.sendBase && r.lastProg == s.lastProg)
            || (r.sendBase > s.sendBase && r.lastProg == e.now)
  {
  }

  /** If the base moved at event k or later, lastProg says so. */
  lemma {:induction false} ProgressDated(s: Sender, es: seq<Event>, t0: int, k: nat)
    requires Inv(s) && Timed(s, t0) && Ordered(t0, es) && k <= |es|
    ensures Run(s, es[..k]).sendBase == Run(s, es).sendBase || (k < |es| && Run(s, es).lastProg >= es[k].now)
    ensures k < |es| ==> es[k].now <= EndTime(t0, es)
  {
    if k == |es| {
      assert es[..k] == es;
    } else {
      var front := es[..|es| - 1];
      assert k < |front| ==> front[..k] == es[..k] && front[k] == es[k];
      assert k == |front| ==> es[..k] == front;
      ProgressDated(s, front, t0, k);
      StepProgress(Run(s, front), es[|es| - 1]);
    }
  }

  /**
   * A give-up after a run from initGoBackN means that no event of the last 30 seconds advanced
   * the base, and that the sender itself is older than that.
   */
  lemma {:induction false} GiveUpMeansNoProgress(txSeq: nat, t0: int, es: seq<Event>, now: int, k: nat)
    requires Ordered(t0, es) && EndTime(t0, es) <= now
    requires GivesUp(Run(Start(txSeq, t0), es), now)
    requires k <= |es| && (k < |es| ==> now - es[k].now <= GIVE_UP)
    ensures Run(Start(txSeq, t0), es[..k]).sendBase == Run(Start(txSeq, t0), es).sendBase
    ensures now - t0 > GIVE_UP
  {
    ProgressDated(Start(txSeq, t0), es, t0, k);
    ProgressSinceStart(txSeq, t0, es);
  }

  lemma {:induction false} ProgressSinceStart(txSeq: nat, t0: int, es: seq<Event>)
    requires Ordered(t0, es)
    ensures t0 <= Run(Start(txSeq, t0), es).lastProg
  {
    if es != [] {
      ProgressSinceStart(txSeq, t0, es[..|es| - 1]);
      RunTimed(Start(txSeq, t0), es, t0);
    }
  }

  /** The stream is given up at now, after the events, with frame q the oldest unacknowledged. */
  ghost predicate GivesUpOn(s: Sender, es: seq<Event>, q: nat, now: int)
    requires Inv(s)
  {
    Run(s, es).sendBase == q && GivesUp(Run(s, es), now)
  }

  /** However the run goes on after time t, giving up on frame q takes more than 30 seconds from then. */
  ghost predicate OnlyLate(s: Sender, q: nat, t: int)
    requires Inv(s)
  {
    forall more: seq<Event>, now: int | Ordered(t, more) && EndTime(t, more) <= now && GivesUpOn(s, more, q, now) ::
      now - t > GIVE_UP
  }

  /** lastProg never goes back, and dates any move of the base since t. */
  lemma {:induction false} ProgressAfter(s: Sender, more: seq<Event>, t: int)
    requires Inv(s) && Timed(s, t) && Ordered(t, more)
    ensures Run(s, more).lastProg >= s.lastProg
    ensures Run(s, more).sendBase == s.sendBase || Run(s, more).lastProg >= t
  {
    if more != [] {
      var front := more[..|more| - 1];
      ProgressAfter(s, front, t);
      StepProgress(Run(s, front), more[|more| - 1]);
      RunTimed(s, front, t);
    }
  }

  /**
   * When frame q is sent at time t after any run, every later give-up with q the oldest frame
   * comes more than 30 seconds after that send, however the run goes on, if and only if the
   * window was busy before the send or progress was made at t itself: sending does not reset
   * lastProg, so a send that ends an idle stretch inherits its age.
   */
  lemma {:induction false} GiveUpBlamesOldestIff(txSeq: nat, t0: int, es: seq<Event>, f: Frame, t: int)
    requires Ordered(t0, es) && EndTime(t0, es) <= t
    ensures var p := Run(Start(txSeq, t0), es);
            && Inv(AfterSend(p, f, t))
            && (OnlyLate(AfterSend(p, f, t), p.txSeq, t) <==> p.sendBase < p.txSeq || p.lastProg >= t)
  {
    var p := Run(Start(txSeq, t0), es);
    RunTimed(Start(txSeq, t0), es, t0);
    SendInv(p, f, t);
    SendTimed(p, f, t, EndTime(t0, es));
    if p.sendBase < p.txSeq || p.lastProg >= t {
      BusyGivesUpLate(p, f, t);
    } else {
      IdleGivesUpEarly(p, f, t);
    }
  }

  lemma BusyGivesUpLate(p: Sender, f: Frame, t: int)
    requires Inv(AfterSend(p, f, t)) && Timed(AfterSend(p, f, t), t)
    requires p.sendBase < p.txSeq || p.lastProg >= t
    ensures OnlyLate(AfterSend(p, f, t), p.txSeq, t)
  {
    var s := AfterSend(p, f, t);
    forall more: seq<Event>, now: int | Ordered(t, more) && EndTime(t, more) <= now && GivesUpOn(s, more, p.txSeq, now)
      ensures now - t > GIVE_UP {
      ProgressAfter(s, more, t);
    }
  }

  lemma IdleGivesUpEarly(p: Sender, f: Frame, t: int)
    requires Inv(AfterSend(p, f, t)) && p.sendBase == p.txSeq && p.lastProg < t
    ensures !OnlyLate(AfterSend(p, f, t), p.txSeq, t)
  {
    var s := AfterSend(p, f, t);
    var now := if t > p.lastProg + GIVE_UP then t else p.lastProg + GIVE_UP + 1;
    assert Run(s, []) == s;
    assert GivesUpOn(s, [], p.txSeq, now);
  }

  /** A first write after 31 idle seconds is given up on the very tick after it was sent. */
  lemma IdleStreamGivesUpAtOnce(f: Frame)
    ensures var s := Run(Start(3, 0), [Event(Send(f), 31_000 * MS)]);
            GivesUp(s, 31_000 * MS) && s.sendBase in s.inflight && s.inflight[s.sendBase].sentAt == 31_000 * MS
  {
    var es := [Event(Send(f), 31_000 * MS)];
    assert es[..0] == [];
    assert Run(Start(3, 0), es) == Step(Run(Start(3, 0), []), es[0]);
  }

  // --- the congestion window ------------------------------------------------------------------

  /** The window went from c0 to c1 while n frames were acknowledged. */
  ghost predicate Grew(c0: real, c1: real, n: real) {
    c1 >= c0 && c1 * c1 >= c0 * c0 + 2.0 * n && c1 * c0 <= c0 * c0 + n
  }

  ghost predicate GrewSince(s: Sender, r: Sender) {
    Grew(s.cwnd, r.cwnd, (r.sendBase - s.sendBase) as real)
  }

  /**
   * Without a cut, acknowledging n frames takes the window from c0 to c1 with
   * c1^2 >= c0^2 + 2n and c1 <= c0 + n/c0: about one frame more per window acknowledged.
   */
  lemma {:induction false} AdditiveIncrease(s: Sender, es: seq<Event>)
    requires Inv(s) && Total(Halvings, s, es) == 0
    ensures GrewSince(s, Run(s, es))
  {
    if es != [] {
      var front, last := es[..|es| - 1], es[|es| - 1];
      AdditiveIncrease(s, front);
      GrowthOverStep(s, Run(s, front), last);
    } else {
      GrewAtStart(s);
    }
  }

  lemma GrewAtStart(s: Sender)
    ensures GrewSince(s, s)
  {
  }

  lemma GrowthOverStep(s: Sender, p: Sender, e: Event)
    requires Inv(s) && Inv(p) && !Happens(Halvings, p, e)
    requires GrewSince(s, p)
    ensures GrewSince(s, Step(p, e))
  {
    UncutStep(p, e);
    var r := Step(p, e);
    GrowthContinues(s.cwnd, p.cwnd, r.cwnd, s.sendBase, p.sendBase, r.sendBase);
  }

  /** A step without a cut changes the window only by the growth its acknowledged frames bring. */
  lemma UncutStep(p: Sender, e: Event)
    requires Inv(p) && !Happens(Halvings, p, e)
    ensures var r := Step(p, e);
            && r.sendBase >= p.sendBase
            && r.cwnd == p.cwnd + ((r.sendBase - p.sendBase) as real) / p.cwnd
  {
  }

  lemma GrowthContinues(c0: real, c: real, c': real, b0: int, b: int, b': int)
    requires 0.0 < c0 && b <= b' && Grew(c0, c, (b - b0) as real)
    requires c' == c + ((b' - b) as real) / c
    ensures Grew(c0, c', (b' - b0) as real)
  {
    GrowthStep(c0, c, (b - b0) as real, (b' - b) as real);
  }

  lemma GrowthStep(c0: real, c: real, n: real, a: real)
    requires 0.0 < c0 <= c && a >= 0.0 && Grew(c0, c, n)
    ensures Grew(c0, c + a / c, n + a)
  {
    var g := a / c;
    assert g * c == a && g >= 0.0;
    SquareOfSum(c, g);
    assert g * g >= 0.0;
    assert (c + g) * c0 == c * c0 + g * c0;
    assert g * c0 <= g * c;
  }

  lemma SquareOfSum(c: real, g: real)
    ensures (c + g) * (c + g) == c * c + 2.0 * (g * c) + g * g
  {
  }

  /** A cut happens at the event's time, and at least the minimum timeout after the one before. */
  lemma CutStep(p: Sender, e: Event)
    requires Inv(p)
    ensures var r := Step(p, e);
            || r.cwndCut == p.cwndCut
            || (r.cwndCut == Some(e.now) && (p.cwndCut.Some? ==> e.now >= p.cwndCut.value + RTO_MIN))
  {
  }

  /** Cuts are at least the minimum timeout apart. */
  lemma {:induction false} HalvingsDated(s: Sender, es: seq<Event>, t0: int)
    requires Inv(s) && Timed(s, t0) && Ordered(t0, es) && es != []
    ensures var h := Total(Halvings, s, es);
            h > 0 ==> Run(s, es).cwndCut.Some? && Run(s, es).cwndCut.value >= es[0].now + (h - 1) * 250_000_000
    ensures es[0].now <= EndTime(t0, es)
  {
    var front, last := es[..|es| - 1], es[|es| - 1];
    CutStep(Run(s, front), last);
    if front == [] {
      assert Total(Halvings, s, front) == 0;
    } else {
      assert front[0] == es[0];
      HalvingsDated(s, front, t0);
    }
  }

  /** A run lasting d nanoseconds halves the window at most 1 + d/250ms times. */
  lemma {:induction false} HalvingsBounded(s: Sender, es: seq<Event>, t0: int)
    requires Inv(s) && Timed(s, t0) && Ordered(t0, es) && es != []
    ensures (Total(Halvings, s, es) - 1) * 250_000_000 <= es[|es| - 1].now - es[0].now
  {
    HalvingsDated(s, es, t0);
    RunTimed(s, es, t0);
  }

  /** Samples lie within the age of the sender, and so does the estimate. */
  ghost predicate Aged(s: Sender, t0: int, t: int) {
    && Within(s.rtt, 0, t - t0)
    && (forall q | q in s.inflight :: t0 <= s.inflight[q].sentAt <= t)
  }

  lemma StepAged(s: Sender, e: Event, t0: int, t: int)
    requires Inv(s) && Aged(s, t0, t) && t0 <= t <= e.now
    ensures Aged(Step(s, e), t0, e.now)
  {
    match e.op
    case Send(_) =>
    case AckIn(a) => AckAged(s, a, e.now, t0, t);
    case OnTick =>
  }

  lemma AckAged(s: Sender, ack: nat, now: int, t0: int, t: int)
    requires Inv(s) && Aged(s, t0, t) && t0 <= t <= now
    ensures Aged(AfterAck(s, ack, now), t0, now)
  {
    if Samples(s, ack) {
      SampleWithin(s.rtt, now - s.inflight[ack].sentAt, 0, now - t0);
    }
  }

  /** Along every run the round-trip estimate stays between 0 and the age of the sender. */
  lemma {:induction false} RunEstimate(txSeq: nat, t0: int, es: seq<Event>)
    requires Ordered(t0, es)
    ensures Aged(Run(Start(txSeq, t0), es), t0, EndTime(t0, es)) && t0 <= EndTime(t0, es)
  {
    if es != [] {
      var front, last := es[..|es| - 1], es[|es| - 1];
      RunEstimate(txSeq, t0, front);
      StepAged(Run(Start(txSeq, t0), front), last, t0, EndTime(t0, front));
    }
  }
}
