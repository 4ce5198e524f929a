/**
 * The go-back-N sender told by its events alone: what arrived and ticked and when, which frames
 * went onto the wire, and where the window stood. Nothing here speaks of the fields in which the
 * sender keeps its timers and counters.
 */
module GoBackNEvents {
  import opened Bytes
  import Bits
  import opened Rtt
  import opened GoBackN
  import opened GoBackNRuns

  /** Where a run begins: the first sequence number and the clock at initGoBackN. */
  datatype Origin = Origin(txSeq: nat, t0: int)

  ghost function At(o: Origin, es: seq<Event>): (s: Sender)
    ensures Inv(s)
  {
    Run(Start(o.txSeq, o.t0), es)
  }

  function Front(es: seq<Event>): (front: seq<Event>)
    requires es != []
  {
    es[..|es| - 1]
  }

  function Last(es: seq<Event>): (e: Event)
    requires es != []
  {
    es[|es| - 1]
  }

  lemma {:induction false} AtNext(o: Origin, es: seq<Event>)
    requires es != []
    ensures At(o, es) == Step(At(o, Front(es)), Last(es))
  {
  }

  // --- what can be seen of the last event ---------------------------------------------------------

  ghost predicate Unacked(o: Origin, es: seq<Event>) {
    At(o, es).sendBase < At(o, es).txSeq
  }

  /** It moved the base. */
  ghost predicate Moved(o: Origin, es: seq<Event>)
    requires es != []
  {
    At(o, es).sendBase != At(o, Front(es)).sendBase
  }

  /** It put something on the wire. */
  ghost predicate Transmitted(o: Origin, es: seq<Event>)
    requires es != []
  {
    |At(o, es).wire| > |At(o, Front(es)).wire|
  }

  ghost predicate Retransmitted(o: Origin, es: seq<Event>)
    requires es != []
  {
    Transmitted(o, es) && !Last(es).op.Send?
  }

  /** The number the last ACK named; 0 before the first. */
  function LastAckIn(es: seq<Event>): (a: nat)
  {
    if es == [] then 0 else if Last(es).op.AckIn? then Last(es).op.ack else LastAckIn(Front(es))
  }

  /** The last event is an ACK naming what the ACK before it named, with frames unacknowledged and none freed. */
  ghost predicate Repeat(o: Origin, es: seq<Event>)
    requires es != []
  {
    && Last(es).op.AckIn? && Last(es).op.ack == LastAckIn(Front(es))
    && Unacked(o, Front(es)) && !Moved(o, es)
  }

  /** Repeated ACKs since the base last moved. */
  ghost function Repeats(o: Origin, es: seq<Event>): (n: nat)
  {
    if es == [] || Moved(o, es) then 0 else Repeats(o, Front(es)) + if Repeat(o, es) then 1 else 0
  }

  /** Timeouts since the base last moved. */
  ghost function TimeoutsSince(o: Origin, es: seq<Event>): (n: nat)
  {
    if es == [] || Moved(o, es) then 0 else
    TimeoutsSince(o, Front(es)) + if Last(es).op.OnTick? && Transmitted(o, es) then 1 else 0
  }

  /** When something was last put on the wire, or the base last moved. */
  ghost function LastActivity(o: Origin, es: seq<Event>): (t: int)
  {
    if es == [] then o.t0 else
    if Transmitted(o, es) || Moved(o, es) then Last(es).now else LastActivity(o, Front(es))
  }

  /** When the base last moved. */
  ghost function LastProgress(o: Origin, es: seq<Event>): (t: int)
  {
    if es == [] then o.t0 else if Moved(o, es) then Last(es).now else LastProgress(o, Front(es))
  }

  /** When the frames were first sent, by sequence number from the first on. */
  function SendTimes(es: seq<Event>): (ts: seq<int>)
  {
    if es == [] then [] else SendTimes(Front(es)) + if Last(es).op.Send? then [Last(es).now] else []
  }

  // --- what each event does to window and wire ------------------------------------------------------

  /** Only an ACK moves the base: to just past what it names, if that is ahead and was sent. */
  lemma {:induction false} BaseStep(o: Origin, es: seq<Event>)
    requires es != []
    ensures var p, r := At(o, Front(es)), At(o, es);
            match Last(es).op
            case AckIn(a) =>
              r.txSeq == p.txSeq && r.sendBase == if p.sendBase < a + 1 <= p.txSeq then a + 1 else p.sendBase
            case Send(_) => r.txSeq == p.txSeq + 1 && r.sendBase == p.sendBase
            case OnTick => r.txSeq == p.txSeq && r.sendBase == p.sendBase
  {
    AtNext(o, es);
  }

  /** A send transmits its frame under the next number; anything else the oldest frame, as it was first sent. */
  lemma {:induction false} WireStep(o: Origin, es: seq<Event>)
    requires es != []
    ensures var p, r := At(o, Front(es)), At(o, es);
            && (Last(es).op.Send? ==> r.wire == p.wire + [Sent(p.txSeq, Last(es).op.frame)])
            && (Retransmitted(o, es) ==>
                  && Unacked(o, Front(es)) && |r.wire| == |p.wire| + 1 && r.wire[..|p.wire|] == p.wire
                  && r.wire[|p.wire|].seqNo == p.sendBase
                  && forall k | 0 <= k < |p.wire| && p.wire[k].seqNo == p.sendBase ::
                       p.wire[k].frame == r.wire[|p.wire|].frame)
  {
    AtNext(o, es);
    var p := At(o, Front(es));
    if p.sendBase in p.inflight {
      assert Tracked(p.wire, p.sendBase, p.inflight[p.sendBase]);
    }
  }

  // --- fast retransmission ----------------------------------------------------------------------------

  lemma {:induction false} CountersAre(o: Origin, es: seq<Event>)
    ensures At(o, es).lastAckSeq == LastAckIn(es) && At(o, es).dupAcks == Repeats(o, es) % 3
  {
    if es != [] {
      CountersAre(o, Front(es));
      CounterStep(o, es);
    }
  }

  lemma {:induction false} CounterStep(o: Origin, es: seq<Event>)
    requires es != []
    requires At(o, Front(es)).lastAckSeq == LastAckIn(Front(es))
    requires At(o, Front(es)).dupAcks == Repeats(o, Front(es)) % 3
    ensures At(o, es).lastAckSeq == LastAckIn(es) && At(o, es).dupAcks == Repeats(o, es) % 3
    ensures Last(es).op.AckIn? ==> (Transmitted(o, es) <==> Repeat(o, es) && Repeats(o, es) % 3 == 0)
  {
    AtNext(o, es);
    CounterMoves(At(o, Front(es)), Last(es));
    RepeatsNext(o, es);
    CountOn(At(o, Front(es)), Last(es), At(o, es), Repeats(o, Front(es)), Repeats(o, es));
  }

  lemma {:induction false} RepeatsNext(o: Origin, es: seq<Event>)
    requires es != []
    ensures Repeats(o, es) == if Moved(o, es) then 0 else Repeats(o, Front(es)) + if Repeat(o, es) then 1 else 0
  {
  }

  /** What a step does to the duplicate counter, the last ACK and the length of the wire. */
  ghost predicate Counts(p: Sender, e: Event, r: Sender) {
    match e.op
    case AckIn(a) =>
      var ahead, again := p.sendBase < a + 1 <= p.txSeq, p.sendBase < p.txSeq && a == p.lastAckSeq;
      && r.lastAckSeq == a && (ahead <==> r.sendBase != p.sendBase)
      && r.dupAcks == (if ahead then 0 else if again then (if p.dupAcks == 2 then 0 else p.dupAcks + 1) else p.dupAcks)
      && (|r.wire| > |p.wire| <==> !ahead && again && p.dupAcks == 2)
    case _ => r.lastAckSeq == p.lastAckSeq && r.dupAcks == p.dupAcks && r.sendBase == p.sendBase
  }

  lemma {:induction false} CounterMoves(p: Sender, e: Event)
    requires Inv(p)
    ensures Counts(p, e, Step(p, e))
  {
    assert p.sendBase < p.txSeq ==> p.sendBase in p.inflight;
  }

  /** Counting on from n repeated ACKs, given that the duplicate counter is what n leaves over by three. */
  lemma {:induction false} CountOn(p: Sender, e: Event, r: Sender, n: nat, n': nat)
    requires Counts(p, e, r) && p.dupAcks == n % 3
    requires var again := e.op.AckIn? && e.op.ack == p.lastAckSeq && p.sendBase < p.txSeq;
             n' == if r.sendBase != p.sendBase then 0 else n + if again then 1 else 0
    ensures r.dupAcks == n' % 3
    ensures e.op.AckIn? ==>
              (|r.wire| > |p.wire| <==>
                 && r.sendBase == p.sendBase && e.op.ack == p.lastAckSeq && p.sendBase < p.txSeq
                 && n' % 3 == 0)
  {
    assert (n + 1) % 3 == if n % 3 == 2 then 0 else n % 3 + 1;
  }

  /**
   * Fast retransmission, exactly: of the ACKs in any run, those put a frame on the wire that are
   * the third, sixth, ninth ... since the base last moved to repeat the ACK just before them.
   */
  lemma {:induction false} FastRetransmitIff(o: Origin, es: seq<Event>)
    requires es != [] && Last(es).op.AckIn?
    ensures Transmitted(o, es) <==> Repeat(o, es) && Repeats(o, es) % 3 == 0
  {
    CountersAre(o, Front(es));
    CounterStep(o, es);
  }

  /** Nothing the last ACK names is still unacknowledged, but something else is. */
  ghost predicate Stuck(s: Sender) {
    s.sendBase < s.txSeq && !(s.sendBase < s.lastAckSeq + 1 <= s.txSeq)
  }

  /** The ACK named last, once more. */
  ghost function Again(s: Sender, t: int): (r: Sender)
    requires Inv(s)
    ensures Inv(r)
  {
    Step(s, Event(AckIn(s.lastAckSeq), t))
  }

  /**
   * Three times in a row the ACK received last, freeing nothing: the oldest frame goes out once
   * more, as it is kept, and nothing else.
   */
  lemma {:induction false} ThreeRepeats(o: Origin, es: seq<Event>, t1: int, t2: int, t3: int)
    requires Unacked(o, es)
    requires var p := At(o, es); !(p.sendBase < LastAckIn(es) + 1 <= p.txSeq)
    ensures var a := LastAckIn(es);
            var p, r := At(o, es), At(o, es + [Event(AckIn(a), t1), Event(AckIn(a), t2), Event(AckIn(a), t3)]);
            r.sendBase == p.sendBase && r.txSeq == p.txSeq && r.wire == p.wire + [Oldest(p)]
  {
    var a, p := LastAckIn(es), At(o, es);
    CountersAre(o, es);
    var e1, e2, e3 := Event(AckIn(a), t1), Event(AckIn(a), t2), Event(AckIn(a), t3);
    AtSnoc(o, es, e1);
    AtSnoc(o, es + [e1], e2);
    AtSnoc(o, es + [e1] + [e2], e3);
    assert es + [e1] + [e2] + [e3] == es + [e1, e2, e3];
    ThreeAgain(p, t1, t2, t3);
    RepeatMoves(p, t1);
    RepeatMoves(Again(p, t1), t2);
  }

  lemma {:induction false} AtSnoc(o: Origin, es: seq<Event>, e: Event)
    ensures At(o, es + [e]) == Step(At(o, es), e)
  {
    AtNext(o, es + [e]);
    assert Front(es + [e]) == es;
  }

  lemma {:induction false} ThreeAgain(p: Sender, t1: int, t2: int, t3: int)
    requires Inv(p) && Stuck(p)
    ensures var r := Again(Again(Again(p, t1), t2), t3);
            r.sendBase == p.sendBase && r.txSeq == p.txSeq && r.wire == p.wire + [Oldest(p)]
  {
    RepeatMoves(p, t1);
    RepeatMoves(Again(p, t1), t2);
    RepeatMoves(Again(Again(p, t1), t2), t3);
  }

  /** The oldest frame, as it is kept for retransmission. */
  function Oldest(s: Sender): (x: Sent)
  {
    if s.sendBase in s.inflight then Sent(s.sendBase, s.inflight[s.sendBase].frame)
    else Sent(s.sendBase, Frame(0, 0, 0, []))
  }

  lemma {:induction false} RepeatMoves(p: Sender, t: int)
    requires Inv(p) && Stuck(p)
    ensures var r := Again(p, t);
            && Stuck(r) && r.lastAckSeq == p.lastAckSeq && r.sendBase == p.sendBase && r.txSeq == p.txSeq
            && r.dupAcks == (if p.dupAcks == 2 then 0 else p.dupAcks + 1) && Oldest(r) == Oldest(p)
            && r.wire == if p.dupAcks == 2 then p.wire + [Oldest(p)] else p.wire
  {
    assert p.sendBase in p.inflight;
  }

  // --- timeouts and giving up ---------------------------------------------------------------------------

  lemma {:induction false} TimersAre(o: Origin, es: seq<Event>)
    ensures var s := At(o, es);
            && s.lastReTx == LastActivity(o, es) && s.lastProg == LastProgress(o, es)
            && s.retxRun == TimeoutsSince(o, es)
  {
    if es != [] {
      TimersAre(o, Front(es));
      TimerStep(o, es);
    }
  }

  lemma {:induction false} TimerStep(o: Origin, es: seq<Event>)
    requires es != []
    requires var s := At(o, Front(es));
             && s.lastReTx == LastActivity(o, Front(es)) && s.lastProg == LastProgress(o, Front(es))
             && s.retxRun == TimeoutsSince(o, Front(es))
    ensures var s := At(o, es);
            && s.lastReTx == LastActivity(o, es) && s.lastProg == LastProgress(o, es)
            && s.retxRun == TimeoutsSince(o, es)
  {
    AtNext(o, es);
    TimerMoves(At(o, Front(es)), Last(es));
    TimersNext(o, es);
  }

  lemma {:induction false} TimersNext(o: Origin, es: seq<Event>)
    requires es != []
    ensures LastActivity(o, es) ==
            if Transmitted(o, es) || Moved(o, es) then Last(es).now else LastActivity(o, Front(es))
    ensures LastProgress(o, es) == if Moved(o, es) then Last(es).now else LastProgress(o, Front(es))
    ensures TimeoutsSince(o, es) ==
            if Moved(o, es) then 0 else
            TimeoutsSince(o, Front(es)) + if Last(es).op.OnTick? && Transmitted(o, es) then 1 else 0
  {
  }

  /** What a step does to the timers, by what it does to wire and base. */
  ghost predicate Times(p: Sender, e: Event, r: Sender) {
    var sent, moved := |r.wire| > |p.wire|, r.sendBase != p.sendBase;
    && r.lastReTx == (if sent || moved then e.now else p.lastReTx)
    && r.lastProg == (if moved then e.now else p.lastProg)
    && r.retxRun == (if moved then 0 else if sent && e.op.OnTick? then p.retxRun + 1 else p.retxRun)
  }

  lemma {:induction false} TimerMoves(p: Sender, e: Event)
    requires Inv(p)
    ensures Times(p, e, Step(p, e))
  {
    assert p.sendBase < p.txSeq ==> p.sendBase in p.inflight;
  }

  /** The wait doubles with each timeout since the base last moved, four times at most. */
  lemma BackoffDoubles(rto: int, run: nat)
    ensures Backoff(rto, run) == rto * Bits.Pow2(Min(run, 4))
  {
    assert Bits.Pow2(1) == 2 && Bits.Pow2(2) == 4 && Bits.Pow2(3) == 8 && Bits.Pow2(4) == 16;
  }

  /**
   * Timeout, exactly: a tick puts a frame on the wire if and only if one is unacknowledged and
   * nothing was transmitted or freed for longer than the timeout, doubled for each timeout since
   * the base last moved, four times at most.
   */
  lemma {:induction false} TimeoutIff(o: Origin, es: seq<Event>)
    requires es != [] && Last(es).op.OnTick?
    ensures Transmitted(o, es) <==>
              && Unacked(o, Front(es))
              && Last(es).now - LastActivity(o, Front(es))
                 > At(o, Front(es)).rtt.rto * Bits.Pow2(Min(TimeoutsSince(o, Front(es)), 4))
  {
    AtNext(o, es);
    TimersAre(o, Front(es));
    var p := At(o, Front(es));
    BackoffDoubles(p.rtt.rto, p.retxRun);
    assert p.sendBase < p.txSeq ==> p.sendBase in p.inflight;
  }

  /** Giving up, exactly: frames are unacknowledged and the base has not moved for more than 30 seconds. */
  lemma {:induction false} GiveUpIff(o: Origin, es: seq<Event>, now: int)
    ensures GivesUp(At(o, es), now) <==> Unacked(o, es) && now - LastProgress(o, es) > 30_000_000_000
  {
    TimersAre(o, es);
  }

  // --- the round-trip estimate ----------------------------------------------------------------------------

  /** Every frame in flight carries the time of its first sending. */
  lemma {:induction false} SendTimesAre(o: Origin, es: seq<Event>)
    ensures var s := At(o, es);
            && o.txSeq <= s.sendBase && s.txSeq == o.txSeq + |SendTimes(es)|
            && forall q | q in s.inflight :: s.inflight[q].sentAt == SendTimes(es)[q - o.txSeq]
  {
    if es != [] {
      SendTimesAre(o, Front(es));
      AtNext(o, es);
      InflightMoves(At(o, Front(es)), Last(es));
      BaseStep(o, es);
      SendTimesNext(es);
    }
  }

  lemma {:induction false} SendTimesNext(es: seq<Event>)
    requires es != []
    ensures SendTimes(es) == SendTimes(Front(es)) + if Last(es).op.Send? then [Last(es).now] else []
  {
  }

  /** Frames in flight keep the time of their first sending; only a send adds one. */
  lemma {:induction false} InflightMoves(p: Sender, e: Event)
    requires Inv(p)
    ensures var r := Step(p, e);
            forall q | q in r.inflight ::
              if q in p.inflight then r.inflight[q].sentAt == p.inflight[q].sentAt
              else e.op.Send? && q == p.txSeq && r.inflight[q].sentAt == e.now
  {
  }

  /**
   * The round trip the last event measured: it is an ACK that moves the base past a frame which
   * was transmitted exactly once, and the time is that since its sending.
   */
  ghost function Measured(o: Origin, es: seq<Event>): (m: Option<int>)
    requires es != []
  {
    SendTimesAre(o, Front(es));
    if Last(es).op.AckIn? && Moved(o, es) && Count(At(o, Front(es)).wire, Last(es).op.ack) == 1 then
      BaseStep(o, es);
      Some(Last(es).now - SendTimes(Front(es))[Last(es).op.ack - o.txSeq])
    else None
  }

  ghost function Samples(o: Origin, es: seq<Event>): (samples: seq<int>)
  {
    if es == [] then [] else
    Samples(o, Front(es)) + match Measured(o, es) case None => [] case Some(m) => [m]
  }

  /** The estimate is that of the measured round trips, each of them and no others, in order. */
  lemma {:induction false} EstimateIs(o: Origin, es: seq<Event>)
    ensures At(o, es).rtt == SampleAll(Estimate(0, 0, 400_000_000), Samples(o, es))
  {
    if es != [] {
      EstimateIs(o, Front(es));
      EstimateStep(o, es);
      var front := Samples(o, Front(es));
      if Measured(o, es).Some? {
        assert Samples(o, es)[..|front|] == front;
      } else {
        assert Samples(o, es) == front;
      }
    }
  }

  lemma {:induction false} EstimateStep(o: Origin, es: seq<Event>)
    requires es != []
    ensures At(o, es).rtt == match Measured(o, es)
                             case None => At(o, Front(es)).rtt
                             case Some(m) => Sample(At(o, Front(es)).rtt, m)
  {
    AtNext(o, es);
    MeasuredIs(o, es);
    EstimateMoves(At(o, Front(es)), Last(es));
  }

  /** A step frees a frame that was transmitted exactly once. */
  ghost predicate FreesOnce(p: Sender, e: Event)
    requires Inv(p)
  {
    e.op.AckIn? && Step(p, e).sendBase != p.sendBase && Count(p.wire, e.op.ack) == 1
  }

  lemma {:induction false} MeasuredIs(o: Origin, es: seq<Event>)
    requires es != []
    ensures var p, e := At(o, Front(es)), Last(es);
            if FreesOnce(p, e) then
              e.op.ack in p.inflight && Measured(o, es) == Some(e.now - p.inflight[e.op.ack].sentAt)
            else Measured(o, es) == None
  {
    AtNext(o, es);
    SendTimesAre(o, Front(es));
    EstimateMoves(At(o, Front(es)), Last(es));
  }

  /** A step takes a sample exactly if it frees a frame transmitted once, and of the time that frame was out. */
  lemma {:induction false} EstimateMoves(p: Sender, e: Event)
    requires Inv(p)
    ensures var r := Step(p, e);
            if FreesOnce(p, e) then
              e.op.ack in p.inflight && r.rtt == Sample(p.rtt, e.now - p.inflight[e.op.ack].sentAt)
            else r.rtt == p.rtt
  {
    if e.op.AckIn? && e.op.ack in p.inflight {
      assert Tracked(p.wire, e.op.ack, p.inflight[e.op.ack]);
    }
  }

  // --- the congestion window --------------------------------------------------------------------------------

  /** The last event cuts the window: it retransmits, and the cut before, at t, is at least a timeout past. */
  ghost predicate CutsAfter(o: Origin, es: seq<Event>, t: Option<int>)
    requires es != []
  {
    Retransmitted(o, es) && (t.Some? ==> Last(es).now - t.value >= At(o, Front(es)).rtt.rto)
  }

  /** When the window was last cut. */
  ghost function LastCut(o: Origin, es: seq<Event>): (t: Option<int>)
  {
    if es == [] then None else
    var before := LastCut(o, Front(es));
    if CutsAfter(o, es, before) then Some(Last(es).now) else before
  }

  ghost predicate Cuts(o: Origin, es: seq<Event>)
    requires es != []
  {
    CutsAfter(o, es, LastCut(o, Front(es)))
  }

  lemma {:induction false} CutIs(o: Origin, es: seq<Event>)
    ensures At(o, es).cwndCut == LastCut(o, es)
  {
    if es != [] {
      CutIs(o, Front(es));
      AtNext(o, es);
      WindowOf(At(o, Front(es)), Last(es));
    }
  }

  /** What a step does to the window and the time of its last cut. */
  lemma {:induction false} WindowOf(p: Sender, e: Event)
    requires Inv(p)
    ensures var r := Step(p, e);
            var again := |r.wire| > |p.wire| && !e.op.Send?;
            var cuts := again && (p.cwndCut.Some? ==> e.now - p.cwndCut.value >= p.rtt.rto);
            WindowMoves(p, r, cuts) && r.cwndCut == if cuts then Some(e.now) else p.cwndCut
  {
    match e.op
    case Send(f) =>
    case AckIn(a) => WindowOfAck(p, a, e.now);
    case OnTick => WindowOfResend(p, e.now);
  }

  lemma {:induction false} WindowOfResend(p: Sender, now: int)
    requires Inv(p)
    ensures var r := AfterResend(p, now);
            var cuts := p.cwndCut.Some? ==> now - p.cwndCut.value >= p.rtt.rto;
            && r.cwndCut == (if cuts then Some(now) else p.cwndCut) && r.sendBase == p.sendBase
            && (if cuts then Halved(p.cwnd, r.cwnd) else r.cwnd == p.cwnd)
            && (p.sendBase < p.txSeq ==> |r.wire| == |p.wire| + 1)
  {
    assert p.sendBase < p.txSeq ==> p.sendBase in p.inflight;
  }

  lemma {:induction false} WindowOfAck(p: Sender, a: nat, now: int)
    requires Inv(p)
    ensures var r := AfterAck(p, a, now);
            var again := |r.wire| > |p.wire|;
            var cuts := again && (p.cwndCut.Some? ==> now - p.cwndCut.value >= p.rtt.rto);
            WindowMoves(p, r, cuts) && r.cwndCut == if cuts then Some(now) else p.cwndCut
  {
    if Advances(p, a) {
      WindowOfAdvance(p, a, now);
    } else {
      WindowOfResend(p, now);
    }
  }

  lemma {:induction false} WindowOfAdvance(p: Sender, a: nat, now: int)
    requires Inv(p) && Advances(p, a)
    ensures var r := AfterAck(p, a, now); WindowMoves(p, r, false) && r.wire == p.wire && r.cwndCut == p.cwndCut
  {
    GrowthTimes(p.cwnd, (a + 1 - p.sendBase) as real);
  }

  lemma GrowthTimes(c: real, n: real)
    requires c > 0.0
    ensures (c + n / c - c) * c == n
  {
  }

  /** Half as many frames, but not fewer than four. */
  ghost predicate Halved(before: real, after: real) {
    2.0 * after == before || (after == 4.0 && 4.0 <= before <= 8.0)
  }

  ghost predicate WindowMoves(p: Sender, r: Sender, cuts: bool) {
    if cuts then Halved(p.cwnd, r.cwnd)
    else (r.cwnd - p.cwnd) * p.cwnd == (r.sendBase - p.sendBase) as real
  }

  /**
   * The window, exactly: it grows by the frames freed over its size, a cut halves it but leaves
   * at least four frames, and nothing else changes it. A retransmission cuts it unless the last
   * cut is less than a timeout past.
   */
  lemma {:induction false} WindowLaw(o: Origin, es: seq<Event>)
    requires es != []
    ensures WindowMoves(At(o, Front(es)), At(o, es), Cuts(o, es))
  {
    CutIs(o, Front(es));
    AtNext(o, es);
    WindowOf(At(o, Front(es)), Last(es));
  }

  /** A new sender starts with eight frames. */
  lemma {:induction false} WindowAtStart(o: Origin)
    ensures At(o, []).cwnd == 8.0
  {
  }

  /** Cuts among the events of more, after es. */
  ghost function CutsIn(o: Origin, es: seq<Event>, more: seq<Event>): (h: nat)
  {
    if more == [] then 0 else CutsIn(o, es, Front(more)) + if Cuts(o, es + more) then 1 else 0
  }

  function HalvedTimes(c: real, h: nat): (r: real)
  {
    if h == 0 then c else HalvedTimes(c, h - 1) / 2.0
  }

  /** The window c1 after h cuts and n frames freed from c0: at most n/4 above c0 halved h times, or above four. */
  ghost predicate Bounded(c0: real, c1: real, n: real, h: nat) {
    c1 <= n / 4.0 + 4.0 || c1 <= n / 4.0 + HalvedTimes(c0, h)
  }

  ghost predicate BoundedSince(p: Sender, r: Sender, h: nat) {
    p.sendBase <= r.sendBase && Bounded(p.cwnd, r.cwnd, (r.sendBase - p.sendBase) as real, h)
  }

  /**
   * With cuts: over any stretch of any run in which n frames were freed and the window was cut h
   * times, it ends at most n/4 above the larger of four and what it was, halved h times.
   */
  lemma {:induction false} CutsBound(o: Origin, es: seq<Event>, more: seq<Event>)
    ensures BoundedSince(At(o, es), At(o, es + more), CutsIn(o, es, more))
  {
    BoundedAtStart(At(o, es).cwnd);
    CutsBoundFrom(o, At(o, es), es, more);
  }

  lemma {:induction false} CutsBoundFrom(o: Origin, p: Sender, es: seq<Event>, more: seq<Event>)
    requires BoundedSince(p, At(o, es), 0)
    ensures BoundedSince(p, At(o, es + more), CutsIn(o, es, more))
  {
    if more == [] {
      assert es + more == es;
    } else {
      CutsBoundFrom(o, p, es, Front(more));
      CutsInNext(o, es, more);
      FrontOfSum(es, more);
      OneMore(o, p, es + more, CutsIn(o, es, Front(more)));
    }
  }

  lemma FrontOfSum(es: seq<Event>, more: seq<Event>)
    requires more != []
    ensures Front(es + more) == es + Front(more)
  {
  }

  lemma {:induction false} OneMore(o: Origin, p: Sender, es: seq<Event>, h: nat)
    requires es != [] && BoundedSince(p, At(o, Front(es)), h)
    ensures BoundedSince(p, At(o, es), h + if Cuts(o, es) then 1 else 0)
  {
    LastMoves(o, es);
    BoundedOnSince(p, At(o, Front(es)), At(o, es), h, Cuts(o, es));
  }

  /** How a step moves base and window, given whether it cuts. */
  ghost predicate Moves(q: Sender, r: Sender, cuts: bool) {
    && WindowMoves(q, r, cuts) && q.cwnd >= 4.0 && q.sendBase <= r.sendBase
    && (cuts ==> q.sendBase == r.sendBase)
  }

  lemma {:induction false} LastMoves(o: Origin, es: seq<Event>)
    requires es != []
    ensures Moves(At(o, Front(es)), At(o, es), Cuts(o, es))
  {
    WindowLaw(o, es);
    BaseStep(o, es);
    AtNext(o, es);
    CounterMoves(At(o, Front(es)), Last(es));
  }

  lemma BoundedOnSince(p: Sender, q: Sender, r: Sender, h: nat, cuts: bool)
    requires BoundedSince(p, q, h) && Moves(q, r, cuts)
    ensures BoundedSince(p, r, h + if cuts then 1 else 0)
  {
    BoundedOn(p.cwnd, q, r, (q.sendBase - p.sendBase) as real, h, cuts);
    FreedAdd(p.sendBase, q.sendBase, r.sendBase);
  }

  lemma {:induction false} CutsInNext(o: Origin, es: seq<Event>, more: seq<Event>)
    requires more != []
    ensures CutsIn(o, es, more) == CutsIn(o, es, Front(more)) + if Cuts(o, es + more) then 1 else 0
  {
  }

  lemma FreedAdd(a: int, b: int, c: int)
    ensures (b - a) as real + (c - b) as real == (c - a) as real
  {
  }

  lemma BoundedAtStart(c: real)
    ensures Bounded(c, c, 0.0, 0)
  {
  }

  lemma BoundedOn(c0: real, q: Sender, r: Sender, n: real, h: nat, cuts: bool)
    requires Bounded(c0, q.cwnd, n, h) && WindowMoves(q, r, cuts) && q.cwnd >= 4.0 && n >= 0.0
    requires q.sendBase <= r.sendBase && (cuts ==> q.sendBase == r.sendBase)
    ensures Bounded(c0, r.cwnd, n + (r.sendBase - q.sendBase) as real, h + if cuts then 1 else 0)
  {
    var a := (r.sendBase - q.sendBase) as real;
    if cuts {
      assert a == 0.0;
      HalvedBound(c0, q.cwnd, r.cwnd, n, h);
    } else {
      GrownBound(c0, q.cwnd, r.cwnd, n, a, h);
    }
  }

  lemma HalvedBound(c0: real, c: real, c': real, n: real, h: nat)
    requires Bounded(c0, c, n, h) && Halved(c, c') && n >= 0.0
    ensures Bounded(c0, c', n, h + 1)
  {
    var t := HalvedTimes(c0, h);
    assert HalvedTimes(c0, h + 1) == t / 2.0;
    if c' != 4.0 {
      assert c' == c / 2.0;
      assert c <= n / 4.0 + 4.0 ==> c' <= n / 8.0 + 2.0;
      assert c <= n / 4.0 + t ==> c' <= n / 8.0 + t / 2.0;
    }
  }

  lemma GrownBound(c0: real, c: real, c': real, n: real, a: real, h: nat)
    requires Bounded(c0, c, n, h) && (c' - c) * c == a && c >= 4.0 && a >= 0.0
    ensures Bounded(c0, c', n + a, h)
  {
    var d := c' - c;
    assert d * c == a;
    GrowsAtMost(d, c);
    assert d <= a / 4.0 && (n + a) / 4.0 == n / 4.0 + a / 4.0;
  }

  lemma GrowsAtMost(d: real, c: real)
    requires c >= 4.0 && d * c >= 0.0
    ensures 0.0 <= d <= d * c / 4.0
  {
    if d < 0.0 {
      TimesMonotone(d, d / 2.0, c);
    } else {
      TimesMonotone(4.0, c, d);
    }
  }

  lemma TimesMonotone(a: real, b: real, p: real)
    requires a <= b && p >= 0.0
    ensures a * p <= b * p
  {
    TimesSign(b - a, p);
    assert b * p == a * p + (b - a) * p;
  }

  lemma TimesSign(a: real, p: real)
    requires a >= 0.0 && p >= 0.0
    ensures a * p >= 0.0
  {
  }
}
