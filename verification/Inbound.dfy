/**
 * The receiving half of pump (kalay/tunnelconn.go): each iteration adds a batch of frames, takes
 * the in-order prefix, acknowledges it cumulatively, and demultiplexes behind the carried bytes.
 */
module Inbound {
  import opened Bytes
  import opened Framing
  import PTun
  import R = Reassembler

  /** acks, routed and delivered are histories: ACKs sent, messages routed, bytes ever appended to pbuf. */
  datatype State = State(
    recv: R.Rsm,
    started: bool,
    next: nat,               // next sequence number to consume
    pbuf: seq<byte>,         // unparsed tail of the delivered stream
    acks: seq<nat>,
    routed: seq<PTun.Msg>,
    delivered: seq<byte>)

  const INITIAL := State(R.EMPTY, false, 0, [], [], [], [])

  // --- one iteration ------------------------------------------------------------------------------

  function AtLeast(frames: map<nat, seq<byte>>, q: nat): (s: set<nat>)
  {
    set k | k in frames && k >= q
  }

  /** The first sequence number from q on that is not stored; an empty payload counts as stored here. */
  function End(frames: map<nat, seq<byte>>, q: nat): (e: nat)
    ensures q <= e && e !in frames && forall k | q <= k < e :: k in frames
    decreases AtLeast(frames, q)
  {
    if q in frames then
      assert q in AtLeast(frames, q) && q !in AtLeast(frames, q + 1);
      End(frames, q + 1)
    else q
  }

  /** Take of q, q + 1, ... e - 1 in turn. */
  function TakenUpTo(r: R.Rsm, q: nat, e: nat): (r': R.Rsm)
  {
    if e <= q then r else
    r.(frames := map k | k in r.frames && !(q <= k < e) :: r.frames[k],
       consumed := if !r.consumedSet || e - 1 > r.consumed then e - 1 else r.consumed,
       consumedSet := true)
  }

  lemma TakenNext(r: R.Rsm, q: nat, e: nat)
    requires q <= e && e in r.frames
    ensures R.Taken(TakenUpTo(r, q, e), e) == TakenUpTo(r, q, e + 1)
    ensures End(r.frames, e) == End(r.frames, e + 1) && AtLeast(r.frames, e + 1) < AtLeast(r.frames, e)
  {
    assert e in AtLeast(r.frames, e) && e !in AtLeast(r.frames, e + 1);
    assert e in TakenUpTo(r, q, e).frames;
    assert R.Taken(TakenUpTo(r, q, e), e).frames == TakenUpTo(r, q, e + 1).frames;
  }

  function Started(i: State): (i': State)
  {
    if !i.started && i.recv.baseSet then i.(started := true, next := i.recv.base) else i
  }

  /** Consume the in-order prefix, acknowledge it, parse and route what it completes. */
  function Consumed(i: State): (i': State)
  {
    if !i.started then i else
    var e := End(i.recv.frames, i.next);
    var bytes := R.Cat(i.recv.frames, i.next, e);
    var p := Split(PTun.Scan, i.pbuf + bytes);
    State(TakenUpTo(i.recv, i.next, e), true, e, (i.pbuf + bytes)[p.used..],
          if e != i.next then i.acks + [e - 1] else i.acks,
          i.routed + p.msgs, i.delivered + bytes)
  }

  /** Parsing buf gives the messages and leaves the rest. */
  ghost predicate Leaves(buf: seq<byte>, msgs: seq<PTun.Msg>, rest: seq<byte>) {
    var p := Split(PTun.Scan, buf);
    msgs == p.msgs && rest == buf[p.used..]
  }

  lemma {:induction false} ConsumedAs(i: State, e: nat, bytes: seq<byte>, msgs: seq<PTun.Msg>, rest: seq<byte>)
    requires i.started && e == End(i.recv.frames, i.next) && bytes == R.Cat(i.recv.frames, i.next, e)
    requires Leaves(i.pbuf + bytes, msgs, rest)
    ensures Consumed(i) == State(TakenUpTo(i.recv, i.next, e), true, e, rest,
                                 if e != i.next then i.acks + [e - 1] else i.acks, i.routed + msgs, i.delivered + bytes)
  {
  }

  function AfterBatch(i: State, batch: seq<R.Packet>): (i': State)
  {
    Consumed(Started(i.(recv := R.AddedAll(i.recv, batch))))
  }

  /** The cumulative ACK repeated every 400ms. */
  function AfterReAck(i: State): (i': State)
  {
    if i.started && i.next > 0 then i.(acks := i.acks + [i.next - 1]) else i
  }

  /** Stall recovery: two ACKs when frames past the hole are known, one when nothing is. */
  function AfterStall(i: State): (i': State)
  {
    if !i.started || i.next == 0 then i else
    i.(acks := i.acks + (if i.recv.maxSeq >= i.next then [i.next - 1, i.next - 1] else [i.next - 1]))
  }

  // --- what has arrived -----------------------------------------------------------------------------

  /** The payload with which q first arrived. */
  function First(arrivals: seq<R.Packet>, q: nat): (p: Option<seq<byte>>)
  {
    if arrivals == [] then None else
    var last := arrivals[|arrivals| - 1];
    var before := First(arrivals[..|arrivals| - 1], q);
    if before.None? && last.seqNo == q then Some(last.payload) else before
  }

  lemma {:induction false} FirstSnoc(arrivals: seq<R.Packet>, p: R.Packet, q: nat)
    ensures First(arrivals + [p], q) ==
            if First(arrivals, q).None? && p.seqNo == q then Some(p.payload) else First(arrivals, q)
  {
    assert (arrivals + [p])[..|arrivals|] == arrivals;
  }

  /** What arrived first is not changed by what arrives later. */
  lemma {:induction false} FirstStable(arrivals: seq<R.Packet>, more: seq<R.Packet>, q: nat)
    requires First(arrivals, q).Some?
    ensures First(arrivals + more, q) == First(arrivals, q)
  {
    if more == [] {
      assert arrivals + more == arrivals;
    } else {
      var front := more[..|more| - 1];
      FirstStable(arrivals, front, q);
      assert arrivals + more == (arrivals + front) + [more[|more| - 1]];
      FirstSnoc(arrivals + front, more[|more| - 1], q);
    }
  }

  /** All of [lo, hi) has arrived. */
  ghost predicate Arrived(arrivals: seq<R.Packet>, lo: nat, hi: nat) {
    forall q | lo <= q < hi :: First(arrivals, q).Some?
  }

  /** First-received payloads of [lo, hi), in order. */
  function CatFirst(arrivals: seq<R.Packet>, lo: nat, hi: nat): (s: seq<byte>)
    decreases hi
  {
    if hi <= lo then [] else
    CatFirst(arrivals, lo, hi - 1) + (if First(arrivals, hi - 1).Some? then First(arrivals, hi - 1).value else [])
  }

  lemma {:induction false} CatFirstStable(arrivals: seq<R.Packet>, more: seq<R.Packet>, lo: nat, hi: nat)
    requires Arrived(arrivals, lo, hi)
    ensures CatFirst(arrivals + more, lo, hi) == CatFirst(arrivals, lo, hi)
  {
    if lo < hi {
      CatFirstStable(arrivals, more, lo, hi - 1);
      FirstStable(arrivals, more, hi - 1);
    }
  }

  /** Storing agrees with arriving, for sequence numbers from lo on; those below next are gone. */
  ghost predicate Stores(frames: map<nat, seq<byte>>, arrivals: seq<R.Packet>, lo: nat, next: nat) {
    && (forall q: nat | lo <= q :: First(arrivals, q).Some? <==> q in frames || q < next)
    && (forall q | q in frames :: lo <= q && next <= q && First(arrivals, q) == Some(frames[q]))
  }

  lemma {:induction false} CatExtends(frames: map<nat, seq<byte>>, arrivals: seq<R.Packet>, lo: nat, next: nat, e: nat)
    requires lo <= next <= e
    requires forall q | next <= q < e :: q in frames && First(arrivals, q) == Some(frames[q])
    ensures CatFirst(arrivals, lo, e) == CatFirst(arrivals, lo, next) + R.Cat(frames, next, e)
  {
    if next < e {
      CatExtends(frames, arrivals, lo, next, e - 1);
      CatFirstNext(arrivals, lo, e - 1, frames[e - 1]);
      CatNext(frames, next, e - 1);
      AppendAssoc(CatFirst(arrivals, lo, next), R.Cat(frames, next, e - 1), frames[e - 1]);
    }
  }

  lemma CatFirstNext(arrivals: seq<R.Packet>, lo: nat, q: nat, payload: seq<byte>)
    requires lo <= q && First(arrivals, q) == Some(payload)
    ensures CatFirst(arrivals, lo, q + 1) == CatFirst(arrivals, lo, q) + payload
  {
  }

  lemma CatNext(frames: map<nat, seq<byte>>, lo: nat, q: nat)
    requires lo <= q && q in frames
    ensures R.Cat(frames, lo, q + 1) == R.Cat(frames, lo, q) + frames[q]
  {
  }

  // --- what every iteration keeps ---------------------------------------------------------------------

  /** The receive state between iterations, before and after the stream has started. */
  ghost predicate Tracks(i: State, arrivals: seq<R.Packet>) {
    if !i.started then
      i == INITIAL && arrivals == []
    else
      && i.recv.baseSet && i.recv.consumedSet && i.recv.base <= i.recv.consumed && i.next == i.recv.consumed + 1
      && i.next !in i.recv.frames
      && Stores(i.recv.frames, arrivals, i.recv.base, i.next)
      && i.delivered == CatFirst(arrivals, i.recv.base, i.next)
  }

  /** Every ACK names a sequence number below next, from the base on, and ACKs never decrease. */
  ghost predicate AcksSound(i: State) {
    && (forall k | 0 <= k < |i.acks| :: i.started && i.recv.base <= i.acks[k] < i.next)
    && (forall j, k | 0 <= j < k < |i.acks| :: i.acks[j] <= i.acks[k])
  }

  /** What was routed is one parse of what was delivered, and pbuf is its unparsed tail. */
  ghost predicate Demuxed(delivered: seq<byte>, routed: seq<PTun.Msg>, pbuf: seq<byte>) {
    var p := Split(PTun.Scan, delivered);
    routed == p.msgs && IsTail(pbuf, delivered, p.used)
  }

  /** tail is s[n..], said byte by byte. */
  ghost predicate IsTail(tail: seq<byte>, s: seq<byte>, n: nat) {
    n <= |s| && |tail| == |s| - n && forall k | 0 <= k < |tail| :: tail[k] == s[n + k]
  }

  lemma TailIsDrop(tail: seq<byte>, s: seq<byte>, n: nat)
    requires n <= |s|
    ensures IsTail(tail, s, n) <==> tail == s[n..]
  {
  }

  ghost predicate Inv(i: State, arrivals: seq<R.Packet>) {
    Tracks(i, arrivals) && AcksSound(i) && Demuxed(i.delivered, i.routed, i.pbuf)
  }

  lemma InitialInv()
    ensures Inv(INITIAL, [])
  {
    assert Split(PTun.Scan, []) == Parsed([], 0);
  }

  /** Adding a batch to a started stream. */
  lemma {:induction false} AddedStores(r: R.Rsm, arrivals: seq<R.Packet>, next: nat, batch: seq<R.Packet>)
    requires r.baseSet && r.consumedSet && r.base <= r.consumed && next == r.consumed + 1
    requires Stores(r.frames, arrivals, r.base, next)
    ensures var r' := R.AddedAll(r, batch);
            && r'.base == r.base && r'.baseSet && r'.consumedSet && r'.consumed == r.consumed
            && Stores(r'.frames, arrivals + batch, r.base, next)
  {
    if batch == [] {
      assert arrivals + batch == arrivals;
    } else {
      var front, p := batch[..|batch| - 1], batch[|batch| - 1];
      AddedStores(r, arrivals, next, front);
      assert arrivals + batch == (arrivals + front) + [p];
      StoresSnoc(R.AddedAll(r, front), arrivals + front, next, p);
    }
  }

  lemma StoresSnoc(r: R.Rsm, arrivals: seq<R.Packet>, next: nat, p: R.Packet)
    requires r.baseSet && r.consumedSet && r.base <= r.consumed && next == r.consumed + 1
    requires Stores(r.frames, arrivals, r.base, next)
    ensures var r' := R.Added(r, p.seqNo, p.payload);
            && r'.base == r.base && r'.baseSet && r'.consumedSet && r'.consumed == r.consumed
            && Stores(r'.frames, arrivals + [p], r.base, next)
  {
    forall q: nat ensures First(arrivals + [p], q) ==
        if First(arrivals, q).None? && p.seqNo == q then Some(p.payload) else First(arrivals, q) {
      FirstSnoc(arrivals, p, q);
    }
  }

  /** A reassembler that has only added holds the first arrival of every sequence number. */
  ghost predicate Fresh(r: R.Rsm, arrivals: seq<R.Packet>) {
    && !r.consumedSet && (r.baseSet <==> arrivals != []) && (!r.baseSet ==> r == R.EMPTY)
    && (forall q: nat :: First(arrivals, q).Some? <==> q in r.frames)
    && (forall q | q in r.frames :: r.base <= q && First(arrivals, q) == Some(r.frames[q]))
    && (r.baseSet ==> r.base in r.frames)
  }

  lemma {:induction false} AddedFresh(batch: seq<R.Packet>)
    ensures Fresh(R.AddedAll(R.EMPTY, batch), batch)
  {
    if batch != [] {
      var front, p := batch[..|batch| - 1], batch[|batch| - 1];
      AddedFresh(front);
      assert batch == front + [p];
      forall q: nat ensures First(batch, q) ==
          if First(front, q).None? && p.seqNo == q then Some(p.payload) else First(front, q) {
        FirstSnoc(front, p, q);
      }
    }
  }

  /** The state Consumed starts from. */
  ghost predicate Ready(i: State, arrivals: seq<R.Packet>) {
    && i.started && i.recv.baseSet && i.recv.base <= i.next
    && (i.recv.consumedSet ==> i.next == i.recv.consumed + 1)
    && (!i.recv.consumedSet ==> i.next == i.recv.base && i.next in i.recv.frames)
    && (i.recv.consumedSet ==> i.recv.base <= i.recv.consumed)
    && Stores(i.recv.frames, arrivals, i.recv.base, i.next)
    && i.delivered == CatFirst(arrivals, i.recv.base, i.next)
  }

  lemma ConsumedTracks(i: State, arrivals: seq<R.Packet>)
    requires Ready(i, arrivals)
    ensures Tracks(Consumed(i), arrivals)
  {
    CatExtends(i.recv.frames, arrivals, i.recv.base, i.next, End(i.recv.frames, i.next));
  }

  lemma ConsumedDemuxed(i: State)
    requires Demuxed(i.delivered, i.routed, i.pbuf)
    ensures Demuxed(Consumed(i).delivered, Consumed(i).routed, Consumed(i).pbuf)
  {
    if i.started {
      var e := End(i.recv.frames, i.next);
      var bytes := R.Cat(i.recv.frames, i.next, e);
      var q := Split(PTun.Scan, i.pbuf + bytes);
      ConsumedAs(i, e, bytes, q.msgs, (i.pbuf + bytes)[q.used..]);
      DemuxesOn(i.delivered, i.routed, i.pbuf, bytes);
    }
  }

  /** Parsing new bytes behind the unparsed tail is parsing on in the whole stream. */
  lemma {:induction false} DemuxesOn(delivered: seq<byte>, routed: seq<PTun.Msg>, pbuf: seq<byte>, bytes: seq<byte>)
    requires Demuxed(delivered, routed, pbuf)
    ensures var q := Split(PTun.Scan, pbuf + bytes);
            Demuxed(delivered + bytes, routed + q.msgs, (pbuf + bytes)[q.used..])
  {
    PTun.IsCodec();
    var p, q := Split(PTun.Scan, delivered), Split(PTun.Scan, pbuf + bytes);
    SplitBehindTail(delivered, pbuf, bytes, p);
    TailAppend(pbuf, delivered, p.used, bytes, q.used);
  }

  lemma {:induction false} SplitBehindTail(delivered: seq<byte>, pbuf: seq<byte>, bytes: seq<byte>, p: Parsed<PTun.Msg>)
    requires p == Split(PTun.Scan, delivered) && IsTail(pbuf, delivered, p.used) && Stable(PTun.Scan)
    ensures var q := Split(PTun.Scan, pbuf + bytes);
            Split(PTun.Scan, delivered + bytes) == Parsed(p.msgs + q.msgs, p.used + q.used)
  {
    TailIsDrop(pbuf, delivered, p.used);
    SplitAppend(PTun.Scan, delivered, bytes);
  }

  lemma TailAppend(tail: seq<byte>, s: seq<byte>, n: nat, more: seq<byte>, m: nat)
    requires IsTail(tail, s, n) && m <= |tail + more|
    ensures IsTail((tail + more)[m..], s + more, n + m)
  {
  }

  lemma ConsumedAcks(i: State, arrivals: seq<R.Packet>)
    requires Ready(i, arrivals) && AcksSound(i)
    ensures AcksSound(Consumed(i))
  {
  }

  /** A batch for a stream that has started. */
  lemma {:induction false} RunningBatch(i: State, arrivals: seq<R.Packet>, batch: seq<R.Packet>)
    requires i.started && Tracks(i, arrivals)
    ensures var m := i.(recv := R.AddedAll(i.recv, batch));
            Ready(m, arrivals + batch) && m.recv.base == i.recv.base
  {
    AddedStores(i.recv, arrivals, i.next, batch);
    CatFirstStable(arrivals, batch, i.recv.base, i.next);
  }

  /** A batch that starts the stream, at the lowest sequence number in it. */
  lemma {:induction false} FirstBatch(batch: seq<R.Packet>)
    requires batch != []
    ensures var m := Started(INITIAL.(recv := R.AddedAll(R.EMPTY, batch)));
            Ready(m, batch) && m.acks == []
  {
    AddedFresh(batch);
  }

  lemma BatchInv(i: State, arrivals: seq<R.Packet>, batch: seq<R.Packet>)
    requires Inv(i, arrivals)
    ensures Inv(AfterBatch(i, batch), arrivals + batch)
  {
    var m := Started(i.(recv := R.AddedAll(i.recv, batch)));
    if !i.started && batch == [] {
      assert arrivals + batch == [];
    } else {
      if i.started {
        RunningBatch(i, arrivals, batch);
      } else {
        FirstBatch(batch);
        assert arrivals + batch == batch;
      }
      ConsumedTracks(m, arrivals + batch);
      ConsumedAcks(m, arrivals + batch);
      ConsumedDemuxed(m);
    }
  }

  lemma {:induction false} ArrivalIsFirst(arrivals: seq<R.Packet>, k: nat)
    requires k < |arrivals|
    ensures First(arrivals, arrivals[k].seqNo).Some?
  {
    if k < |arrivals| - 1 {
      ArrivalIsFirst(arrivals[..|arrivals| - 1], k);
    }
  }

  /** A batch with the next expected frame in it, or with the lowest one of all at the start, takes next past it. */
  lemma ConsumesExpected(i: State, arrivals: seq<R.Packet>, batch: seq<R.Packet>, k: nat)
    requires Inv(i, arrivals) && k < |batch|
    requires if i.started then batch[k].seqNo <= i.next
             else forall j | 0 <= j < |batch| :: batch[k].seqNo <= batch[j].seqNo
    ensures AfterBatch(i, batch).started && AfterBatch(i, batch).next > batch[k].seqNo
  {
    BatchInv(i, arrivals, batch);
    if i.started {
      BatchForward(i, arrivals, batch);
      assert (arrivals + batch)[|arrivals| + k] == batch[k];
      ArrivalIsFirst(arrivals + batch, |arrivals| + k);
      ArrivedBelowNext(AfterBatch(i, batch), arrivals + batch, batch[k].seqNo);
    } else {
      StartsLowest(batch, k);
    }
  }

  lemma BatchForward(i: State, arrivals: seq<R.Packet>, batch: seq<R.Packet>)
    requires i.started && Tracks(i, arrivals)
    ensures var i' := AfterBatch(i, batch); i'.started && i'.recv.base == i.recv.base && i.next <= i'.next
  {
    RunningBatch(i, arrivals, batch);
  }

  /** The frame expected next has not arrived. */
  lemma {:induction false} ArrivedBelowNext(i: State, arrivals: seq<R.Packet>, q: nat)
    requires i.started && Tracks(i, arrivals) && First(arrivals, q).Some? && q <= i.next
    ensures q < i.next
  {
  }

  /** The first batch starts the stream at its lowest number. */
  lemma StartsLowest(batch: seq<R.Packet>, k: nat)
    requires k < |batch|
    ensures var i := AfterBatch(INITIAL, batch);
            && i.started && i.recv.base <= batch[k].seqNo
            && (exists j | 0 <= j < |batch| :: batch[j].seqNo == i.recv.base)
  {
    AddedFresh(batch);
    ArrivalIsFirst(batch, k);
    FirstIsArrival(batch, R.AddedAll(R.EMPTY, batch).base);
  }

  /** A number that counts as arrived is that of some arrival, with its payload. */
  lemma {:induction false} FirstIsArrival(arrivals: seq<R.Packet>, q: nat)
    requires First(arrivals, q).Some?
    ensures exists k | 0 <= k < |arrivals| :: arrivals[k].seqNo == q && arrivals[k].payload == First(arrivals, q).value
  {
    var front, last := arrivals[..|arrivals| - 1], arrivals[|arrivals| - 1];
    if First(front, q).Some? {
      FirstIsArrival(front, q);
      var k :| 0 <= k < |front| && front[k].seqNo == q && front[k].payload == First(front, q).value;
      assert arrivals[k].seqNo == q;
    } else {
      assert arrivals[|arrivals| - 1].seqNo == q;
    }
  }

  lemma ReAckInv(i: State, arrivals: seq<R.Packet>)
    requires Inv(i, arrivals)
    ensures Inv(AfterReAck(i), arrivals)
  {
    if i.started {
      AckAgain(i, arrivals);
    }
  }

  lemma StallInv(i: State, arrivals: seq<R.Packet>)
    requires Inv(i, arrivals)
    ensures Inv(AfterStall(i), arrivals)
  {
    if i.started {
      AckAgain(i, arrivals);
      if i.recv.maxSeq >= i.next {
        AckAgain(i.(acks := i.acks + [i.next - 1]), arrivals);
        AppendAssoc(i.acks, [i.next - 1], [i.next - 1]);
      }
    }
  }

  /** Acknowledging the last consumed number once more. */
  lemma AckAgain(i: State, arrivals: seq<R.Packet>)
    requires Inv(i, arrivals) && i.started
    ensures i.next > 0 && Inv(i.(acks := i.acks + [i.next - 1]), arrivals)
  {
    AckAgainSound(i);
  }

  lemma AckAgainSound(i: State)
    requires AcksSound(i) && i.started && i.recv.base < i.next
    ensures AcksSound(i.(acks := i.acks + [i.next - 1]))
  {
  }

  // --- whole runs ----------------------------------------------------------------------------------------

  datatype Event = Batch(packets: seq<R.Packet>) | ReAck | Stall

  function After(i: State, e: Event): (i': State)
  {
    match e
    case Batch(b) => AfterBatch(i, b)
    case ReAck => AfterReAck(i)
    case Stall => AfterStall(i)
  }

  function Run(es: seq<Event>): (i: State)
  {
    if es == [] then INITIAL else After(Run(es[..|es| - 1]), es[|es| - 1])
  }

  /** Everything that arrived, in order. */
  function Arrivals(es: seq<Event>): (ps: seq<R.Packet>)
  {
    if es == [] then [] else
    var last := es[|es| - 1];
    Arrivals(es[..|es| - 1]) + (if last.Batch? then last.packets else [])
  }

  lemma {:induction false} RunInv(es: seq<Event>)
    ensures Inv(Run(es), Arrivals(es))
  {
    if es == [] {
      InitialInv();
    } else {
      var front, last := es[..|es| - 1], es[|es| - 1];
      RunInv(front);
      if last.Batch? {
        BatchInv(Run(front), Arrivals(front), last.packets);
      } else {
        ReAckInv(Run(front), Arrivals(front));
        StallInv(Run(front), Arrivals(front));
        assert Arrivals(front) + [] == Arrivals(front);
      }
    }
  }

  /**
   * For all runs and batchings: what was delivered is the first-received payload of each
   * sequence number from the starting base up to next, in order and once each; no stored frame
   * is below next; everything an ACK covers had arrived, and ACKs never decrease; and the
   * messages routed are those of one parse of the delivered stream.
   */
  lemma {:induction false} ReceivePath(es: seq<Event>)
    ensures Received(Run(es), Arrivals(es))
  {
    RunInv(es);
    InvMeans(Run(es), Arrivals(es));
  }

  ghost predicate Received(i: State, arrivals: seq<R.Packet>) {
    && i.delivered == CatFirst(arrivals, i.recv.base, i.next)
    && (forall q | q in i.recv.frames :: q > i.next)
    && (forall k | 0 <= k < |i.acks| :: Arrived(arrivals, i.recv.base, i.acks[k] + 1))
    && (forall j, k | 0 <= j < k < |i.acks| :: i.acks[j] <= i.acks[k])
    && i.routed == Split(PTun.Scan, i.delivered).msgs
    && (i.started <==> arrivals != [])
    && (i.started ==> i.recv.base < i.next && First(arrivals, i.next).None?)
  }

  lemma InvMeans(i: State, arrivals: seq<R.Packet>)
    requires Inv(i, arrivals)
    ensures Received(i, arrivals)
  {
    StoredAbove(i, arrivals);
    AckedArrived(i, arrivals);
  }

  lemma StoredAbove(i: State, arrivals: seq<R.Packet>)
    requires Tracks(i, arrivals)
    ensures forall q | q in i.recv.frames :: q > i.next
  {
    forall q | q in i.recv.frames ensures q > i.next {
      assert q != i.next;
    }
  }

  lemma AckedArrived(i: State, arrivals: seq<R.Packet>)
    requires Tracks(i, arrivals) && AcksSound(i)
    ensures forall k | 0 <= k < |i.acks| :: Arrived(arrivals, i.recv.base, i.acks[k] + 1)
  {
    forall k | 0 <= k < |i.acks| ensures Arrived(arrivals, i.recv.base, i.acks[k] + 1) {
      assert i.recv.base <= i.acks[k] < i.next;
    }
  }

  // --- which ACKs are sent --------------------------------------------------------------------------------

  /** maxSeq is the highest number that ever arrived. */
  ghost predicate Topped(r: R.Rsm, arrivals: seq<R.Packet>) {
    && (r.baseSet <==> arrivals != [])
    && (r.baseSet ==> exists k | 0 <= k < |arrivals| :: arrivals[k].seqNo == r.maxSeq)
    && (forall k | 0 <= k < |arrivals| :: arrivals[k].seqNo <= r.maxSeq)
    && (forall q | q in r.frames :: r.baseSet && q <= r.maxSeq)
    && (r.consumedSet ==> r.baseSet && r.consumed <= r.maxSeq)
  }

  lemma {:induction false} AddedTopped(r: R.Rsm, arrivals: seq<R.Packet>, batch: seq<R.Packet>)
    requires Topped(r, arrivals)
    ensures Topped(R.AddedAll(r, batch), arrivals + batch)
  {
    if batch == [] {
      assert arrivals + batch == arrivals;
    } else {
      var front, p := batch[..|batch| - 1], batch[|batch| - 1];
      AddedTopped(r, arrivals, front);
      assert arrivals + batch == (arrivals + front) + [p];
      OneTopped(R.AddedAll(r, front), arrivals + front, p);
    }
  }

  lemma {:induction false} OneTopped(r: R.Rsm, arrivals: seq<R.Packet>, p: R.Packet)
    requires Topped(r, arrivals)
    ensures Topped(R.Added(r, p.seqNo, p.payload), arrivals + [p])
  {
    var all := arrivals + [p];
    assert all[|arrivals|] == p;
    if r.baseSet {
      var k :| 0 <= k < |arrivals| && arrivals[k].seqNo == r.maxSeq;
      assert all[k] == arrivals[k];
    }
  }

  lemma {:induction false} TakenTopped(r: R.Rsm, arrivals: seq<R.Packet>, q: nat, e: nat)
    requires Topped(r, arrivals) && forall k | q <= k < e :: k in r.frames
    ensures Topped(TakenUpTo(r, q, e), arrivals)
  {
    if q < e {
      assert e - 1 in r.frames;
    }
  }

  lemma {:induction false} RunTopped(es: seq<Event>)
    ensures Topped(Run(es).recv, Arrivals(es))
  {
    if es != [] {
      var front, last := es[..|es| - 1], es[|es| - 1];
      RunTopped(front);
      if last.Batch? {
        AddedTopped(Run(front).recv, Arrivals(front), last.packets);
        BatchTopped(Run(front), last.packets, Arrivals(front) + last.packets);
      } else {
        assert Arrivals(front) + [] == Arrivals(front);
      }
    }
  }

  lemma {:induction false} BatchTopped(i: State, batch: seq<R.Packet>, arrivals: seq<R.Packet>)
    requires Topped(R.AddedAll(i.recv, batch), arrivals)
    ensures Topped(AfterBatch(i, batch).recv, arrivals)
  {
    var m := Started(i.(recv := R.AddedAll(i.recv, batch)));
    if m.started {
      TakenTopped(m.recv, arrivals, m.next, End(m.recv.frames, m.next));
    }
  }

  /** Something past the missing frame has arrived. */
  ghost predicate Beyond(arrivals: seq<R.Packet>, next: nat) {
    exists k | 0 <= k < |arrivals| :: arrivals[k].seqNo > next
  }

  /** How many ACKs an event sends, by what has arrived and how far it was consumed before and after. */
  ghost function AckCount(arrivals: seq<R.Packet>, next: nat, next': nat, e: Event): (n: nat)
  {
    match e
    case Batch(_) => if next' != next then 1 else 0
    case ReAck => if arrivals != [] then 1 else 0
    case Stall => if arrivals == [] then 0 else if Beyond(arrivals, next) then 2 else 1
  }

  function Repeated(a: nat, n: nat): (s: seq<nat>)
  {
    if n == 0 then [] else Repeated(a, n - 1) + [a]
  }

  /** n ACKs of the number consumed last. */
  function AcksOf(next: nat, n: nat): (s: seq<nat>)
  {
    if next == 0 then [] else Repeated(next - 1, n)
  }

  lemma {:induction false} StepAcks(i: State, arrivals: seq<R.Packet>, e: Event)
    requires Tracks(i, arrivals) && Topped(i.recv, arrivals) && Received(i, arrivals)
    ensures var i' := After(i, e);
            && (AckCount(arrivals, i.next, i'.next, e) > 0 ==> i'.next > 0)
            && i'.acks == i.acks + AcksOf(i'.next, AckCount(arrivals, i.next, i'.next, e))
  {
    match e
    case Batch(b) => BatchAcks(i, b);
    case ReAck => ReAckAcks(i);
    case Stall =>
      BeyondIff(i, arrivals);
      StallAcks(i);
  }

  /**
   * Which ACKs are sent, exactly: one for each batch that brought something consumed, one for
   * each periodic repetition, and for a stall two when something past the missing frame has
   * arrived and one when not; each names the number consumed last.
   */
  lemma {:induction false} AckLaw(es: seq<Event>, e: Event)
    ensures var i, i' := Run(es), Run(es + [e]);
            && (AckCount(Arrivals(es), i.next, i'.next, e) > 0 ==> i'.next > 0)
            && i'.acks == i.acks + AcksOf(i'.next, AckCount(Arrivals(es), i.next, i'.next, e))
  {
    RunInv(es);
    RunTopped(es);
    ReceivePath(es);
    StepAcks(Run(es), Arrivals(es), e);
    RunSnoc(es, e);
  }

  lemma {:induction false} RunSnoc(es: seq<Event>, e: Event)
    ensures Run(es + [e]) == After(Run(es), e)
  {
    assert (es + [e])[..|es|] == es;
  }

  lemma {:induction false} RepeatedFew(a: nat)
    ensures Repeated(a, 1) == [a] && Repeated(a, 2) == [a, a]
  {
    assert Repeated(a, 1) == Repeated(a, 0) + [a];
    assert Repeated(a, 2) == Repeated(a, 1) + [a];
  }

  lemma {:induction false} BatchAcks(i: State, b: seq<R.Packet>)
    requires !i.started ==> i == INITIAL
    ensures var i' := AfterBatch(i, b);
            && (i'.next != i.next ==> i'.next > 0)
            && i'.acks == i.acks + AcksOf(i'.next, if i'.next != i.next then 1 else 0)
  {
    var m := Started(i.(recv := R.AddedAll(i.recv, b)));
    if m.started {
      if !i.started {
        AddedFresh(b);
      }
      ConsumedAcksAre(m);
    }
  }

  lemma {:induction false} ConsumedAcksAre(m: State)
    requires m.started
    ensures var e := End(m.recv.frames, m.next);
            Consumed(m).next == e && Consumed(m).acks == m.acks + AcksOf(e, if e != m.next then 1 else 0)
  {
    var e := End(m.recv.frames, m.next);
    if e != m.next {
      RepeatedFew(e - 1);
    }
  }

  lemma {:induction false} ReAckAcks(i: State)
    requires i.started ==> i.next > 0
    ensures AfterReAck(i).next == i.next
    ensures AfterReAck(i).acks == i.acks + if i.started then AcksOf(i.next, 1) else []
  {
    if i.started {
      RepeatedFew(i.next - 1);
    }
  }

  lemma {:induction false} StallAcks(i: State)
    requires i.started ==> i.next > 0
    ensures AfterStall(i).next == i.next
    ensures AfterStall(i).acks ==
              i.acks + if !i.started then [] else AcksOf(i.next, if i.recv.maxSeq >= i.next then 2 else 1)
  {
    if i.started {
      RepeatedFew(i.next - 1);
    }
  }

  /** Frames past the hole are known if and only if one has arrived. */
  lemma {:induction false} BeyondIff(i: State, arrivals: seq<R.Packet>)
    requires Topped(i.recv, arrivals) && Received(i, arrivals)
    ensures i.started ==>
              (i.recv.maxSeq >= i.next <==> Beyond(arrivals, i.next))
  {
    if i.started && i.recv.maxSeq >= i.next {
      var k :| 0 <= k < |arrivals| && arrivals[k].seqNo == i.recv.maxSeq;
      ArrivalIsFirst(arrivals, k);
      assert arrivals[k].seqNo != i.next;
    }
  }

  /** The last ACK sent names the number consumed last. */
  ghost predicate Latest(i: State) {
    i.started ==> i.acks != [] && i.next > 0 && i.acks[|i.acks| - 1] == i.next - 1
  }

  lemma {:induction false} LatestAfter(acks: seq<nat>, next: nat, n: nat)
    requires next > 0 && n > 0
    ensures var all := acks + AcksOf(next, n); all != [] && all[|all| - 1] == next - 1
  {
  }

  lemma {:induction false} StepLatest(i: State, arrivals: seq<R.Packet>, e: Event)
    requires Tracks(i, arrivals) && Topped(i.recv, arrivals) && Received(i, arrivals) && Latest(i)
    ensures Latest(After(i, e))
  {
    var i' := After(i, e);
    StepAcks(i, arrivals, e);
    var n := AckCount(arrivals, i.next, i'.next, e);
    if n > 0 {
      LatestAfter(i.acks, i'.next, n);
    } else {
      assert AcksOf(i'.next, 0) == [];
      NoAckNoStart(i, arrivals, e);
    }
  }

  /** An event that sends no ACK starts nothing and consumes nothing. */
  lemma {:induction false} NoAckNoStart(i: State, arrivals: seq<R.Packet>, e: Event)
    requires Tracks(i, arrivals) && AckCount(arrivals, i.next, After(i, e).next, e) == 0
    ensures After(i, e).started ==> i.started && After(i, e).next == i.next
  {
    if e.Batch? && !i.started {
      AddedFresh(e.packets);
    }
  }

  lemma {:induction false} LatestAck(es: seq<Event>)
    ensures Latest(Run(es))
  {
    if es != [] {
      var front := es[..|es| - 1];
      LatestAck(front);
      RunInv(front);
      RunTopped(front);
      ReceivePath(front);
      StepLatest(Run(front), Arrivals(front), es[|es| - 1]);
    }
  }

  // --- the iteration in place --------------------------------------------------------------------------------

  class Pump {
    const recv: R.Reassembler
    var started: bool
    var next: nat
    var pbuf: seq<byte>
    var acks: seq<nat>               // cumulative ACKs handed to sendRDT
    var routed: seq<PTun.Msg>        // messages handed to route
    ghost var delivered: seq<byte>

    ghost function View(): (i: State)
      reads this, recv
    {
      State(recv.View(), started, next, pbuf, acks, routed, delivered)
    }

    constructor ()
      ensures View() == INITIAL && fresh(recv)
    {
      recv := new R.Reassembler();
      started, next := false, 0;
      pbuf, acks, routed, delivered := [], [], [], [];
    }

    method AddBatch(batch: seq<R.Packet>)
      modifies recv
      ensures recv.View() == R.AddedAll(old(recv.View()), batch)
    {
      var k := 0;
      while k < |batch|
        invariant 0 <= k <= |batch|
        invariant recv.View() == R.AddedAll(old(recv.View()), batch[..k])
      {
        var _ := recv.Add(batch[k].seqNo, batch[k].payload);
        assert batch[..k + 1][..k] == batch[..k];
        k := k + 1;
      }
      assert batch[..k] == batch;
    }

    /** The Take loop: returns the bytes of the in-order prefix. */
    method Drain() returns (bytes: seq<byte>)
      modifies this`next, recv
      ensures next == End(old(recv.frames), old(next))
      ensures bytes == R.Cat(old(recv.frames), old(next), next)
      ensures recv.View() == TakenUpTo(old(recv.View()), old(next), next)
    {
      bytes := [];
      assert recv.frames == map k | k in recv.frames :: recv.frames[k];
      while true
        invariant old(next) <= next
        invariant End(old(recv.frames), next) == End(old(recv.frames), old(next))
        invariant forall k | old(next) <= k < next :: k in old(recv.frames)
        invariant bytes == R.Cat(old(recv.frames), old(next), next)
        invariant recv.View() == TakenUpTo(old(recv.View()), old(next), next)
        decreases AtLeast(old(recv.frames), next)
      {
        var p, ok := recv.Take(next);
        if !ok {
          break;
        }
        TakenNext(old(recv.View()), old(next), next);
        bytes := bytes + p;
        next := next + 1;
      }
    }

    method ConsumeBatch(batch: seq<R.Packet>)
      modifies this, recv
      ensures View() == AfterBatch(old(View()), batch)
    {
      AddBatch(batch);
      if !started && recv.baseSet {
        next := recv.base;
        started := true;
      }
      if started {
        Consume();
      }
    }

    /** Take, acknowledge, parse behind the carried bytes and compact. */
    method Consume()
      requires started
      modifies this, recv
      ensures View() == Consumed(old(View()))
    {
      var bytes := DrainAndAck();
      ghost var msgs, rest := ParseAndRoute(bytes);
      ConsumedAs(old(View()), next, bytes, msgs, rest);
    }

    /** Takes the in-order prefix and acknowledges it cumulatively, if there is any. */
    method DrainAndAck() returns (bytes: seq<byte>)
      modifies this`next, this`acks, this`delivered, recv
      ensures next == End(old(recv.frames), old(next)) && bytes == R.Cat(old(recv.frames), old(next), next)
      ensures recv.View() == TakenUpTo(old(recv.View()), old(next), next)
      ensures delivered == old(delivered) + bytes
      ensures acks == if next != old(next) then old(acks) + [next - 1] else old(acks)
    {
      var before := next;
      bytes := Drain();
      delivered := delivered + bytes;
      if next != before {
        acks := acks + [next - 1];
      }
    }

    /** Parses the carried and the new bytes, routes the messages, and keeps what is left over. */
    method ParseAndRoute(bytes: seq<byte>) returns (ghost msgs: seq<PTun.Msg>, ghost rest: seq<byte>)
      modifies this`pbuf, this`routed
      ensures pbuf == rest && routed == old(routed) + msgs
      ensures Leaves(old(pbuf) + bytes, msgs, rest)
    {
      var ms, tail := PTun.ParseAll(pbuf + bytes);
      routed := routed + ms;
      pbuf := tail;
      msgs, rest := ms, tail;
    }

    method ReAckPeriodically()
      modifies this
      ensures View() == AfterReAck(old(View()))
    {
      if started && next > 0 {
        acks := acks + [next - 1];
      }
    }

    method RecoverStall()
      modifies this
      ensures View() == AfterStall(old(View()))
    {
      if started {
        if recv.maxSeq >= next {
          if next > 0 {
            acks := acks + [next - 1];
            acks := acks + [next - 1];
          }
        } else {
          if next > 0 {
            acks := acks + [next - 1];
          }
        }
      }
    }
  }
}
