/** The Reassembler of kalay/tunnel.go: frames in any order, with duplicates and gaps, back into a stream. */
module Reassembler {
  import opened Bytes
  import PTun

  datatype Packet = Packet(seqNo: nat, payload: seq<byte>)

  datatype Rsm = Rsm(
    frames: map<nat, seq<byte>>,
    base: nat,               // lowest sequence number seen
    cum: nat,                // end of the contiguous run from base
    maxSeq: nat,             // highest sequence number seen
    baseSet: bool,
    consumed: nat,           // highest sequence number taken
    consumedSet: bool)

  const EMPTY := Rsm(map[], 0, 0, 0, false, 0, false)

  // --- the operations -------------------------------------------------------------------------

  /** frames[q] != nil: a frame stored with an empty payload reads as absent here. */
  predicate Present(frames: map<nat, seq<byte>>, q: nat) {
    q in frames && frames[q] != []
  }

  function Above(frames: map<nat, seq<byte>>, c: nat): (s: set<nat>)
  {
    set q | q in frames && q > c
  }

  /** The end of the run of present frames that follows c. */
  function Contiguous(frames: map<nat, seq<byte>>, c: nat): (e: nat)
    ensures c <= e && !Present(frames, e + 1)
    ensures forall q | c < q <= e :: Present(frames, q)
    decreases Above(frames, c)
  {
    if Present(frames, c + 1) then
      assert c + 1 in Above(frames, c) && c + 1 !in Above(frames, c + 1);
      Contiguous(frames, c + 1)
    else c
  }

  /** Whether Add takes the frame: neither stale nor already stored. */
  predicate Accepts(r: Rsm, q: nat) {
    !(r.consumedSet && q <= r.consumed) && q !in r.frames
  }

  function Added(r: Rsm, q: nat, payload: seq<byte>): (r': Rsm)
  {
    if !Accepts(r, q) then r else
    var frames := r.frames[q := payload];
    var base := if !r.baseSet || q < r.base then q else r.base;
    var maxSeq := if !r.baseSet || q > r.maxSeq then q else r.maxSeq;
    r.(frames := frames, base := base, maxSeq := maxSeq, baseSet := true, cum := Contiguous(frames, base))
  }

  function AddedAll(r: Rsm, arrivals: seq<Packet>): (r': Rsm)
  {
    if arrivals == [] then r else
    var p := arrivals[|arrivals| - 1];
    Added(AddedAll(r, arrivals[..|arrivals| - 1]), p.seqNo, p.payload)
  }

  function Taken(r: Rsm, q: nat): (r': Rsm)
  {
    if q !in r.frames then r else
    r.(frames := r.frames - {q},
       consumed := if !r.consumedSet || q > r.consumed then q else r.consumed,
       consumedSet := true)
  }

  predicate Gapless(r: Rsm) {
    r.baseSet && r.cum == r.maxSeq
  }

  /** The absent sequence numbers of [lo, hi), in order. */
  function MissingIn(frames: map<nat, seq<byte>>, lo: nat, hi: nat): (m: seq<nat>)
    decreases hi
  {
    if hi <= lo then [] else
    MissingIn(frames, lo, hi - 1) + (if Present(frames, hi - 1) then [] else [hi - 1])
  }

  function Missing(r: Rsm): (m: seq<nat>)
  {
    if r.baseSet then MissingIn(r.frames, r.base, r.maxSeq + 1) else []
  }

  /** Missing numbers come in order, each once. */
  lemma {:induction false} MissingSorted(frames: map<nat, seq<byte>>, lo: nat, hi: nat)
    ensures forall j, k | 0 <= j < k < |MissingIn(frames, lo, hi)| ::
              MissingIn(frames, lo, hi)[j] < MissingIn(frames, lo, hi)[k]
    decreases hi
  {
    if lo < hi {
      MissingSorted(frames, lo, hi - 1);
      MissingInMeans(frames, lo, hi - 1);
      var front := MissingIn(frames, lo, hi - 1);
      forall j | 0 <= j < |front| ensures front[j] < hi - 1 {
        assert front[j] in front;
      }
    }
  }

  /** The payloads of [lo, hi) in order; an absent frame contributes nothing. */
  function Cat(frames: map<nat, seq<byte>>, lo: nat, hi: nat): (s: seq<byte>)
    decreases hi
  {
    if hi <= lo then [] else
    Cat(frames, lo, hi - 1) + (if hi - 1 in frames then frames[hi - 1] else [])
  }

  function Raw(r: Rsm): (s: seq<byte>)
  {
    if r.baseSet then Cat(r.frames, r.base, r.cum + 1) else []
  }

  function Stream(r: Rsm): (s: seq<byte>)
  {
    PTun.Deframe(Raw(r))
  }

  // --- what was taken is never taken in again ----------------------------------------------------

  /** After Take(q), frame p is taken in if and only if it is past q and everything taken before, and not stored. */
  lemma AddAfterTake(r: Rsm, q: nat, p: nat, payload: seq<byte>)
    requires q in r.frames
    ensures var t := Taken(r, q);
            && t.frames == r.frames - {q}
            && Added(t, p, payload).frames ==
               if p in t.frames || p <= q || (r.consumedSet && p <= r.consumed) then t.frames
               else t.frames[p := payload]
  {
  }

  // --- runs that only add ---------------------------------------------------------------------

  /** Everything a reassembler that only added knows follows from the frames it holds. */
  ghost predicate Grown(r: Rsm) {
    && !r.consumedSet && r.consumed == 0
    && (!r.baseSet ==> r == EMPTY)
    && (r.baseSet ==>
          && r.base in r.frames && r.maxSeq in r.frames
          && (forall q | q in r.frames :: r.base <= q <= r.maxSeq)
          && r.cum == Contiguous(r.frames, r.base))
  }

  lemma AddedGrown(r: Rsm, q: nat, payload: seq<byte>)
    requires Grown(r)
    ensures Grown(Added(r, q, payload))
  {
  }

  lemma FramesDetermine(a: Rsm, b: Rsm)
    requires Grown(a) && Grown(b) && a.frames == b.frames
    ensures a == b
  {
    if a.baseSet {
      assert a.base in b.frames && a.maxSeq in b.frames;
    }
    if b.baseSet {
      assert b.base in a.frames && b.maxSeq in a.frames;
    }
  }

  /** Retransmissions of a sequence number carry the same payload. */
  ghost predicate Consistent(arrivals: seq<Packet>) {
    forall p, p' | p in arrivals && p' in arrivals :: p.seqNo == p'.seqNo ==> p == p'
  }

  /** frames holds exactly the arrivals. */
  ghost predicate Holds(frames: map<nat, seq<byte>>, arrivals: seq<Packet>) {
    && (forall p | p in arrivals :: p.seqNo in frames && frames[p.seqNo] == p.payload)
    && (forall q | q in frames :: Packet(q, frames[q]) in arrivals)
  }

  lemma {:induction false} AddedAllHolds(arrivals: seq<Packet>)
    requires Consistent(arrivals)
    ensures Grown(AddedAll(EMPTY, arrivals)) && Holds(AddedAll(EMPTY, arrivals).frames, arrivals)
  {
    if arrivals != [] {
      var front, p := arrivals[..|arrivals| - 1], arrivals[|arrivals| - 1];
      assert arrivals == front + [p];
      AddedAllHolds(front);
      AddedGrown(AddedAll(EMPTY, front), p.seqNo, p.payload);
      var frames := AddedAll(EMPTY, front).frames;
      if p.seqNo in frames {
        assert Packet(p.seqNo, frames[p.seqNo]) in arrivals && p in arrivals;
      }
    }
  }

  /**
   * Any two arrival orders, with any duplicates, of the same frames leave the reassembler in
   * the same state, and so with equal base, cum, maxSeq, Raw, Missing and Stream.
   */
  lemma {:induction false} OrderIndependence(a: seq<Packet>, b: seq<Packet>)
    requires Consistent(a) && Consistent(b) && forall p :: p in a <==> p in b
    ensures AddedAll(EMPTY, a) == AddedAll(EMPTY, b)
  {
    AddedAllHolds(a);
    AddedAllHolds(b);
    var f, g := AddedAll(EMPTY, a).frames, AddedAll(EMPTY, b).frames;
    forall q ensures q in f <==> q in g {
      if q in f {
        assert Packet(q, f[q]) in b;
      }
      if q in g {
        assert Packet(q, g[q]) in a;
      }
    }
    forall q | q in f ensures f[q] == g[q] {
      assert Packet(q, f[q]) in b;
    }
    assert f == g;
    FramesDetermine(AddedAll(EMPTY, a), AddedAll(EMPTY, b));
  }

  /** cum is the last sequence number before the first hole past base, and never past maxSeq. */
  lemma CumBeforeFirstHole(r: Rsm)
    requires Grown(r) && r.baseSet
    ensures r.base <= r.cum <= r.maxSeq
    ensures !Present(r.frames, r.cum + 1) && forall q | r.base < q <= r.cum :: Present(r.frames, q)
  {
    assert r.cum == r.base || Present(r.frames, r.cum);
  }

  lemma {:induction false} MissingInMeans(frames: map<nat, seq<byte>>, lo: nat, hi: nat)
    ensures forall q: nat :: q in MissingIn(frames, lo, hi) <==> lo <= q < hi && !Present(frames, q)
    decreases hi
  {
    if lo < hi {
      MissingInMeans(frames, lo, hi - 1);
    }
  }

  /** Exactly what the two completeness tests look at: Gapless does not look at the base frame. */
  lemma GaplessAndMissing(r: Rsm)
    requires Grown(r)
    ensures Gapless(r) <==> r.baseSet && forall q | r.base < q <= r.maxSeq :: Present(r.frames, q)
    ensures Missing(r) == [] <==> (r.baseSet ==> forall q | r.base <= q <= r.maxSeq :: Present(r.frames, q))
  {
    if r.baseSet {
      GaplessMeans(r);
      NoneMissingMeans(r.frames, r.base, r.maxSeq + 1);
    }
  }

  lemma GaplessMeans(r: Rsm)
    requires Grown(r) && r.baseSet
    ensures Gapless(r) <==> forall q | r.base < q <= r.maxSeq :: Present(r.frames, q)
  {
    CumBeforeFirstHole(r);
    if r.cum < r.maxSeq {
      assert !Present(r.frames, r.cum + 1);
    }
  }

  lemma {:induction false} NoneMissingMeans(frames: map<nat, seq<byte>>, lo: nat, hi: nat)
    ensures MissingIn(frames, lo, hi) == [] <==> forall q | lo <= q < hi :: Present(frames, q)
  {
    var m := MissingIn(frames, lo, hi);
    MissingInMeans(frames, lo, hi);
    if m != [] {
      assert m[0] in m;
    }
  }

  /**
   * Gapless says the same as an empty Missing exactly when something was received and the
   * first frame carries bytes (or there is a gap for both to see).
   */
  lemma GaplessMatchesMissingIff(r: Rsm)
    requires Grown(r)
    ensures (Gapless(r) <==> Missing(r) == []) <==> r.baseSet && (r.frames[r.base] != [] || r.cum != r.maxSeq)
  {
    GaplessAndMissing(r);
    if r.baseSet {
      assert Missing(r) == [] <==> Gapless(r) && Present(r.frames, r.base);
    }
  }

  /** A single frame without bytes: Gapless reports a complete stream, Missing reports the frame as missing. */
  lemma GaplessWithHole(q: nat)
    ensures var r := AddedAll(EMPTY, [Packet(q, [])]); Gapless(r) && Missing(r) == [q]
  {
    var a := [Packet(q, [])];
    assert a[..0] == [];
    var r := AddedAll(EMPTY, a);
    assert r == Added(AddedAll(EMPTY, []), q, []);
    assert MissingIn(r.frames, q, q + 1) == MissingIn(r.frames, q, q) + [q];
  }

  // --- recovering a framed stream ------------------------------------------------------------------

  /** Arrivals are numbered pieces of one stream, and the first piece is among them if any is. */
  ghost predicate FromPieces(arrivals: seq<Packet>, first: nat, pieces: seq<seq<byte>>) {
    && (forall p | p in arrivals :: first <= p.seqNo < first + |pieces| && p.payload == pieces[p.seqNo - first])
    && (arrivals != [] ==> pieces != [] && Packet(first, pieces[0]) in arrivals)
  }

  lemma {:induction false} CatPieces(frames: map<nat, seq<byte>>, first: nat, pieces: seq<seq<byte>>, k: nat)
    requires k <= |pieces|
    requires forall q | first <= q < first + k :: q in frames && frames[q] == pieces[q - first]
    ensures Cat(frames, first, first + k) == Flatten(pieces[..k])
  {
    if k > 0 {
      CatPieces(frames, first, pieces, k - 1);
      assert pieces[..k] == pieces[..k - 1] + [pieces[k - 1]];
      FlattenSnoc(pieces[..k - 1], pieces[k - 1]);
    }
  }

  /** The number of leading pieces the reassembler can deliver. */
  function Ready(r: Rsm): (k: nat)
  {
    if r.baseSet && r.cum >= r.base then r.cum + 1 - r.base else 0
  }

  /** What an adding-only reassembler knows when its frames are pieces of the stream, the first included. */
  ghost predicate HoldsPieces(r: Rsm, first: nat, pieces: seq<seq<byte>>) {
    && Grown(r)
    && (forall q | q in r.frames :: first <= q < first + |pieces| && r.frames[q] == pieces[q - first])
    && (r.baseSet ==> r.base == first)
  }

  lemma {:induction false} ArrivalsArePieces(arrivals: seq<Packet>, first: nat, pieces: seq<seq<byte>>)
    requires FromPieces(arrivals, first, pieces)
    ensures HoldsPieces(AddedAll(EMPTY, arrivals), first, pieces)
    ensures Holds(AddedAll(EMPTY, arrivals).frames, arrivals)
  {
    AddedAllHolds(arrivals);
    HeldArePieces(AddedAll(EMPTY, arrivals), arrivals, first, pieces);
  }

  lemma HeldArePieces(r: Rsm, arrivals: seq<Packet>, first: nat, pieces: seq<seq<byte>>)
    requires Grown(r) && Holds(r.frames, arrivals) && FromPieces(arrivals, first, pieces)
    ensures HoldsPieces(r, first, pieces)
  {
    forall q | q in r.frames ensures first <= q < first + |pieces| && r.frames[q] == pieces[q - first] {
      assert Packet(q, r.frames[q]) in arrivals;
    }
    if r.baseSet {
      assert Packet(r.base, r.frames[r.base]) in arrivals;
      assert Packet(first, pieces[0]) in arrivals;
    }
  }

  /** Raw is the pieces up to the first hole. */
  lemma RawIsLeadingPieces(r: Rsm, first: nat, pieces: seq<seq<byte>>)
    requires HoldsPieces(r, first, pieces)
    ensures Ready(r) <= |pieces| && Raw(r) == Flatten(pieces[..Ready(r)])
  {
    if r.baseSet {
      CumBeforeFirstHole(r);
      forall q | first <= q <= r.cum ensures q in r.frames {
        assert q == r.base || Present(r.frames, q);
      }
      CatPieces(r.frames, first, pieces, Ready(r));
    }
  }

  /** More frames never take the contiguous run back. */
  lemma ReadyGrows(r: Rsm, r': Rsm, first: nat, pieces: seq<seq<byte>>)
    requires HoldsPieces(r, first, pieces) && HoldsPieces(r', first, pieces)
    requires forall q | q in r.frames :: q in r'.frames
    ensures Ready(r) <= Ready(r')
  {
    if r.baseSet {
      CumBeforeFirstHole(r);
      assert r.base in r'.frames;
      CumBeforeFirstHole(r');
      forall q | first < q <= r.cum ensures Present(r'.frames, q) {
        assert Present(r.frames, q);
      }
      assert r.cum <= r'.cum;
    }
  }

  /** Every piece stored and none of them empty: the whole stream is ready. */
  lemma ReadyAtEnd(r: Rsm, first: nat, pieces: seq<seq<byte>>)
    requires HoldsPieces(r, first, pieces)
    requires forall q | first <= q < first + |pieces| :: Present(r.frames, q)
    ensures Ready(r) == |pieces|
  {
    RawIsLeadingPieces(r, first, pieces);
    if pieces != [] {
      assert Present(r.frames, first);
      CumBeforeFirstHole(r);
    }
  }

  /** Every piece has arrived, and none is empty. */
  ghost predicate AllArrived(arrivals: seq<Packet>, first: nat, pieces: seq<seq<byte>>) {
    forall i | 0 <= i < |pieces| :: pieces[i] != [] && Packet(first + i, pieces[i]) in arrivals
  }

  /** The run of arrived pieces only grows with further arrivals, and reaches the end with the last. */
  lemma {:induction false} ReadyOfArrivals(a: seq<Packet>, more: seq<Packet>, first: nat, pieces: seq<seq<byte>>)
    requires FromPieces(a, first, pieces) && FromPieces(a + more, first, pieces)
    ensures var r, r' := AddedAll(EMPTY, a), AddedAll(EMPTY, a + more);
            && Ready(r) <= Ready(r') <= |pieces|
            && Raw(r) == Flatten(pieces[..Ready(r)]) && Raw(r') == Flatten(pieces[..Ready(r')])
            && (AllArrived(a, first, pieces) ==> Ready(r) == |pieces|)
  {
    ArrivalsArePieces(a, first, pieces);
    ArrivalsArePieces(a + more, first, pieces);
    ReadyOfHeld(AddedAll(EMPTY, a), AddedAll(EMPTY, a + more), a, more, first, pieces);
  }

  lemma ReadyOfHeld(r: Rsm, r': Rsm, a: seq<Packet>, more: seq<Packet>, first: nat, pieces: seq<seq<byte>>)
    requires HoldsPieces(r, first, pieces) && HoldsPieces(r', first, pieces)
    requires Holds(r.frames, a) && Holds(r'.frames, a + more)
    ensures Ready(r) <= Ready(r') <= |pieces|
    ensures Raw(r) == Flatten(pieces[..Ready(r)]) && Raw(r') == Flatten(pieces[..Ready(r')])
    ensures AllArrived(a, first, pieces) ==> Ready(r) == |pieces|
  {
    RawIsLeadingPieces(r, first, pieces);
    RawIsLeadingPieces(r', first, pieces);
    HeldGrows(r.frames, r'.frames, a, more);
    ReadyGrows(r, r', first, pieces);
    if AllArrived(a, first, pieces) {
      AllHeld(r.frames, a, first, pieces);
      ReadyAtEnd(r, first, pieces);
    }
  }

  lemma HeldGrows(frames: map<nat, seq<byte>>, frames': map<nat, seq<byte>>, a: seq<Packet>, more: seq<Packet>)
    requires Holds(frames, a) && Holds(frames', a + more)
    ensures forall q | q in frames :: q in frames'
  {
    forall q | q in frames ensures q in frames' {
      assert Packet(q, frames[q]) in a + more;
    }
  }

  lemma AllHeld(frames: map<nat, seq<byte>>, a: seq<Packet>, first: nat, pieces: seq<seq<byte>>)
    requires Holds(frames, a) && AllArrived(a, first, pieces)
    ensures forall q | first <= q < first + |pieces| :: Present(frames, q)
  {
    forall q | first <= q < first + |pieces| ensures Present(frames, q) {
      var i := q - first;
      assert pieces[i] != [] && Packet(first + i, pieces[i]) in a;
    }
  }

  /**
   * Cut a framed stream into numbered pieces and deliver any of them, the first among them, in
   * any order: the recovered stream is always a prefix of the original, only grows as more
   * arrive, and is the original once every piece arrived and none is empty.
   */
  lemma {:induction false} StreamRecovery(
      sock: seq<byte>, chunk: nat, pieces: seq<seq<byte>>, first: nat, a: seq<Packet>, more: seq<Packet>)
    requires 0 < chunk <= PTun.CHUNK_MAX && Flatten(pieces) == PTun.Frame(sock, chunk)
    requires FromPieces(a, first, pieces) && FromPieces(a + more, first, pieces)
    ensures Stream(AddedAll(EMPTY, a)) <= Stream(AddedAll(EMPTY, a + more)) <= sock
    ensures AllArrived(a, first, pieces) ==> Stream(AddedAll(EMPTY, a)) == sock
  {
    ReadyOfArrivals(a, more, first, pieces);
    DeframedPieces(sock, chunk, pieces, Ready(AddedAll(EMPTY, a)), Ready(AddedAll(EMPTY, a + more)));
    assert pieces[..|pieces|] == pieces;
    PTun.DeframeFrame(sock, chunk);
  }

  lemma {:induction false} DeframedPieces(sock: seq<byte>, chunk: nat, pieces: seq<seq<byte>>, k: nat, k': nat)
    requires 0 < chunk <= PTun.CHUNK_MAX && Flatten(pieces) == PTun.Frame(sock, chunk) && k <= k' <= |pieces|
    ensures PTun.Deframe(Flatten(pieces[..k])) <= PTun.Deframe(Flatten(pieces[..k'])) <= sock
  {
    FlattenCut(pieces, k, k');
    PTun.DeframeExtends(Flatten(pieces[..k]), Flatten(pieces[k..k']));
    FlattenCut(pieces, k', |pieces|);
    PTun.DeframeExtends(Flatten(pieces[..k']), Flatten(pieces[k'..|pieces|]));
    assert pieces[..|pieces|] == pieces;
    PTun.DeframeFrame(sock, chunk);
  }

  lemma FlattenCut(pieces: seq<seq<byte>>, k: nat, k': nat)
    requires k <= k' <= |pieces|
    ensures Flatten(pieces[..k']) == Flatten(pieces[..k]) + Flatten(pieces[k..k'])
  {
    assert pieces[..k'] == pieces[..k] + pieces[k..k'];
    FlattenAppend(pieces[..k], pieces[k..k']);
  }

  method CollectMissing(frames: map<nat, seq<byte>>, base: nat, maxSeq: nat) returns (out: seq<nat>)
    ensures out == MissingIn(frames, base, maxSeq + 1)
  {
    out := [];
    var q := base;
    while q <= maxSeq
      invariant base <= q && (q <= maxSeq + 1 || q == base)
      invariant out == MissingIn(frames, base, q)
    {
      MissingNext(frames, base, q);
      if !(q in frames && frames[q] != []) {
        out := out + [q];
      }
      q := q + 1;
    }
  }

  lemma MissingNext(frames: map<nat, seq<byte>>, lo: nat, q: nat)
    requires lo <= q
    ensures MissingIn(frames, lo, q + 1) == MissingIn(frames, lo, q) + if Present(frames, q) then [] else [q]
  {
  }

  // --- the operations in place -----------------------------------------------------------------------

  class Reassembler {
    var frames: map<nat, seq<byte>>
    var base: nat
    var cum: nat
    var maxSeq: nat
    var baseSet: bool
    var consumed: nat
    var consumedSet: bool

    ghost function View(): (r: Rsm)
      reads this
    {
      Rsm(frames, base, cum, maxSeq, baseSet, consumed, consumedSet)
    }

    constructor ()
      ensures View() == EMPTY
    {
      frames := map[];
      base, cum, maxSeq, consumed := 0, 0, 0, 0;
      baseSet, consumedSet := false, false;
    }

    method Add(q: nat, payload: seq<byte>) returns (isNew: bool)
      modifies this
      ensures View() == Added(old(View()), q, payload)
      ensures isNew <==> q !in old(frames) && !(old(consumedSet) && q <= old(consumed))
      ensures frames == if isNew then old(frames)[q := payload] else old(frames)
    {
      if consumedSet && q <= consumed {
        return false;
      }
      if q in frames {
        return false;
      }
      frames := frames[q := payload];
      if !baseSet {
        base, maxSeq, baseSet := q, q, true;
      }
      if q < base {
        base := q;
      }
      if q > maxSeq {
        maxSeq := q;
      }
      var c := base;
      while c + 1 in frames && frames[c + 1] != []
        invariant base <= c && Contiguous(frames, c) == Contiguous(frames, base)
        decreases Above(frames, c)
      {
        assert c + 1 in Above(frames, c) && c + 1 !in Above(frames, c + 1);
        c := c + 1;
      }
      cum := c;
      return true;
    }

    method Take(q: nat) returns (payload: seq<byte>, ok: bool)
      modifies this
      ensures View() == Taken(old(View()), q)
      ensures ok <==> q in old(frames)
      ensures payload == if ok then old(frames)[q] else []
    {
      if q !in frames {
        return [], false;
      }
      payload := frames[q];
      frames := frames - {q};
      if !consumedSet || q > consumed {
        consumed, consumedSet := q, true;
      }
      return payload, true;
    }

    method MissingSeqs() returns (out: seq<nat>)
      ensures out == Missing(View())
    {
      if !baseSet {
        return [];
      }
      out := CollectMissing(frames, base, maxSeq);
    }

    method RawBytes() returns (raw: seq<byte>)
      ensures raw == Raw(View())
    {
      if !baseSet {
        return [];
      }
      raw := [];
      var q := base;
      while q <= cum
        invariant base <= q && (q <= cum + 1 || q == base)
        invariant raw == Cat(frames, base, q)
      {
        raw := raw + (if q in frames then frames[q] else []);
        q := q + 1;
      }
    }

    method StreamBytes() returns (sock: seq<byte>)
      ensures sock == Stream(View())
    {
      var raw := RawBytes();
      sock := PTun.DeframeTunnel(raw);
    }
  }
}
