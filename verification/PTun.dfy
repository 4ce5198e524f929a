/** P2PTunnel messages: the resynchronising demultiplexer and the plain chunk framing of kalay/tunnel.go. */
module PTun {
  import opened Bytes
  import opened Framing

  const CHUNK_MAX := 0x2000
  const CTRL_MAX := 0x1000
  const DATA: byte := 0x02

  /** A data chunk (typ 0x02, on a channel) or a control message (chan 0). */
  datatype Msg = Msg(typ: byte, chan: byte, data: seq<byte>)

  predicate IsCtrl(t: byte) {
    0x07 <= t <= 0x0e
  }

  function Encode(m: Msg): (s: seq<byte>)
  {
    [m.typ, m.chan] + LeBytes(|m.data|, 2) + m.data
  }

  /** The messages the demultiplexer recognises. */
  predicate WellFormed(m: Msg) {
    || (m.typ == DATA && m.chan != 0 && 0 < |m.data| <= CHUNK_MAX)
    || (m.chan == 0 && IsCtrl(m.typ) && |m.data| <= CTRL_MAX)
  }

  /** One turn of PTunDemux.Parse on the bytes from its offset on. */
  function Scan(s: seq<byte>): (r: Step<Msg>)
  {
    if |s| < 4 then Stop else
    var ln := LeValue(s[2..4]);
    if Recognised(s[0], s[1], ln) then
      if |s| < 4 + ln then Stop else Emit(Msg(s[0], s[1], s[4..4 + ln]), 4 + ln)
    else
      Skip()
  }

  lemma ScanSettled(a: seq<byte>, b: seq<byte>)
    ensures Settled(Scan, a, b)
  {
    if Scan(a).Take? {
      assert (a + b)[2..4] == a[2..4];
      var ln := LeValue(a[2..4]);
      if 4 + ln <= |a| {
        assert (a + b)[4..4 + ln] == a[4..4 + ln];
      }
    }
  }

  lemma {:induction false} EncodedBytes(m: Msg)
    ensures var s := Encode(m);
            && |s| == 4 + |m.data| && s[0] == m.typ && s[1] == m.chan && s[4..] == m.data
            && s[2] == |m.data| % 256 && s[3] == |m.data| / 256 % 256
  {
    LeByteAtEach(|m.data|, 2);
    assert LeBytes(|m.data|, 2)[0] == |m.data| / Range(0) % 256;
    assert LeBytes(|m.data|, 2)[1] == |m.data| / Range(1) % 256;
  }

  /** The four bytes of a message header: a data chunk on a channel, or a known control message. */
  predicate StartsMessage(s: seq<byte>) {
    |s| >= 4 &&
    var ln := Le16(s, 2);
    (s[0] == 0x02 && s[1] != 0 && 0 < ln <= 0x2000) || (7 <= s[0] <= 14 && s[1] == 0 && ln <= 0x1000)
  }

  /** A header whose message is there gives that message, and then what follows. */
  lemma {:induction false} ReadsMessage(s: seq<byte>)
    requires StartsMessage(s) && |s| >= 4 + Le16(s, 2)
    ensures var n, rest := 4 + Le16(s, 2), Split(Scan, s[4 + Le16(s, 2)..]);
            Split(Scan, s) == Parsed([Msg(s[0], s[1], s[4..n])] + rest.msgs, n + rest.used)
  {
    LeValueOfTwo(s[2..4]);
  }

  /** A header whose message is cut short waits for more, and so do fewer than four bytes. */
  lemma {:induction false} WaitsForMore(s: seq<byte>)
    requires |s| < 4 || (StartsMessage(s) && |s| < 4 + Le16(s, 2))
    ensures Split(Scan, s) == Parsed([], 0)
  {
    if |s| >= 4 {
      LeValueOfTwo(s[2..4]);
    }
  }

  /** Any other byte is skipped, that one alone. */
  lemma {:induction false} Resyncs(s: seq<byte>)
    requires |s| >= 4 && !StartsMessage(s)
    ensures Split(Scan, s) == Parsed(Split(Scan, s[1..]).msgs, 1 + Split(Scan, s[1..]).used)
  {
    LeValueOfTwo(s[2..4]);
  }

  /** Bytes that can start no message do no harm in front of any messages. */
  lemma {:induction false} GarbageSkipped(gs: seq<byte>, ms: seq<Msg>)
    requires forall i | 0 <= i < |gs| :: gs[i] != 0x02 && !(7 <= gs[i] <= 14)
    requires forall m | m in ms :: WellFormed(m)
    ensures Split(Scan, gs + EncodeAll(Encode, ms)).msgs == ms
  {
    var tail := EncodeAll(Encode, ms);
    if gs == [] {
      assert gs + tail == tail;
      DemuxRoundTripIff(ms);
    } else {
      GarbageSkipped(gs[1..], ms);
      AtLeastFour(ms);
      GarbageByte(gs, tail);
    }
  }

  lemma {:induction false} GarbageByte(gs: seq<byte>, tail: seq<byte>)
    requires gs != [] && gs[0] != 0x02 && !(7 <= gs[0] <= 14) && (|tail| >= 4 || tail == [])
    ensures |gs + tail| >= 4 ==> Split(Scan, gs + tail).msgs == Split(Scan, gs[1..] + tail).msgs
    ensures |gs + tail| < 4 ==> tail == [] && Split(Scan, gs + tail).msgs == []
  {
    var s := gs + tail;
    assert s[0] == gs[0] && s[1..] == gs[1..] + tail;
    if |s| >= 4 {
      Resyncs(s);
    } else {
      WaitsForMore(s);
    }
  }

  lemma {:induction false} AtLeastFour(ms: seq<Msg>)
    ensures ms != [] ==> |EncodeAll(Encode, ms)| >= 4
  {
    if ms != [] {
      assert |Encode(ms[0])| >= 4;
    }
  }

  lemma ScanEncoded(m: Msg, rest: seq<byte>)
    requires WellFormed(m)
    ensures ReadsBack(Scan, Encode, m, rest)
  {
    var s := Encode(m) + rest;
    assert s[2..4] == LeBytes(|m.data|, 2);
    RangeValues();
    LeRoundTrip(|m.data|, 2);
    assert s[4..4 + |m.data|] == m.data;
  }

  lemma IsCodec()
    ensures Codec(Scan, Encode, WellFormed)
  {
    forall a: seq<byte>, b: seq<byte> ensures Settled(Scan, a, b) {
      ScanSettled(a, b);
    }
    forall m: Msg, rest: seq<byte> | WellFormed(m) ensures ReadsBack(Scan, Encode, m, rest) {
      ScanEncoded(m, rest);
    }
  }

  /** Every message the demultiplexer reads is spelled by the bytes it was read from. */
  lemma IsLiteral()
    ensures Literal(Scan, Encode)
  {
    forall a: seq<byte> ensures SpellsOut(Scan, Encode, a) {
      ScanSpells(a);
    }
  }

  lemma ScanSpells(a: seq<byte>)
    ensures SpellsOut(Scan, Encode, a)
  {
    if Scan(a).Take? && Scan(a).out != [] {
      var ln := LeValue(a[2..4]);
      LeValueRoundTrip(a[2..4]);
      assert a[..4 + ln] == [a[0], a[1]] + a[2..4] + a[4..4 + ln];
    }
  }

  /** No shorter or equally long stream reads as the same well-formed messages but their own encoding. */
  lemma {:induction false} ReadsExactly(s: seq<byte>, ms: seq<Msg>)
    requires (forall m | m in ms :: WellFormed(m)) && |s| <= |EncodeAll(Encode, ms)|
    ensures Split(Scan, s).msgs == ms <==> s == EncodeAll(Encode, ms)
  {
    IsCodec();
    IsLiteral();
    ReadsExactlyIff(Scan, Encode, WellFormed, s, ms);
  }

  /** Whole messages written one after another are demultiplexed exactly, iff each is well-formed. */
  lemma {:induction false} DemuxRoundTripIff(ms: seq<Msg>)
    ensures Split(Scan, EncodeAll(Encode, ms)).msgs == ms <==> forall m :: m in ms ==> WellFormed(m)
  {
    IsCodec();
    RoundTripIff(Scan, Encode, WellFormed, ms);
  }

  /**
   * For every stream, garbage and resyncs included, and every way it is cut across pump
   * iterations: a fresh demultiplexer on the compacted buffer and one that retains its offset
   * both give exactly the messages of one parse of the whole stream.
   */
  lemma {:induction false} DemuxIncremental(pieces: seq<seq<byte>>)
    ensures var whole := Split(Scan, Flatten(pieces));
            && FeedCompacted(Scan, pieces) == Carry(whole.msgs, Flatten(pieces)[whole.used..])
            && FeedRetained(Scan, pieces) == whole
  {
    IsCodec();
    IncrementalRefinesOneShot(Scan, pieces);
  }

  /**
   * A control message sent at any point of a stream of messages, k bytes into the message being
   * sent, is read in its place after that message if and only if its bytes commute with the
   * bytes of the message they overtake. Between messages there are none.
   */
  lemma {:induction false} ControlReadIff(before: seq<Msg>, w: Msg, k: nat, m: Msg, after: seq<Msg>)
    requires (forall x :: x in before + [w] + [m] + after ==> WellFormed(x)) && k <= |Encode(w)|
    ensures var rest := Encode(w)[k..];
            var s := (EncodeAll(Encode, before) + Encode(w)[..k]) + Encode(m) + (rest + EncodeAll(Encode, after));
            Split(Scan, s).msgs == before + [w] + [m] + after <==> Encode(m) + rest == rest + Encode(m)
  {
    IsCodec();
    IsLiteral();
    EncodeAllSnoc(Encode, before, w);
    var sent, rest := EncodeAll(Encode, before) + Encode(w)[..k], Encode(w)[k..];
    assert EncodeAll(Encode, before + [w]) == sent + rest;
    InsertedIff(Scan, Encode, WellFormed, before + [w], sent, rest, m, after);
  }

  class Demux {
    var off: nat

    constructor ()
      ensures off == 0
    {
      off := 0;
    }

    /** Parses on from the retained offset; a buffer shorter than that yields nothing. */
    method Parse(raw: seq<byte>) returns (out: seq<Msg>)
      modifies this
      ensures old(off) <= |raw| ==> var p := Split(Scan, raw[old(off)..]); out == p.msgs && off == old(off) + p.used
      ensures old(off) > |raw| ==> out == [] && off == old(off)
    {
      out := [];
      if off <= |raw| {
        out, off := ParseFrom(Scan, raw, off);
      }
    }
  }

  /** The loop of Parse, from offset from to the offset it leaves behind. */
  method ParseFrom(ghost scan: seq<byte> -> Step<Msg>, raw: seq<byte>, from: nat) returns (out: seq<Msg>, off: nat)
    requires from <= |raw| && StandsFor(scan, Scan)
    ensures Ends(scan, raw, from, off, out)
  {
    out, off := [], from;
    ResumeStart(scan, raw, from);
    while true
      invariant from <= off <= |raw| && Resumes(scan, raw, from, off, out)
      decreases |raw| - off
    {
      var step := NextStep(scan, raw, off);
      ResumeTurn(scan, raw, from, off, out, step);
      if step.Stop? {
        return;
      }
      out := out + step.out;
      off := off + step.len;
    }
  }

  /** A fresh demultiplexer on the whole buffer: its messages, and the buffer compacted behind them. */
  method ParseAll(raw: seq<byte>) returns (out: seq<Msg>, rest: seq<byte>)
    ensures out == Split(Scan, raw).msgs && rest == raw[Split(Scan, raw).used..]
  {
    var off;
    out, off := ParseFrom(Scan, raw, 0);
    assert raw[0..] == raw;
    rest := raw[off..];
  }

  /** One turn of the loop: a data chunk, a control message, an incomplete one, or a resync. */
  method NextStep(ghost scan: seq<byte> -> Step<Msg>, raw: seq<byte>, off: nat) returns (step: Step<Msg>)
    requires off <= |raw| && StandsFor(scan, Scan)
    ensures Reads(scan, raw, off, step)
  {
    StandsForAt(scan, Scan, raw[off..]);
    if off + 4 > |raw| {
      return Stop;
    }
    ScanAt(raw, off);
    var b0, b1 := raw[off], raw[off + 1];
    var ln := LeValue(raw[off + 2..off + 4]);
    if b0 == DATA && b1 != 0 && 0 < ln <= CHUNK_MAX {
      if off + 4 + ln > |raw| {
        return Stop;
      }
      return Emit(Msg(DATA, b1, raw[off + 4..off + 4 + ln]), 4 + ln);
    } else if b1 == 0 && IsCtrl(b0) && ln <= CTRL_MAX {
      if off + 4 + ln > |raw| {
        return Stop;
      }
      return Emit(Msg(b0, 0, raw[off + 4..off + 4 + ln]), 4 + ln);
    } else {
      return Skip();
    }
  }

  predicate Recognised(b0: byte, b1: byte, ln: nat) {
    (b0 == DATA && b1 != 0 && 0 < ln <= CHUNK_MAX) || (b1 == 0 && IsCtrl(b0) && ln <= CTRL_MAX)
  }

  lemma ScanAt(s: seq<byte>, off: nat)
    requires off + 4 <= |s|
    ensures var ln := LeValue(s[off + 2..off + 4]);
            Scan(s[off..]) ==
            if Recognised(s[off], s[off + 1], ln) then
              if |s| < off + 4 + ln then Stop else Emit(Msg(s[off], s[off + 1], s[off + 4..off + 4 + ln]), 4 + ln)
            else
              Skip()
  {
    var t := s[off..];
    assert t[2..4] == s[off + 2..off + 4];
    var ln := LeValue(t[2..4]);
    if 4 + ln <= |t| {
      assert t[4..4 + ln] == s[off + 4..off + 4 + ln];
    }
  }

  // --- FrameTunnel and DeframeTunnel -----------------------------------------------------------

  /** The socket bytes carried by a stream of channel-1 chunks; the last chunk may be cut short. */
  function Deframe(raw: seq<byte>): (sock: seq<byte>)
    decreases |raw|
  {
    if |raw| < 4 then [] else
    var clen := LeValue(raw[2..4]);
    if raw[0] == DATA && raw[1] == 0x01 && 0 < clen <= CHUNK_MAX then
      if |raw| < 4 + clen then raw[4..] else raw[4..4 + clen] + Deframe(raw[4 + clen..])
    else
      [raw[0]] + Deframe(raw[1..])
  }

  function ClampChunk(chunk: int): (c: nat)
    ensures 0 < c <= 0x2000 && (0 < chunk <= 0x2000 ==> c == chunk) && (!(0 < chunk <= 0x2000) ==> c == 0x2000)
  {
    if chunk <= 0 || chunk > CHUNK_MAX then CHUNK_MAX else chunk
  }

  /** Chunks of c bytes, the last one shorter. */
  function Frame(sock: seq<byte>, c: nat): (raw: seq<byte>)
    requires 0 < c <= CHUNK_MAX
    decreases |sock|
  {
    if sock == [] then [] else
    var n := if |sock| < c then |sock| else c;
    Encode(Msg(DATA, 0x01, sock[..n])) + Frame(sock[n..], c)
  }

  /** Deframing never takes back a byte: more input only extends the output, whatever the input is. */
  lemma {:induction false} DeframeExtends(a: seq<byte>, b: seq<byte>)
    ensures Deframe(a) <= Deframe(a + b)
    decreases |a|
  {
    if |a| >= 4 {
      var clen := LeValue(a[2..4]);
      assert (a + b)[2..4] == a[2..4];
      if a[0] == DATA && a[1] == 0x01 && 0 < clen <= CHUNK_MAX {
        if |a| < 4 + clen {
          CutChunkExtends(a, b, clen);
        } else {
          DeframeExtends(a[4 + clen..], b);
          WholeChunkExtends(a, b, clen);
        }
      } else {
        DeframeExtends(a[1..], b);
        ByteExtends(a, b);
      }
    }
  }

  /** raw starts with the header of a chunk of clen bytes. */
  predicate StartsChunk(raw: seq<byte>, clen: nat) {
    |raw| >= 4 && raw[0] == DATA && raw[1] == 0x01 && clen == LeValue(raw[2..4]) && 0 < clen <= CHUNK_MAX
  }

  lemma {:induction false} DeframeWhole(raw: seq<byte>, clen: nat, rest: seq<byte>)
    requires StartsChunk(raw, clen) && 4 + clen <= |raw| && rest == raw[4 + clen..]
    ensures Deframe(raw) == raw[4..4 + clen] + Deframe(rest)
  {
  }

  lemma {:induction false} WholeChunkExtends(a: seq<byte>, b: seq<byte>, clen: nat)
    requires StartsChunk(a, clen) && 4 + clen <= |a|
    requires Deframe(a[4 + clen..]) <= Deframe(a[4 + clen..] + b)
    ensures Deframe(a) <= Deframe(a + b)
  {
    var rest, more := a[4 + clen..], a[4 + clen..] + b;
    assert (a + b)[2..4] == a[2..4] && (a + b)[4..4 + clen] == a[4..4 + clen];
    DropAppend(a, b, 4 + clen);
    DeframeWhole(a, clen, rest);
    DeframeWhole(a + b, clen, more);
    PrefixBehind(a[4..4 + clen], Deframe(rest), Deframe(more));
  }

  lemma {:induction false} ByteExtends(a: seq<byte>, b: seq<byte>)
    requires |a| >= 4 && !(a[0] == DATA && a[1] == 0x01 && 0 < LeValue(a[2..4]) <= CHUNK_MAX)
    requires Deframe(a[1..]) <= Deframe(a[1..] + b)
    ensures Deframe(a) <= Deframe(a + b)
  {
    assert (a + b)[2..4] == a[2..4];
    DropAppend(a, b, 1);
  }

  lemma {:induction false} CutChunkExtends(a: seq<byte>, b: seq<byte>, clen: nat)
    requires 4 <= |a| < 4 + clen && clen == LeValue((a + b)[2..4])
    requires a[0] == DATA && a[1] == 0x01 && 0 < clen <= CHUNK_MAX
    ensures a[4..] <= Deframe(a + b)
  {
    DropAppend(a, b, 4);
    if 4 + clen <= |a + b| {
      assert (a + b)[4..4 + clen] == a[4..] + b[..4 + clen - |a|];
    }
  }

  lemma {:induction false} DeframeFrame(sock: seq<byte>, c: nat)
    requires 0 < c <= CHUNK_MAX
    ensures Deframe(Frame(sock, c)) == sock
    decreases |sock|
  {
    if sock != [] {
      var n := if |sock| < c then |sock| else c;
      DeframeFrame(sock[n..], c);
      DeframeFront(sock, n, Frame(sock[n..], c));
    }
  }

  lemma {:induction false} DeframeFront(sock: seq<byte>, n: nat, rest: seq<byte>)
    requires 0 < n <= CHUNK_MAX && n <= |sock| && Deframe(rest) == sock[n..]
    ensures Deframe(Encode(Msg(DATA, 0x01, sock[..n])) + rest) == sock
  {
    DeframeChunk(sock[..n], rest);
    assert sock == sock[..n] + sock[n..];
  }

  lemma {:induction false} DeframeChunk(data: seq<byte>, rest: seq<byte>)
    requires 0 < |data| <= CHUNK_MAX
    ensures Deframe(Encode(Msg(DATA, 0x01, data)) + rest) == data + Deframe(rest)
  {
    var raw := Encode(Msg(DATA, 0x01, data)) + rest;
    RangeValues();
    LeRoundTrip(|data|, 2);
    assert raw[2..4] == LeBytes(|data|, 2);
    assert raw[4..4 + |data|] == data && raw[4 + |data|..] == rest;
  }

  /** Truncating a framed stream anywhere truncates the socket stream. */
  lemma {:induction false} DeframeTruncated(sock: seq<byte>, c: nat, k: nat)
    requires 0 < c <= CHUNK_MAX && k <= |Frame(sock, c)|
    ensures Deframe(Frame(sock, c)[..k]) <= sock
  {
    DeframeFrame(sock, c);
    DeframeCut(Frame(sock, c), k);
  }

  lemma {:induction false} DeframeCut(raw: seq<byte>, k: nat)
    requires k <= |raw|
    ensures Deframe(raw[..k]) <= Deframe(raw)
  {
    TakeDrop(raw, k);
    DeframeExtends(raw[..k], raw[k..]);
  }

  /** How many socket bytes the first k bytes of a framed stream carry, with four header bytes per c. */
  function CarriedBy(k: nat, c: nat): (n: nat)
    requires c > 0
  {
    if k < 4 then 0 else if k < 4 + c then k - 4 else c + CarriedBy(k - 4 - c, c)
  }

  /** Truncating a framed stream loses just the bytes cut off. */
  lemma {:induction false} DeframeTruncatedExactly(sock: seq<byte>, c: nat, k: nat)
    requires 0 < c <= CHUNK_MAX && k <= |Frame(sock, c)|
    ensures CarriedBy(k, c) <= |sock| && Deframe(Frame(sock, c)[..k]) == sock[..CarriedBy(k, c)]
    decreases |sock|
  {
    if k < 4 {
      DeframeShort(Frame(sock, c)[..k]);
    } else {
      var n := Min(|sock|, c);
      if k < 4 + n {
        CutInFirst(sock, c, k);
      } else {
        var later, j := sock[n..], k - 4 - n;
        FrameNext(sock, c);
        DeframeTruncatedExactly(later, c, j);
        CutLater(sock, c, k, CarriedBy(j, c));
        CarriedOn(k, n, c);
      }
    }
  }

  lemma {:induction false} CarriedOn(k: nat, n: nat, c: nat)
    requires 0 < n <= c && 4 + n <= k && (n < c ==> k == 4 + n)
    ensures CarriedBy(k, c) == n + CarriedBy(k - 4 - n, c)
  {
  }

  lemma {:induction false} CutInFirst(sock: seq<byte>, c: nat, k: nat)
    requires 0 < c <= CHUNK_MAX && 4 <= k < 4 + Min(|sock|, c)
    ensures k <= |Frame(sock, c)| && Deframe(Frame(sock, c)[..k]) == sock[..k - 4]
  {
    var n := Min(|sock|, c);
    FrameNext(sock, c);
    CutChunk(sock[..n], Frame(sock[n..], c), k);
    assert sock[..n][..k - 4] == sock[..k - 4];
  }

  lemma {:induction false} CutLater(sock: seq<byte>, c: nat, k: nat, m: nat)
    requires 0 < c <= CHUNK_MAX && 4 + Min(|sock|, c) <= k <= |Frame(sock, c)|
    requires var n := Min(|sock|, c);
             var rest, j := Frame(sock[n..], c), k - 4 - n;
             n + m <= |sock| && j <= |rest| && Deframe(rest[..j]) == sock[n..][..m]
    ensures Deframe(Frame(sock, c)[..k]) == sock[..Min(|sock|, c) + m]
  {
    var n := Min(|sock|, c);
    FrameNext(sock, c);
    WholeThenCut(sock[..n], Frame(sock[n..], c), k, sock[n..][..m]);
    SliceOn(sock, n, m);
  }

  lemma {:induction false} FrameNext(sock: seq<byte>, c: nat)
    requires 0 < c <= CHUNK_MAX && Frame(sock, c) != []
    ensures var n := Min(|sock|, c);
            n > 0 && Frame(sock, c) == Encode(Msg(DATA, 0x01, sock[..n])) + Frame(sock[n..], c)
    ensures |sock| < c ==> |Frame(sock, c)| == 4 + |sock|
  {
  }

  lemma SliceOn<X>(s: seq<X>, n: nat, m: nat)
    requires n + m <= |s|
    ensures s[..n] + s[n..][..m] == s[..n + m]
  {
  }

  lemma {:induction false} WholeThenCut(data: seq<byte>, rest: seq<byte>, k: nat, out: seq<byte>)
    requires 0 < |data| <= CHUNK_MAX && 4 + |data| <= k <= 4 + |data| + |rest|
    requires Deframe(rest[..k - 4 - |data|]) == out
    ensures Deframe((Encode(Msg(DATA, 0x01, data)) + rest)[..k]) == data + out
  {
    var head, cut := Encode(Msg(DATA, 0x01, data)), rest[..k - 4 - |data|];
    assert (head + rest)[..k] == head + cut;
    DeframeChunk(data, cut);
  }

  lemma {:induction false} CutChunk(data: seq<byte>, rest: seq<byte>, k: nat)
    requires 0 < |data| <= CHUNK_MAX && 4 <= k < 4 + |data|
    ensures Deframe((Encode(Msg(DATA, 0x01, data)) + rest)[..k]) == data[..k - 4]
  {
    var raw := (Encode(Msg(DATA, 0x01, data)) + rest)[..k];
    RangeValues();
    LeRoundTrip(|data|, 2);
    assert raw == [DATA, 0x01] + LeBytes(|data|, 2) + data[..k - 4];
    assert raw[2..4] == LeBytes(|data|, 2) && raw[4..] == data[..k - 4];
  }

  /** Each chunk carries c bytes behind four of header, the last one what is left. */
  lemma {:induction false} FramedLength(sock: seq<byte>, c: nat)
    requires 0 < c <= CHUNK_MAX
    ensures CarriedBy(|Frame(sock, c)|, c) == |sock|
  {
    var raw := Frame(sock, c);
    DeframeTruncatedExactly(sock, c, |raw|);
    assert raw[..|raw|] == raw;
    DeframeFrame(sock, c);
  }

  /** A stray byte that starts no chunk is kept, and costs nothing else. */
  lemma {:induction false} DeframeKeepsStray(gs: seq<byte>, sock: seq<byte>, c: nat)
    requires 0 < c <= CHUNK_MAX && sock != [] && forall i | 0 <= i < |gs| :: gs[i] != 0x02
    ensures Deframe(gs + Frame(sock, c)) == gs + sock
  {
    AtLeastFive(sock, c);
    StrayBytes(gs, Frame(sock, c));
    DeframeFrame(sock, c);
  }

  lemma {:induction false} StrayBytes(gs: seq<byte>, rest: seq<byte>)
    requires |rest| >= 3 && forall i | 0 <= i < |gs| :: gs[i] != 0x02
    ensures Deframe(gs + rest) == gs + Deframe(rest)
  {
    if gs == [] {
      assert gs + rest == rest;
    } else {
      var more := gs[1..] + rest;
      StrayBytes(gs[1..], rest);
      StrayByte(gs[0], more);
      FirstAndRest(gs, rest);
      FirstAndRest(gs, Deframe(rest));
    }
  }

  lemma FirstAndRest<X>(a: seq<X>, b: seq<X>)
    requires a != []
    ensures a + b == [a[0]] + (a[1..] + b)
  {
  }

  lemma {:induction false} AtLeastFive(sock: seq<byte>, c: nat)
    requires 0 < c <= CHUNK_MAX && sock != []
    ensures |Frame(sock, c)| >= 5
  {
  }

  lemma {:induction false} StrayByte(g: byte, rest: seq<byte>)
    requires g != 0x02 && |rest| >= 3
    ensures Deframe([g] + rest) == [g] + Deframe(rest)
  {
    assert ([g] + rest)[1..] == rest;
  }

  /** Fewer than four bytes at the end are dropped. */
  lemma {:induction false} DeframeShort(raw: seq<byte>)
    requires |raw| < 4
    ensures Deframe(raw) == []
  {
  }

  /** Deframe from offset p on, in terms of the whole buffer. */
  lemma {:induction false} DeframeAt(raw: seq<byte>, p: nat)
    requires p + 4 <= |raw|
    ensures var clen := LeValue(raw[p + 2..p + 4]);
            if raw[p] == DATA && raw[p + 1] == 0x01 && 0 < clen <= CHUNK_MAX then
              var n := if p + 4 + clen > |raw| then |raw| - p - 4 else clen;
              Deframe(raw[p..]) == raw[p + 4..p + 4 + n] + Deframe(raw[p + 4 + n..])
            else
              Deframe(raw[p..]) == [raw[p]] + Deframe(raw[p + 1..])
  {
    var rest := raw[p..];
    assert rest[2..4] == raw[p + 2..p + 4];
    var clen := LeValue(rest[2..4]);
    if !(raw[p] == DATA && raw[p + 1] == 0x01 && 0 < clen <= CHUNK_MAX) {
      DropDrop(raw, p, 1);
    } else if 4 + clen <= |rest| {
      assert rest[4..4 + clen] == raw[p + 4..p + 4 + clen];
      DropDrop(raw, p, 4 + clen);
      DeframeWhole(rest, clen, raw[p + 4 + clen..]);
    } else {
      DropDrop(raw, p, 4);
      assert raw[p + 4..] == raw[p + 4..|raw|] + Deframe([]);
    }
  }

  /** The loop of DeframeTunnel has written sock and is at p. */
  ghost predicate Deframed(raw: seq<byte>, sock: seq<byte>, p: nat)
    requires p <= |raw|
  {
    Deframe(raw) == sock + Deframe(raw[p..])
  }

  lemma ChunkDeframed(raw: seq<byte>, sock: seq<byte>, p: nat, n: nat)
    requires p + 4 <= |raw| && Deframed(raw, sock, p)
    requires var clen := LeValue(raw[p + 2..p + 4]);
             && raw[p] == DATA && raw[p + 1] == 0x01 && 0 < clen <= CHUNK_MAX
             && n == if p + 4 + clen > |raw| then |raw| - p - 4 else clen
    ensures Deframed(raw, sock + raw[p + 4..p + 4 + n], p + 4 + n)
  {
    DeframeAt(raw, p);
    AppendAssoc(sock, raw[p + 4..p + 4 + n], Deframe(raw[p + 4 + n..]));
  }

  lemma ByteDeframed(raw: seq<byte>, sock: seq<byte>, p: nat)
    requires p + 4 <= |raw| && Deframed(raw, sock, p)
    requires var clen := LeValue(raw[p + 2..p + 4]); !(raw[p] == DATA && raw[p + 1] == 0x01 && 0 < clen <= CHUNK_MAX)
    ensures Deframed(raw, sock + [raw[p]], p + 1)
  {
    DeframeAt(raw, p);
    AppendAssoc(sock, [raw[p]], Deframe(raw[p + 1..]));
  }

  method DeframeTunnel(raw: seq<byte>) returns (sock: seq<byte>)
    ensures sock == Deframe(raw)
  {
    sock := [];
    var p := 0;
    DeframedStart(raw);
    while p + 4 <= |raw|
      invariant 0 <= p <= |raw| && Deframed(raw, sock, p)
      decreases |raw| - p
    {
      sock, p := DeframeNext(raw, sock, p);
    }
    DeframedEnd(raw, sock, p);
  }

  lemma DeframedStart(raw: seq<byte>)
    ensures Deframed(raw, [], 0)
  {
    assert raw[0..] == raw;
  }

  lemma {:induction false} DeframedEnd(raw: seq<byte>, sock: seq<byte>, p: nat)
    requires p <= |raw| < p + 4 && Deframed(raw, sock, p)
    ensures sock == Deframe(raw)
  {
  }

  /** One turn of the loop: a chunk, possibly cut short, or a byte that starts none. */
  method DeframeNext(raw: seq<byte>, sock: seq<byte>, p: nat) returns (sock': seq<byte>, p': nat)
    requires p + 4 <= |raw| && Deframed(raw, sock, p)
    ensures p < p' <= |raw| && Deframed(raw, sock', p')
  {
    var clen := LeValue(raw[p + 2..p + 4]);
    if raw[p] == DATA && raw[p + 1] == 0x01 && 0 < clen <= CHUNK_MAX {
      if p + 4 + clen > |raw| {
        clen := |raw| - p - 4;
      }
      ChunkDeframed(raw, sock, p, clen);
      return sock + raw[p + 4..p + 4 + clen], p + 4 + clen;
    }
    ByteDeframed(raw, sock, p);
    return sock + [raw[p]], p + 1;
  }

  /** Frame from offset i on, in terms of the whole buffer. */
  lemma {:induction false} FrameAt(sock: seq<byte>, c: nat, i: nat)
    requires 0 < c <= CHUNK_MAX && i < |sock|
    ensures var end := if i + c < |sock| then i + c else |sock|;
            Frame(sock[i..], c) == Encode(Msg(DATA, 0x01, sock[i..end])) + Frame(sock[end..], c)
  {
    var rest := sock[i..];
    var end := if i + c < |sock| then i + c else |sock|;
    assert rest[..end - i] == sock[i..end];
    DropDrop(sock, i, end - i);
  }

  method FrameTunnel(sock: seq<byte>, chunk: int) returns (out: seq<byte>)
    ensures out == Frame(sock, ClampChunk(chunk))
  {
    var c := chunk;
    if c <= 0 || c > CHUNK_MAX {
      c := CHUNK_MAX;
    }
    out := [];
    var i := 0;
    assert sock[0..] == sock;
    while i < |sock|
      invariant 0 <= i
      invariant Frame(sock, c) == out + (if i < |sock| then Frame(sock[i..], c) else [])
    {
      var end := if i + c < |sock| then i + c else |sock|;
      FrameAt(sock, c, i);
      var piece := Encode(Msg(DATA, 0x01, sock[i..end]));
      AppendAssoc(out, piece, Frame(sock[end..], c));
      out := out + piece;
      i := i + c;
    }
  }
}
