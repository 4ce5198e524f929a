/**
 * Splitting a byte stream into messages, as the three stream parsers of the tunnel do it:
 * look at the front of the buffer, then either wait, skip one byte, or emit a message.
 * The laws here are proved once for every well-behaved scanner and used for RDT frames,
 * DTLS records and P2PTunnel messages.
 */
module Framing {
  import opened Bytes

  /** What the front of a buffer says: nothing yet, or how many bytes to take and what they carry. */
  datatype Step<+T> =
    | Stop
    | Take(out: seq<T>, len: nat)

  function Emit<T>(m: T, len: nat): (s: Step<T>) { Take([m], len) }
  function Skip<T>(): (s: Step<T>) { Take([], 1) }

  /** The messages of a buffer and the number of bytes they and the skipped bytes take up. */
  datatype Parsed<+T> = Parsed(msgs: seq<T>, used: nat)

  /** A verdict other than Stop takes at least one byte of a, and more bytes do not change it. */
  ghost predicate Settled<B, T>(scan: seq<B> -> Step<T>, a: seq<B>, b: seq<B>) {
    scan(a).Take? ==> 0 < scan(a).len <= |a| && scan(a + b) == scan(a)
  }

  ghost predicate Stable<B(!new), T>(scan: seq<B> -> Step<T>) {
    forall a: seq<B>, b: seq<B> :: Settled(scan, a, b)
  }

  /** enc writes a good message so that scan reads it back, whatever follows. */
  ghost predicate ReadsBack<B, T>(scan: seq<B> -> Step<T>, enc: T -> seq<B>, x: T, rest: seq<B>) {
    scan(enc(x) + rest) == Emit(x, |enc(x)|)
  }

  ghost predicate EmitsGood<B, T>(scan: seq<B> -> Step<T>, good: T -> bool, a: seq<B>) {
    scan(a).Take? ==> forall x :: x in scan(a).out ==> good(x)
  }

  /** enc and scan agree on exactly the good messages. */
  ghost predicate Codec<B(!new), T(!new)>(scan: seq<B> -> Step<T>, enc: T -> seq<B>, good: T -> bool) {
    && Stable(scan)
    && (forall x: T, rest: seq<B> :: good(x) ==> ReadsBack(scan, enc, x, rest))
    && (forall a: seq<B> :: EmitsGood(scan, good, a))
  }

  function Split<B, T>(scan: seq<B> -> Step<T>, s: seq<B>): (p: Parsed<T>)
    ensures p.used <= |s|
    decreases |s|
  {
    var step := scan(s);
    if step.Stop? || step.len == 0 || |s| < step.len then Parsed([], 0) else
    var r := Split(scan, s[step.len..]);
    Parsed(step.out + r.msgs, step.len + r.used)
  }

  /** Parsing a longer buffer is parsing the shorter one, then the bytes it left over. */
  lemma {:induction false} SplitAppend<B(!new), T(!new)>(scan: seq<B> -> Step<T>, a: seq<B>, b: seq<B>)
    requires Stable(scan)
    ensures var p := Split(scan, a);
            var q := Split(scan, a[p.used..] + b);
            Split(scan, a + b) == Parsed(p.msgs + q.msgs, p.used + q.used)
    decreases |a|
  {
    assert Settled(scan, a, b);
    if scan(a).Stop? {
      assert a[0..] + b == a + b;
    } else {
      var n := scan(a).len;
      var r := Split(scan, a[n..]);
      SplitAppend(scan, a[n..], b);
      DropAppend(a, b, n);
      DropDrop(a, n, r.used);
      AppendAssoc(scan(a).out, r.msgs, Split(scan, a[n + r.used..] + b).msgs);
    }
  }

  /** One turn of a parsing loop: take the n bytes at offset off, append what they carry. */
  lemma SplitResume<B, T>(scan: seq<B> -> Step<T>, s: seq<B>, off: nat, done: seq<T>, out: seq<T>, n: nat)
    requires off + n <= |s| && n > 0 && scan(s[off..]) == Take(out, n)
    ensures done + Split(scan, s[off..]).msgs == (done + out) + Split(scan, s[off + n..]).msgs
    ensures off + Split(scan, s[off..]).used == off + n + Split(scan, s[off + n..]).used
  {
    DropDrop(s, off, n);
    AppendAssoc(done, out, Split(scan, s[off + n..]).msgs);
  }

  /** A parsing loop that started at from has reached off with done: the rest is still to come. */
  ghost predicate Resumes<B, T>(scan: seq<B> -> Step<T>, s: seq<B>, from: nat, off: nat, done: seq<T>)
  {
    && from <= off <= |s|
    && Split(scan, s[from..]) == Parsed(done + Split(scan, s[off..]).msgs, off - from + Split(scan, s[off..]).used)
  }

  lemma ResumeStart<B, T>(scan: seq<B> -> Step<T>, s: seq<B>, off: nat)
    requires off <= |s|
    ensures Resumes(scan, s, off, off, [])
  {
  }

  lemma ResumeStep<B, T>(scan: seq<B> -> Step<T>, s: seq<B>, from: nat, off: nat, done: seq<T>, out: seq<T>, n: nat)
    requires Resumes(scan, s, from, off, done)
    requires off + n <= |s| && n > 0 && scan(s[off..]) == Take(out, n)
    ensures Resumes(scan, s, from, off + n, done + out)
  {
    SplitResume(scan, s, off, done, out, n);
  }

  /** step is what scan says of the bytes from off on, and takes no more than there are. */
  ghost predicate Reads<B, T>(scan: seq<B> -> Step<T>, s: seq<B>, off: nat, step: Step<T>) {
    off <= |s| && scan(s[off..]) == step && (step.Take? ==> 0 < step.len <= |s| - off)
  }

  /** scan says what spec says; a loop that is given scan is proved without looking inside spec. */
  ghost predicate StandsFor<B(!new), T>(scan: seq<B> -> Step<T>, spec: seq<B> -> Step<T>) {
    forall s: seq<B> {:trigger spec(s)} :: scan(s) == spec(s)
  }

  lemma StandsForAt<B(!new), T>(scan: seq<B> -> Step<T>, spec: seq<B> -> Step<T>, s: seq<B>)
    requires StandsFor(scan, spec)
    ensures scan(s) == spec(s)
  {
  }

  /** One turn of a parsing loop, whichever way it goes. */
  lemma ResumeTurn<B, T>(scan: seq<B> -> Step<T>, s: seq<B>, from: nat, off: nat, done: seq<T>, step: Step<T>)
    requires Resumes(scan, s, from, off, done) && Reads(scan, s, off, step)
    ensures step.Stop? ==> Ends(scan, s, from, off, done)
    ensures step.Take? ==> Resumes(scan, s, from, off + step.len, done + step.out)
  {
    if step.Take? {
      ResumeStep(scan, s, from, off, done, step.out, step.len);
    } else {
      ResumeEnd(scan, s, from, off, done);
    }
  }

  /** A parsing loop that started at from has ended at off with all there is. */
  ghost predicate Ends<B, T>(scan: seq<B> -> Step<T>, s: seq<B>, from: nat, off: nat, done: seq<T>) {
    from <= off <= |s| && Split(scan, s[from..]) == Parsed(done, off - from)
  }

  lemma ResumeEnd<B, T>(scan: seq<B> -> Step<T>, s: seq<B>, from: nat, off: nat, done: seq<T>)
    requires Resumes(scan, s, from, off, done) && scan(s[off..]).Stop?
    ensures Ends(scan, s, from, off, done)
  {
  }

  /** Truncating a buffer anywhere loses only messages at the end. */
  lemma {:induction false} SplitPrefix<B(!new), T(!new)>(scan: seq<B> -> Step<T>, s: seq<B>, k: nat)
    requires Stable(scan) && k <= |s|
    ensures Split(scan, s[..k]).msgs <= Split(scan, s).msgs
  {
    assert s == s[..k] + s[k..];
    SplitAppend(scan, s[..k], s[k..]);
  }

  /** What Split leaves over yields nothing more by itself. */
  lemma {:induction false} SplitLeftover<B, T>(scan: seq<B> -> Step<T>, s: seq<B>)
    ensures Split(scan, s[Split(scan, s).used..]) == Parsed([], 0)
    decreases |s|
  {
    var p := Split(scan, s);
    if p.used == 0 {
      assert s[0..] == s;
    } else {
      var n := scan(s).len;
      SplitLeftover(scan, s[n..]);
      assert s[n..][p.used - n..] == s[p.used..];
    }
  }

  // --- incremental parsing -------------------------------------------------------------

  /** Messages so far, and what the caller holds between calls: the unparsed bytes. */
  datatype Carry<+B, +T> = Carry(msgs: seq<T>, buf: seq<B>)

  /** Parse each arriving piece behind the carried-over bytes, then drop what was used. */
  function FeedCompacted<B, T>(scan: seq<B> -> Step<T>, pieces: seq<seq<B>>): (c: Carry<B, T>)
    decreases |pieces|
  {
    if pieces == [] then Carry([], []) else
    var c := FeedCompacted(scan, pieces[..|pieces| - 1]);
    var buf := c.buf + pieces[|pieces| - 1];
    var p := Split(scan, buf);
    Carry(c.msgs + p.msgs, buf[p.used..])
  }

  /** Keep the whole stream and an offset into it; each call resumes at the offset. */
  function FeedRetained<B, T>(scan: seq<B> -> Step<T>, pieces: seq<seq<B>>): (r: Parsed<T>)
    ensures r.used <= |Flatten(pieces)|
    decreases |pieces|
  {
    if pieces == [] then Parsed([], 0) else
    var r := FeedRetained(scan, pieces[..|pieces| - 1]);
    assert pieces == pieces[..|pieces| - 1] + [pieces[|pieces| - 1]];
    FlattenSnoc(pieces[..|pieces| - 1], pieces[|pieces| - 1]);
    var p := Split(scan, Flatten(pieces)[r.used..]);
    Parsed(r.msgs + p.msgs, r.used + p.used)
  }

  /** However a stream is cut, incremental parsing of both kinds is one parse of the whole. */
  lemma {:induction false} IncrementalRefinesOneShot<B(!new), T(!new)>(scan: seq<B> -> Step<T>, pieces: seq<seq<B>>)
    requires Stable(scan)
    ensures var whole := Split(scan, Flatten(pieces));
            && FeedCompacted(scan, pieces) == Carry(whole.msgs, Flatten(pieces)[whole.used..])
            && FeedRetained(scan, pieces) == whole
    decreases |pieces|
  {
    if pieces == [] {
      SplitLeftover(scan, []);
      assert Split(scan, []).msgs == [];
    } else {
      var front, last := pieces[..|pieces| - 1], pieces[|pieces| - 1];
      assert pieces == front + [last];
      IncrementalRefinesOneShot(scan, front);
      FlattenSnoc(front, last);
      ParseOn(scan, Flatten(front), last);
    }
  }

  /** Parsing a further piece behind what the whole parse so far left over. */
  lemma {:induction false} ParseOn<B(!new), T(!new)>(scan: seq<B> -> Step<T>, a: seq<B>, b: seq<B>)
    requires Stable(scan)
    ensures var p := Split(scan, a);
            var q := Split(scan, a[p.used..] + b);
            && Split(scan, a + b) == Parsed(p.msgs + q.msgs, p.used + q.used)
            && (a + b)[p.used..] == a[p.used..] + b
            && (a + b)[p.used + q.used..] == (a[p.used..] + b)[q.used..]
  {
    SplitAppend(scan, a, b);
    var p := Split(scan, a);
    var q := Split(scan, a[p.used..] + b);
    DropAppend(a, b, p.used);
    DropDrop(a + b, p.used, q.used);
  }

  // --- encoding and back -----------------------------------------------------------------

  function EncodeAll<B, T>(enc: T -> seq<B>, xs: seq<T>): (s: seq<B>)
  {
    if xs == [] then [] else enc(xs[0]) + EncodeAll(enc, xs[1..])
  }

  lemma {:induction false} EncodeAllSnoc<B, T>(enc: T -> seq<B>, xs: seq<T>, x: T)
    ensures EncodeAll(enc, xs + [x]) == EncodeAll(enc, xs) + enc(x)
  {
    if xs == [] {
      assert xs + [x] == [x];
      assert EncodeAll(enc, [x]) == enc(x) + EncodeAll(enc, []);
    } else {
      assert (xs + [x])[1..] == xs[1..] + [x];
      EncodeAllSnoc(enc, xs[1..], x);
      AppendAssoc(enc(xs[0]), EncodeAll(enc, xs[1..]), enc(x));
    }
  }

  lemma {:induction false} EncodeAllAppend<B, T>(enc: T -> seq<B>, a: seq<T>, b: seq<T>)
    ensures EncodeAll(enc, a + b) == EncodeAll(enc, a) + EncodeAll(enc, b)
  {
    if b == [] {
      assert a + b == a;
    } else {
      var front, last := b[..|b| - 1], b[|b| - 1];
      EncodeAllAppend(enc, a, front);
      assert a + b == (a + front) + [last] && b == front + [last];
      EncodeAllSnoc(enc, a + front, last);
      EncodeAllSnoc(enc, front, last);
      AppendAssoc(EncodeAll(enc, a), EncodeAll(enc, front), enc(last));
    }
  }

  lemma {:induction false} SplitEncoded<B(!new), T(!new)>(
      scan: seq<B> -> Step<T>, enc: T -> seq<B>, good: T -> bool, xs: seq<T>)
    requires Codec(scan, enc, good)
    requires forall x :: x in xs ==> good(x)
    ensures Split(scan, EncodeAll(enc, xs)) == Parsed(xs, |EncodeAll(enc, xs)|)
  {
    if xs == [] {
      assert Split(scan, []).msgs == [];
    } else {
      var e, rest := enc(xs[0]), EncodeAll(enc, xs[1..]);
      assert good(xs[0]) && ReadsBack(scan, enc, xs[0], rest);
      assert Settled(scan, e, rest) && Settled(scan, e + rest, []);
      assert (e + rest)[|e|..] == rest;
      SplitEncoded(scan, enc, good, xs[1..]);
      assert [xs[0]] + xs[1..] == xs;
    }
  }

  lemma {:induction false} SplitOnlyGood<B(!new), T(!new)>(
      scan: seq<B> -> Step<T>, enc: T -> seq<B>, good: T -> bool, s: seq<B>)
    requires Codec(scan, enc, good)
    ensures forall x :: x in Split(scan, s).msgs ==> good(x)
    decreases |s|
  {
    assert Settled(scan, s, []) && EmitsGood(scan, good, s);
    if !scan(s).Stop? {
      var n := scan(s).len;
      SplitOnlyGood(scan, enc, good, s[n..]);
    }
  }

  /** A list survives the round trip exactly when every element is good. */
  lemma {:induction false} RoundTripIff<B(!new), T(!new)>(
      scan: seq<B> -> Step<T>, enc: T -> seq<B>, good: T -> bool, xs: seq<T>)
    requires Codec(scan, enc, good)
    ensures Split(scan, EncodeAll(enc, xs)).msgs == xs <==> forall x :: x in xs ==> good(x)
  {
    SplitOnlyGood(scan, enc, good, EncodeAll(enc, xs));
    if forall x :: x in xs ==> good(x) {
      SplitEncoded(scan, enc, good, xs);
    }
  }

  /** Whatever was parsed out of arbitrary bytes can be re-encoded and parsed again. */
  lemma {:induction false} Reparse<B(!new), T(!new)>(
      scan: seq<B> -> Step<T>, enc: T -> seq<B>, good: T -> bool, s: seq<B>)
    requires Codec(scan, enc, good)
    ensures var xs := Split(scan, s).msgs; Split(scan, EncodeAll(enc, xs)).msgs == xs
  {
    SplitOnlyGood(scan, enc, good, s);
    SplitEncoded(scan, enc, good, Split(scan, s).msgs);
  }

  // --- what was written, from what is read ------------------------------------------------

  /** A verdict that carries anything carries one message, spelled as enc writes it. */
  ghost predicate SpellsOut<B, T>(scan: seq<B> -> Step<T>, enc: T -> seq<B>, a: seq<B>) {
    scan(a).Take? && scan(a).out != [] ==>
      |scan(a).out| == 1 && scan(a).len <= |a| && enc(scan(a).out[0]) == a[..scan(a).len]
  }

  ghost predicate Literal<B(!new), T>(scan: seq<B> -> Step<T>, enc: T -> seq<B>) {
    forall a: seq<B> :: SpellsOut(scan, enc, a)
  }

  /** The messages read take no more bytes than were used, and just those bytes if they take as many. */
  lemma {:induction false} SplitSpells<B(!new), T>(scan: seq<B> -> Step<T>, enc: T -> seq<B>, s: seq<B>)
    requires Literal(scan, enc)
    ensures var p := Split(scan, s);
            var e := EncodeAll(enc, p.msgs);
            |e| <= p.used && (|e| == p.used ==> e == s[..p.used])
    decreases |s|
  {
    var p, step := Split(scan, s), scan(s);
    if p.used > 0 {
      var n, r := step.len, Split(scan, s[step.len..]);
      SplitSpells(scan, enc, s[n..]);
      assert SpellsOut(scan, enc, s);
      if step.out == [] {
        assert p.msgs == r.msgs;
      } else {
        assert p.msgs[0] == step.out[0] && p.msgs[1..] == r.msgs;
        assert s[..n] + s[n..][..r.used] == s[..n + r.used];
      }
    }
  }

  /** No shorter or equally long buffer reads as the same good messages but their own encoding. */
  lemma {:induction false} ReadsExactlyIff<B(!new), T(!new)>(
      scan: seq<B> -> Step<T>, enc: T -> seq<B>, good: T -> bool, s: seq<B>, xs: seq<T>)
    requires Codec(scan, enc, good) && Literal(scan, enc)
    requires (forall x :: x in xs ==> good(x)) && |s| <= |EncodeAll(enc, xs)|
    ensures Split(scan, s).msgs == xs <==> s == EncodeAll(enc, xs)
  {
    if Split(scan, s).msgs == xs {
      SplitSpells(scan, enc, s);
      assert s[..|s|] == s;
    }
    SplitEncoded(scan, enc, good, xs);
  }

  /**
   * A message y put into a stream when sent has gone out but rest of the messages begun has not:
   * the stream is read as those messages, then y, then what follows, if and only if the bytes of
   * y and the rest that they overtake commute.
   */
  lemma {:induction false} InsertedIff<B(!new), T(!new)>(
      scan: seq<B> -> Step<T>, enc: T -> seq<B>, good: T -> bool,
      begun: seq<T>, sent: seq<B>, rest: seq<B>, y: T, after: seq<T>)
    requires Codec(scan, enc, good) && Literal(scan, enc)
    requires (forall x :: x in begun + [y] + after ==> good(x)) && EncodeAll(enc, begun) == sent + rest
    ensures Split(scan, sent + enc(y) + (rest + EncodeAll(enc, after))).msgs == begun + [y] + after
       <==> enc(y) + rest == rest + enc(y)
  {
    var s := sent + enc(y) + (rest + EncodeAll(enc, after));
    OvertakenIff(enc, begun, sent, rest, y, after);
    ReadsExactlyIff(scan, enc, good, s, begun + [y] + after);
  }

  lemma {:induction false} OvertakenIff<B, T>(
      enc: T -> seq<B>, begun: seq<T>, sent: seq<B>, rest: seq<B>, y: T, after: seq<T>)
    requires EncodeAll(enc, begun) == sent + rest
    ensures var s := sent + enc(y) + (rest + EncodeAll(enc, after));
            var e := EncodeAll(enc, begun + [y] + after);
            |s| == |e| && (s == e <==> enc(y) + rest == rest + enc(y))
  {
    var tail := EncodeAll(enc, after);
    EncodeAllAppend(enc, begun + [y], after);
    EncodeAllSnoc(enc, begun, y);
    CancelEnds(sent, enc(y) + rest, rest + enc(y), tail);
    Regroup(sent, enc(y), rest, tail);
    Regroup3(sent, rest, enc(y), tail);
  }

  lemma Regroup<B>(a: seq<B>, b: seq<B>, c: seq<B>, d: seq<B>)
    ensures a + b + (c + d) == a + ((b + c) + d)
  {
  }

  lemma Regroup3<B>(a: seq<B>, b: seq<B>, c: seq<B>, d: seq<B>)
    ensures a + b + c + d == a + ((b + c) + d)
  {
  }
}
