/**
 * The parallel ranged download of cmd/download/main.go: workers take ranges in turn, read them
 * from the source, write them into a partial file at their offsets and count the bytes
 * persisted; the file is committed on the byte count alone. Steps of different workers
 * interleave freely, reads may be short, and any operation may fail.
 */
module RangedFetch {
  import opened Bytes

  /** What is fetched: the bytes the source really has, the size it reported, the range length. */
  datatype Job = Job(src: seq<byte>, size: nat, chunk: nat)

  datatype Worker =
    | Idle
    | Reading(range: nat)
    | Writing(range: nat, n: nat, failed: bool)     // n bytes read, and whether the read also failed
    | Counting(range: nat, n: nat, failed: bool)    // n bytes written
    | Exited

  datatype Outcome = Running | Committed(file: seq<byte>) | Aborted

  datatype State = State(
    next: nat,                       // number of ranges taken from the jobs channel
    workers: map<nat, Worker>,
    written: map<nat, byte>,         // offsets of the partial file that were written
    length: nat,                     // its length; unwritten offsets below read as zero
    done: nat,                       // the shared atomic counter
    rerr: bool,                      // some worker recorded an error
    outcome: Outcome,
    got: map<nat, nat>)              // history: bytes counted, by range

  datatype Event =
    | TakeRange(w: nat)
    | ReadAt(w: nat, n: nat, failed: bool)     // end of file is not counted as a failure
    | WriteAt(w: nat)
    | WriteFails(w: nat, partly: nat)
    | Count(w: nat)
    | WorkerExits(w: nat)
    | Finish                                   // the last worker has exited
    | GiveUp                                   // one of the timeouts

  // --- ranges -------------------------------------------------------------------------------

  /** Offset of range k. */
  function Start(j: Job, k: nat): (off: nat)
  {
    if k == 0 then 0 else Start(j, k - 1) + j.chunk
  }

  /** Length of range k: a chunk, or what is left of the file. */
  function Length(j: Job, k: nat): (n: nat)
  {
    if Start(j, k) >= j.size then 0 else Min(j.chunk, j.size - Start(j, k))
  }

  /** How much of range k the source can supply. */
  function Available(j: Job, k: nat): (n: nat)
  {
    if Start(j, k) >= |j.src| then 0 else Min(Length(j, k), |j.src| - Start(j, k))
  }

  /** The partial file after n bytes of range k were written from the source. */
  function Write(j: Job, written: map<nat, byte>, k: nat, n: nat): (w: map<nat, byte>)
    requires n <= Available(j, k)
  {
    written + (map off | Start(j, k) <= off < Start(j, k) + n :: j.src[off])
  }

  function Extend(length: nat, end: nat): (l: nat)
  {
    if end > length then end else length
  }

  /** What the partial file reads back as. */
  function Contents(s: State): (f: seq<byte>)
    ensures |f| == s.length
  {
    seq(s.length, off requires 0 <= off < s.length => if off in s.written then s.written[off] else 0)
  }

  // --- steps --------------------------------------------------------------------------------

  function Initial(j: Job, ids: set<nat>): (s: State)
  {
    State(0, map w | w in ids :: Idle, map[], 0, 0, false, Running, map[])
  }

  predicate Enabled(j: Job, s: State, e: Event) {
    match e
    case TakeRange(w) => w in s.workers && s.workers[w].Idle? && Start(j, s.next) < j.size
    case ReadAt(w, n, _) => w in s.workers && s.workers[w].Reading? && n <= Available(j, s.workers[w].range)
    case WriteAt(w) => w in s.workers && s.workers[w].Writing? && s.workers[w].n <= Available(j, s.workers[w].range)
    case WriteFails(w, partly) =>
      w in s.workers && s.workers[w].Writing? && partly <= s.workers[w].n <= Available(j, s.workers[w].range)
    case Count(w) => w in s.workers && s.workers[w].Counting?
    case WorkerExits(w) => w in s.workers && s.workers[w].Idle? && Start(j, s.next) >= j.size
    case Finish => s.outcome.Running? && forall w | w in s.workers :: s.workers[w].Exited?
    case GiveUp => s.outcome.Running?
  }

  function After(j: Job, s: State, e: Event): (s': State)
    requires Enabled(j, s, e)
  {
    match e
    case TakeRange(w) => s.(next := s.next + 1, workers := s.workers[w := Reading(s.next)])
    case ReadAt(w, n, failed) =>
      var k := s.workers[w].range;
      s.(workers := s.workers[w := if n > 0 then Writing(k, n, failed) else Counting(k, 0, failed)])
    case WriteAt(w) =>
      var wk := s.workers[w];
      s.(written := Write(j, s.written, wk.range, wk.n),
         length := Extend(s.length, Start(j, wk.range) + wk.n),
         workers := s.workers[w := Counting(wk.range, wk.n, wk.failed)])
    case WriteFails(w, partly) =>
      var wk := s.workers[w];
      s.(written := Write(j, s.written, wk.range, partly),
         length := if partly > 0 then Extend(s.length, Start(j, wk.range) + partly) else s.length,
         workers := s.workers[w := Exited],
         rerr := true)
    case Count(w) =>
      var wk := s.workers[w];
      s.(done := s.done + wk.n,
         got := s.got[wk.range := wk.n],
         workers := s.workers[w := if wk.failed then Exited else Idle],
         rerr := s.rerr || wk.failed)
    case WorkerExits(w) => s.(workers := s.workers[w := Exited])
    case Finish => s.(outcome := if s.rerr || s.done != j.size then Aborted else Committed(Contents(s)))
    case GiveUp => s.(outcome := Aborted)
  }

  // --- what every step keeps ------------------------------------------------------------------

  predicate Holding(w: Worker) {
    w.Reading? || w.Writing? || w.Counting?
  }

  /** Bytes counted for the first k ranges. */
  function Sum(got: map<nat, nat>, k: nat): (n: nat)
  {
    if k == 0 then 0 else Sum(got, k - 1) + (if k - 1 in got then got[k - 1] else 0)
  }

  /** Ranges being worked on were taken, are not yet counted, and have one worker each. */
  ghost predicate Held(s: State) {
    && (forall w | w in s.workers && Holding(s.workers[w]) ::
          s.workers[w].range < s.next && s.workers[w].range !in s.got)
    && (forall v, w | v in s.workers && w in s.workers && v != w && Holding(s.workers[v]) && Holding(s.workers[w]) ::
          s.workers[v].range != s.workers[w].range)
  }

  ghost predicate Counted(j: Job, s: State) {
    forall k | k in s.got :: k < s.next && s.got[k] <= Available(j, k)
  }

  /** Without an error, every range taken is counted or still with some worker. */
  ghost predicate Accounted(s: State) {
    s.rerr || forall k: nat | k < s.next :: k in s.got || HeldBySome(s, k)
  }

  ghost predicate HeldBySome(s: State, k: nat) {
    exists w | w in s.workers :: Holding(s.workers[w]) && s.workers[w].range == k
  }

  /** Some worker that exited did so because no range was left, unless an error was recorded. */
  ghost predicate ExitsSound(j: Job, s: State) {
    s.rerr || (forall w | w in s.workers && s.workers[w].Exited? :: Start(j, s.next) >= j.size)
  }

  /** Only source bytes are ever written, and what was counted was written. */
  ghost predicate Persisted(j: Job, s: State) {
    && (forall off | off in s.written :: off < s.length && off < |j.src| && s.written[off] == j.src[off])
    && s.length <= j.size
    && (forall w | w in s.workers && s.workers[w].Writing? :: 0 < s.workers[w].n <= Available(j, s.workers[w].range))
    && (forall w | w in s.workers && s.workers[w].Counting? ::
          s.workers[w].n <= Available(j, s.workers[w].range) && Filled(j, s, s.workers[w].range, s.workers[w].n))
    && (forall k | k in s.got :: Filled(j, s, k, s.got[k]))
  }

  ghost predicate Filled(j: Job, s: State, k: nat, n: nat) {
    forall off | Start(j, k) <= off < Start(j, k) + n :: off in s.written
  }

  /** Nothing of range k is written from its n-th byte on. */
  ghost predicate Beyond(j: Job, s: State, k: nat, n: nat) {
    forall off | Start(j, k) + n <= off < Start(j, k) + j.chunk :: off !in s.written
  }

  /** How many bytes of its range a worker has written. */
  function Progress(w: Worker): (n: nat)
  {
    if w.Counting? then w.n else 0
  }

  /** Without a write error, nothing is written that is not on its way to being counted. */
  ghost predicate Untouched(j: Job, s: State) {
    s.rerr || (
      && (forall k | k in s.got :: Beyond(j, s, k, s.got[k]))
      && (forall w | w in s.workers && Holding(s.workers[w]) ::
            Beyond(j, s, s.workers[w].range, Progress(s.workers[w])))
      && (forall off | off in s.written :: off < Start(j, s.next)))
  }

  ghost predicate Inv(j: Job, s: State) {
    && Held(s) && Counted(j, s) && Accounted(s) && ExitsSound(j, s) && Persisted(j, s) && Untouched(j, s)
    && s.done == Sum(s.got, s.next) && Sound(j, s.outcome)
  }

  /** Only the whole source file is ever committed. */
  ghost predicate Sound(j: Job, o: Outcome) {
    o.Committed? ==> j.size <= |j.src| && o.file == j.src[..j.size]
  }

  lemma InitialInv(j: Job, ids: set<nat>)
    ensures Inv(j, Initial(j, ids))
  {
  }

  lemma {:induction false} SumUpdate(got: map<nat, nat>, k: nat, n: nat, m: nat)
    requires k !in got
    ensures Sum(got[k := n], m) == Sum(got, m) + (if k < m then n else 0)
  {
    if m > 0 {
      SumUpdate(got, k, n, m - 1);
    }
  }

  /** The ranges tile the file: the first k of them are full if their counted bytes reach the end of the k-th. */
  lemma {:induction false} FullPrefix(j: Job, got: map<nat, nat>, k: nat)
    requires forall i | i in got :: got[i] <= Length(j, i)
    ensures Sum(got, k) <= Min(Start(j, k), j.size)
    ensures Sum(got, k) == Min(Start(j, k), j.size) ==>
              forall i: nat | i < k && Length(j, i) > 0 :: i in got && got[i] == Length(j, i)
  {
    if k > 0 {
      FullPrefix(j, got, k - 1);
    }
  }

  /** Every offset of the file lies in some range before the one that starts past it. */
  lemma {:induction false} RangeOf(j: Job, k: nat, off: nat) returns (i: nat)
    requires off < Start(j, k)
    ensures i < k && Start(j, i) <= off < Start(j, i) + j.chunk
  {
    if off >= Start(j, k - 1) {
      i := k - 1;
    } else {
      i := RangeOf(j, k - 1, off);
    }
  }

  lemma CountedAll(j: Job, s: State)
    requires Inv(j, s) && s.done == j.size
    ensures j.size <= |j.src| && s.length == j.size && Contents(s) == j.src[..j.size]
  {
    CompleteIfCounted(j, s);
    if j.size > 0 {
      assert j.size - 1 in s.written;
    }
    assert Contents(s) == j.src[..j.size];
  }

  lemma {:induction false} StartGap(j: Job, i: nat, k: nat)
    requires i < k
    ensures Start(j, i) + j.chunk <= Start(j, k)
  {
    if i < k - 1 {
      StartGap(j, i, k - 1);
    }
  }

  lemma StepHeld(j: Job, s: State, e: Event)
    requires Held(s) && Counted(j, s) && Enabled(j, s, e)
    ensures Held(After(j, s, e))
  {
  }

  lemma StepCounted(j: Job, s: State, e: Event)
    requires Held(s) && Counted(j, s) && Persisted(j, s) && Enabled(j, s, e)
    ensures Counted(j, After(j, s, e))
  {
  }

  lemma StepAccounted(j: Job, s: State, e: Event)
    requires Held(s) && Accounted(s) && Enabled(j, s, e)
    ensures Accounted(After(j, s, e))
  {
    var s' := After(j, s, e);
    forall k: nat | !s'.rerr && k < s'.next && k !in s'.got ensures HeldBySome(s', k) {
      if e.TakeRange? && k == s.next {
        assert s'.workers[e.w].range == k;
      } else {
        assert HeldBySome(s, k);
        var w :| w in s.workers && Holding(s.workers[w]) && s.workers[w].range == k;
        assert Holding(s'.workers[w]) && s'.workers[w].range == k;
      }
    }
  }

  lemma StepExits(j: Job, s: State, e: Event)
    requires ExitsSound(j, s) && Enabled(j, s, e)
    ensures ExitsSound(j, After(j, s, e))
  {
  }

  /** n more source bytes at the front of range k. */
  lemma {:induction false} WritePersists(j: Job, s: State, s': State, k: nat, n: nat)
    requires Persisted(j, s) && 0 < n <= Available(j, k)
    requires s' == s.(written := Write(j, s.written, k, n), length := Extend(s.length, Start(j, k) + n))
    ensures Persisted(j, s') && Filled(j, s', k, n)
  {
    forall i, m | Filled(j, s, i, m) ensures Filled(j, s', i, m) {
    }
  }

  lemma WriteAtPersisted(j: Job, s: State, w: nat)
    requires Persisted(j, s) && Enabled(j, s, WriteAt(w))
    ensures Persisted(j, After(j, s, WriteAt(w)))
  {
    var s' := After(j, s, WriteAt(w));
    var mid := s.(written := s'.written, length := s'.length);
    WritePersists(j, s, mid, s.workers[w].range, s.workers[w].n);
    SameFile(j, mid, s');
  }

  lemma WriteFailsPersisted(j: Job, s: State, w: nat, partly: nat)
    requires Persisted(j, s) && Enabled(j, s, WriteFails(w, partly))
    ensures Persisted(j, After(j, s, WriteFails(w, partly)))
  {
    var s' := After(j, s, WriteFails(w, partly));
    var mid := s.(written := s'.written, length := s'.length);
    if partly > 0 {
      WritePersists(j, s, mid, s.workers[w].range, partly);
    } else {
      assert mid == s;
    }
    SameFile(j, mid, s');
  }

  lemma OtherStepPersisted(j: Job, s: State, e: Event)
    requires Persisted(j, s) && Enabled(j, s, e) && !e.WriteAt? && !e.WriteFails?
    ensures Persisted(j, After(j, s, e))
  {
    SameFile(j, s, After(j, s, e));
  }

  lemma StepPersisted(j: Job, s: State, e: Event)
    requires Persisted(j, s) && Enabled(j, s, e)
    ensures Persisted(j, After(j, s, e))
  {
    match e
    case WriteAt(w) => WriteAtPersisted(j, s, w);
    case WriteFails(w, partly) => WriteFailsPersisted(j, s, w, partly);
    case _ => OtherStepPersisted(j, s, e);
  }

  lemma SameFile(j: Job, s: State, s': State)
    requires s.written == s'.written
    ensures forall k, n :: Filled(j, s, k, n) <==> Filled(j, s', k, n)
  {
  }

  lemma StepSum(j: Job, s: State, e: Event)
    requires Inv(j, s) && Enabled(j, s, e)
    ensures After(j, s, e).done == Sum(After(j, s, e).got, After(j, s, e).next)
  {
    match e
    case TakeRange(w) => assert s.next !in s.got;
    case Count(w) => SumUpdate(s.got, s.workers[w].range, s.workers[w].n, s.next);
    case _ =>
  }

  /** Writing into range k leaves the other ranges alone. */
  lemma WriteBeyond(j: Job, s: State, s': State, k: nat, n: nat, i: nat, m: nat)
    requires n <= Available(j, k) && s'.written == Write(j, s.written, k, n) && i != k && Beyond(j, s, i, m)
    ensures Beyond(j, s', i, m)
  {
    if i < k {
      StartGap(j, i, k);
    } else {
      StartGap(j, k, i);
    }
  }

  lemma WriteBeyondCounted(j: Job, s: State, s': State, k: nat, n: nat)
    requires n <= Available(j, k) && s'.written == Write(j, s.written, k, n) && k !in s.got
    requires forall i | i in s.got :: Beyond(j, s, i, s.got[i])
    ensures forall i | i in s.got :: Beyond(j, s', i, s.got[i])
  {
    forall i | i in s.got ensures Beyond(j, s', i, s.got[i]) {
      WriteBeyond(j, s, s', k, n, i, s.got[i]);
    }
  }

  lemma {:induction false} WriteBelow(j: Job, s: State, s': State, k: nat, n: nat)
    requires n <= Available(j, k) && s'.written == Write(j, s.written, k, n) && k < s.next
    requires forall off | off in s.written :: off < Start(j, s.next)
    ensures forall off | off in s'.written :: off < Start(j, s.next)
  {
    StartGap(j, k, s.next);
  }

  lemma WriteUntouched(j: Job, s: State, w: nat)
    requires Inv(j, s) && Enabled(j, s, WriteAt(w)) && !s.rerr
    ensures Untouched(j, After(j, s, WriteAt(w)))
  {
    var s' := After(j, s, WriteAt(w));
    var k, n := s.workers[w].range, s.workers[w].n;
    WriteBeyondCounted(j, s, s', k, n);
    WriteBelow(j, s, s', k, n);
    assert Beyond(j, s, k, 0) && Beyond(j, s', k, n);
    forall v | v in s.workers && v != w && Holding(s.workers[v])
      ensures Beyond(j, s', s.workers[v].range, Progress(s.workers[v])) {
      WriteBeyond(j, s, s', k, n, s.workers[v].range, Progress(s.workers[v]));
    }
  }

  lemma SameBeyond(j: Job, s: State, s': State)
    requires s.written == s'.written
    ensures forall k, n :: Beyond(j, s, k, n) <==> Beyond(j, s', k, n)
  {
  }

  lemma OtherStepUntouched(j: Job, s: State, e: Event)
    requires Untouched(j, s) && Enabled(j, s, e) && !e.WriteAt? && !After(j, s, e).rerr && !e.TakeRange?
    ensures Untouched(j, After(j, s, e))
  {
    SameBeyond(j, s, After(j, s, e));
  }

  lemma TakeUntouched(j: Job, s: State, w: nat)
    requires Untouched(j, s) && Enabled(j, s, TakeRange(w)) && !s.rerr
    ensures Untouched(j, After(j, s, TakeRange(w)))
  {
    SameBeyond(j, s, After(j, s, TakeRange(w)));
    assert Beyond(j, s, s.next, 0);
  }

  lemma StepUntouched(j: Job, s: State, e: Event)
    requires Inv(j, s) && Enabled(j, s, e)
    ensures Untouched(j, After(j, s, e))
  {
    if !After(j, s, e).rerr {
      match e
      case WriteAt(w) => WriteUntouched(j, s, w);
      case TakeRange(w) => TakeUntouched(j, s, w);
      case _ => OtherStepUntouched(j, s, e);
    }
  }

  lemma StepInv(j: Job, s: State, e: Event)
    requires Inv(j, s) && Enabled(j, s, e)
    ensures Inv(j, After(j, s, e))
  {
    StepHeld(j, s, e);
    StepCounted(j, s, e);
    StepAccounted(j, s, e);
    StepExits(j, s, e);
    StepPersisted(j, s, e);
    StepSum(j, s, e);
    StepUntouched(j, s, e);
    StepSound(j, s, e);
  }

  lemma StepSound(j: Job, s: State, e: Event)
    requires Inv(j, s) && Enabled(j, s, e)
    ensures Sound(j, After(j, s, e).outcome)
  {
    if e.Finish? && s.done == j.size {
      CountedAll(j, s);
    }
  }

  // --- whole runs -----------------------------------------------------------------------------------

  ghost predicate StepAt(j: Job, ss: seq<State>, es: seq<Event>, k: nat) {
    k < |es| && |ss| == |es| + 1 && Enabled(j, ss[k], es[k]) && ss[k + 1] == After(j, ss[k], es[k])
  }

  ghost predicate IsRun(j: Job, ids: set<nat>, ss: seq<State>, es: seq<Event>) {
    |ss| == |es| + 1 && ss[0] == Initial(j, ids) && forall k: nat | k < |es| :: StepAt(j, ss, es, k)
  }

  lemma {:induction false} RunInv(j: Job, ids: set<nat>, ss: seq<State>, es: seq<Event>, k: nat)
    requires IsRun(j, ids, ss, es) && k <= |es|
    ensures Inv(j, ss[k])
  {
    if k == 0 {
      InitialInv(j, ids);
    } else {
      RunInv(j, ids, ss, es, k - 1);
      assert StepAt(j, ss, es, k - 1);
      StepInv(j, ss[k - 1], es[k - 1]);
    }
  }

  /**
   * For every file size, range length, set of workers and interleaving, with short reads and
   * failures anywhere: a committed file has exactly the reported size and every byte of it is
   * the source byte at that offset.
   */
  lemma CommittedIsSource(j: Job, ids: set<nat>, ss: seq<State>, es: seq<Event>, k: nat)
    requires IsRun(j, ids, ss, es) && k <= |es| && ss[k].outcome.Committed?
    ensures j.size <= |j.src| && ss[k].outcome.file == j.src[..j.size]
  {
    RunInv(j, ids, ss, es, k);
  }

  /** Every offset of the file was written. */
  ghost predicate Complete(j: Job, s: State) {
    forall off: nat | off < j.size :: off in s.written
  }

  /** A short range leaves a hole. */
  lemma ShortRangeLeavesHole(j: Job, s: State, k: nat)
    requires Untouched(j, s) && !s.rerr && k in s.got && s.got[k] < Length(j, k)
    ensures !Complete(j, s)
  {
    assert Beyond(j, s, k, s.got[k]);
    assert Start(j, k) + s.got[k] !in s.written;
  }

  lemma {:induction false} FullSum(j: Job, got: map<nat, nat>, k: nat)
    requires forall i: nat | i < k :: i in got && got[i] == Length(j, i)
    ensures Sum(got, k) == Min(Start(j, k), j.size)
  {
    if k > 0 {
      FullSum(j, got, k - 1);
    }
  }

  /**
   * The commit test is exact: when the last worker has exited, the file is committed if and
   * only if no error was recorded and no offset was left unwritten. A sparse file that merely
   * has the right length is never committed.
   */
  lemma CommitTestIsExact(j: Job, ids: set<nat>, ss: seq<State>, es: seq<Event>, k: nat)
    requires IsRun(j, ids, ss, es) && k < |es| && es[k].Finish?
    ensures ss[k + 1].outcome.Committed? <==> !ss[k].rerr && Complete(j, ss[k])
  {
    var s := ss[k];
    RunInv(j, ids, ss, es, k);
    assert StepAt(j, ss, es, k);
    if !s.rerr && Complete(j, s) {
      forall i: nat | i < s.next ensures i in s.got && s.got[i] == Length(j, i) {
        assert i in s.got || HeldBySome(s, i);
        if s.got[i] < Length(j, i) {
          ShortRangeLeavesHole(j, s, i);
        }
      }
      FullSum(j, s.got, s.next);
      assert j.size > 0 ==> j.size - 1 in s.written;
    }
    if !s.rerr && s.done == j.size {
      CompleteIfCounted(j, s);
    }
  }

  lemma CompleteIfCounted(j: Job, s: State)
    requires Inv(j, s) && s.done == j.size
    ensures Complete(j, s)
  {
    FullPrefix(j, s.got, s.next);
    forall off: nat | off < j.size ensures off in s.written {
      var i := RangeOf(j, s.next, off);
      assert i in s.got && Filled(j, s, i, s.got[i]);
    }
  }

  // --- which events fail a fetch --------------------------------------------------------------------

  /** Whether the last read of worker w failed, by the events. */
  predicate ReadFailed(es: seq<Event>, w: nat) {
    |es| > 0 &&
    if es[|es| - 1].ReadAt? && es[|es| - 1].w == w then es[|es| - 1].failed else ReadFailed(es[..|es| - 1], w)
  }

  /** Event k is a failed write, or counts what a failed read still gave. */
  predicate FailsAt(es: seq<Event>, k: nat)
    requires k < |es|
  {
    es[k].WriteFails? || (es[k].Count? && ReadFailed(es[..k], es[k].w))
  }

  predicate FlagIs(w: Worker, failed: bool) {
    w.Writing? || w.Counting? ==> w.failed == failed
  }

  lemma {:induction false} ReadFailedNext(es: seq<Event>, e: Event, w: nat)
    ensures ReadFailed(es + [e], w) == if e.ReadAt? && e.w == w then e.failed else ReadFailed(es, w)
  {
    assert (es + [e])[..|es|] == es;
  }

  lemma {:induction false} StepFlags(j: Job, s: State, e: Event, es: seq<Event>)
    requires Enabled(j, s, e) && forall w | w in s.workers :: FlagIs(s.workers[w], ReadFailed(es, w))
    ensures forall w | w in After(j, s, e).workers :: FlagIs(After(j, s, e).workers[w], ReadFailed(es + [e], w))
    ensures After(j, s, e).rerr == (s.rerr || e.WriteFails? || (e.Count? && ReadFailed(es, e.w)))
  {
    var s' := After(j, s, e);
    forall w | w in s'.workers ensures FlagIs(s'.workers[w], ReadFailed(es + [e], w)) {
      ReadFailedNext(es, e, w);
    }
  }

  lemma {:induction false} RunFlags(j: Job, ids: set<nat>, ss: seq<State>, es: seq<Event>, k: nat)
    requires IsRun(j, ids, ss, es) && k <= |es|
    ensures forall w | w in ss[k].workers :: FlagIs(ss[k].workers[w], ReadFailed(es[..k], w))
    ensures ss[k].rerr <==> exists i: nat :: i < k && FailsAt(es, i)
  {
    if k > 0 {
      RunFlags(j, ids, ss, es, k - 1);
      assert StepAt(j, ss, es, k - 1);
      StepFlags(j, ss[k - 1], es[k - 1], es[..k - 1]);
      assert es[..k - 1] + [es[k - 1]] == es[..k];
      assert ss[k].rerr == (ss[k - 1].rerr || FailsAt(es, k - 1));
    }
  }

  /**
   * When the last worker has exited, the file is committed if and only if no write failed, no
   * read counted before had failed, and every offset was written.
   */
  lemma CommittedIff(j: Job, ids: set<nat>, ss: seq<State>, es: seq<Event>, k: nat)
    requires IsRun(j, ids, ss, es) && k < |es| && es[k].Finish?
    ensures ss[k + 1].outcome.Committed? <==>
              (forall i: nat | i < k :: !FailsAt(es, i)) && Complete(j, ss[k])
  {
    CommitTestIsExact(j, ids, ss, es, k);
    RunFlags(j, ids, ss, es, k);
  }

  // --- every fetch ends, and a clean one commits ----------------------------------------------------

  /** Nothing goes wrong in this event: no failure, no timeout, and a read gives all there is. */
  predicate Clean(j: Job, s: State, e: Event)
    requires Enabled(j, s, e)
  {
    match e
    case ReadAt(w, n, failed) => !failed && n == Available(j, s.workers[w].range)
    case WriteFails(_, _) => false
    case GiveUp => false
    case _ => true
  }

  predicate AllRead(j: Job, w: Worker) {
    w.Writing? || w.Counting? ==> !w.failed && w.n == Available(j, w.range)
  }

  ghost predicate AllClean(j: Job, s: State) {
    && !s.rerr && !s.outcome.Aborted?
    && (forall w | w in s.workers :: AllRead(j, s.workers[w]))
    && (forall k | k in s.got :: s.got[k] == Available(j, k))
  }

  ghost predicate HasWorkers(s: State) {
    exists w :: w in s.workers
  }

  ghost predicate CleanAt(j: Job, ss: seq<State>, es: seq<Event>, k: nat) {
    StepAt(j, ss, es, k) && Clean(j, ss[k], es[k])
  }

  lemma {:induction false} AvailableIsLength(j: Job, k: nat)
    requires j.size <= |j.src|
    ensures Available(j, k) == Length(j, k)
  {
  }

  /** Everything was counted once all workers have exited. */
  lemma {:induction false} FinishIsFull(j: Job, s: State)
    requires Inv(j, s) && AllClean(j, s) && j.size <= |j.src| && HasWorkers(s)
    requires forall w | w in s.workers :: s.workers[w].Exited?
    ensures s.done == j.size
  {
    assert Start(j, s.next) >= j.size;
    forall i: nat | i < s.next ensures i in s.got && s.got[i] == Length(j, i) {
      assert i in s.got || HeldBySome(s, i);
      AvailableIsLength(j, i);
    }
    FullSum(j, s.got, s.next);
  }

  lemma {:induction false} StepClean(j: Job, s: State, e: Event)
    requires Inv(j, s) && AllClean(j, s) && j.size <= |j.src| && HasWorkers(s)
    requires Enabled(j, s, e) && Clean(j, s, e)
    ensures AllClean(j, After(j, s, e)) && HasWorkers(After(j, s, e))
    ensures e.Finish? ==> After(j, s, e).outcome == Committed(j.src[..j.size])
  {
    WorkersStay(j, s, e);
    if e.Finish? {
      FinishIsFull(j, s);
      CountedAll(j, s);
    }
  }

  lemma {:induction false} WorkersStay(j: Job, s: State, e: Event)
    requires Enabled(j, s, e) && HasWorkers(s)
    ensures HasWorkers(After(j, s, e))
  {
    var w :| w in s.workers;
    assert w in After(j, s, e).workers;
  }

  lemma {:induction false} RunClean(j: Job, ids: set<nat>, ss: seq<State>, es: seq<Event>, k: nat)
    requires IsRun(j, ids, ss, es) && ids != {} && j.size <= |j.src| && k <= |es|
    requires forall i: nat | i < k :: CleanAt(j, ss, es, i)
    ensures AllClean(j, ss[k]) && HasWorkers(ss[k])
  {
    if k == 0 {
      InitialClean(j, ids);
    } else {
      RunInv(j, ids, ss, es, k - 1);
      RunClean(j, ids, ss, es, k - 1);
      assert CleanAt(j, ss, es, k - 1);
      StepClean(j, ss[k - 1], es[k - 1]);
    }
  }

  lemma {:induction false} InitialClean(j: Job, ids: set<nat>)
    requires ids != {}
    ensures AllClean(j, Initial(j, ids)) && HasWorkers(Initial(j, ids))
  {
    var w :| w in ids;
    assert w in Initial(j, ids).workers;
  }

  /** What is still to come of a worker: at most this many of its steps on the range it holds. */
  function Weight(w: Worker): (n: nat)
  {
    match w
    case Idle => 1
    case Reading(_) => 4
    case Writing(_, _, _) => 3
    case Counting(_, _, _) => 2
    case Exited => 0
  }

  /** Weights of the workers numbered below m. */
  function Weights(workers: map<nat, Worker>, m: nat): (n: nat)
  {
    if m == 0 then 0 else Weights(workers, m - 1) + if m - 1 in workers then Weight(workers[m - 1]) else 0
  }

  lemma {:induction false} WeightsUpdate(workers: map<nat, Worker>, w: nat, wk: Worker, m: nat)
    requires w in workers
    ensures Weights(workers[w := wk], m) == Weights(workers, m) + if w < m then Weight(wk) - Weight(workers[w]) else 0
  {
    if m > 0 {
      WeightsUpdate(workers, w, wk, m - 1);
    }
  }

  lemma {:induction false} InitialWeights(ids: set<nat>, m: nat)
    ensures Weights(map w | w in ids :: Idle, m) <= m
  {
    if m > 0 {
      InitialWeights(ids, m - 1);
    }
  }

  function Remaining(s: State, ranges: nat, m: nat): (n: int)
  {
    4 * (ranges - s.next) + Weights(s.workers, m) + if s.outcome.Running? then 1 else 0
  }

  lemma {:induction false} StepEnds(j: Job, s: State, e: Event, ranges: nat, m: nat)
    requires Enabled(j, s, e) && Start(j, ranges) >= j.size && s.next <= ranges
    requires forall w | w in s.workers :: w < m
    ensures After(j, s, e).next <= ranges && forall w | w in After(j, s, e).workers :: w < m
    ensures Remaining(After(j, s, e), ranges, m) < Remaining(s, ranges, m)
  {
    var s' := After(j, s, e);
    if !e.Finish? && !e.GiveUp? {
      WeightsUpdate(s.workers, e.w, s'.workers[e.w], m);
    }
    if e.TakeRange? && s.next >= ranges {
      StartMonotone(j, ranges, s.next);
    }
  }

  lemma {:induction false} StartMonotone(j: Job, i: nat, k: nat)
    requires i <= k
    ensures Start(j, i) <= Start(j, k)
  {
    if i < k {
      StartGap(j, i, k);
    }
  }

  lemma {:induction false} RunEnds(j: Job, ids: set<nat>, ss: seq<State>, es: seq<Event>, ranges: nat, m: nat, k: nat)
    requires IsRun(j, ids, ss, es) && k <= |es| && Start(j, ranges) >= j.size && forall w | w in ids :: w < m
    ensures ss[k].next <= ranges && forall w | w in ss[k].workers :: w < m
    ensures Remaining(ss[k], ranges, m) + k <= 4 * ranges + m + 1
  {
    if k == 0 {
      InitialWeights(ids, m);
    } else {
      RunEnds(j, ids, ss, es, ranges, m, k - 1);
      assert StepAt(j, ss, es, k - 1);
      StepEnds(j, ss[k - 1], es[k - 1], ranges, m);
    }
  }

  /** While the fetch is running, some event without failure is possible. */
  lemma CanStep(j: Job, s: State) returns (e: Event)
    requires Inv(j, s) && s.outcome.Running?
    ensures Enabled(j, s, e) && Clean(j, s, e)
  {
    if w :| w in s.workers && !s.workers[w].Exited? {
      match s.workers[w]
      case Idle => e := if Start(j, s.next) < j.size then TakeRange(w) else WorkerExits(w);
      case Reading(k) => e := ReadAt(w, Available(j, k), false);
      case Writing(_, _, _) => e := WriteAt(w);
      case Counting(_, _, _) => e := Count(w);
    } else {
      e := Finish;
    }
  }

  /**
   * Every fetch ends, and a clean one commits: with ranges that cover the file and workers
   * numbered below m, no run has more than 4 * ranges + m + 1 steps. If the source has all the
   * bytes it reported and nothing has gone wrong, either the fetch is committed with exactly
   * those bytes or another such step is possible.
   */
  lemma {:induction false} CleanFetchCommits(j: Job, ids: set<nat>, ss: seq<State>, es: seq<Event>, ranges: nat, m: nat)
    requires IsRun(j, ids, ss, es) && Start(j, ranges) >= j.size && forall w | w in ids :: w < m
    ensures |es| <= 4 * ranges + m + 1
    ensures ids != {} && j.size <= |j.src| && (forall i: nat | i < |es| :: CleanAt(j, ss, es, i)) ==>
              || ss[|es|].outcome == Committed(j.src[..j.size])
              || (ss[|es|].outcome.Running? && exists e :: Enabled(j, ss[|es|], e) && Clean(j, ss[|es|], e))
  {
    RunEnds(j, ids, ss, es, ranges, m, |es|);
    if ids != {} && j.size <= |j.src| && forall i: nat | i < |es| :: CleanAt(j, ss, es, i) {
      RunInv(j, ids, ss, es, |es|);
      RunClean(j, ids, ss, es, |es|);
      if ss[|es|].outcome.Running? {
        var e := CanStep(j, ss[|es|]);
      }
    }
  }
}
