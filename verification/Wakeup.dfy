/**
 * Blocking readers and shutdown of a tunnel (kalay/tunnelconn.go), as interleaved atomic steps.
 * A critical section is one step, except that chanConn.Read tests the closed channel and then
 * waits while holding vmu: there another thread can close the tunnel in between. Waiting threads
 * are the ones inside Cond.Wait; a broadcast makes them runnable, and any runnable reader may
 * take its next step at any time.
 */
module Wakeup {
  import opened Bytes

  type Tid = nat

  datatype Err = TunnelClosed | Failure(what: string)

  /** Where the pump goroutine is: its loop, inside fail, or in the two halves of its deferred exit. */
  datatype PumpPc = Looping | Failing | ExitR | ExitV | Exited

  datatype State = State(
    closed: bool,
    rerr: Option<Err>,
    rbuf: seq<byte>,
    rwaiting: set<Tid>,                // inside rcond.Wait
    chans: map<byte, seq<byte>>,
    vholder: Option<(Tid, byte)>,      // holds vmu, found its channel empty and the tunnel open
    vwaiting: map<Tid, byte>,          // inside vcond.Wait
    pump: PumpPc,
    closersR: set<Tid>,                // Close calls that have closed the channel, rcond still to do
    closersV: set<Tid>,                // Close calls with only vcond still to do
    routed: seq<byte>,                 // history: bytes ever routed to rbuf
    read: seq<byte>,                   // history: bytes ever returned by Read
    crouted: map<byte, seq<byte>>,     // history: bytes routed to each open channel since it was opened
    cread: map<byte, seq<byte>>,       // history: and those returned by its Read
    reported: seq<Err>)                // history: errors ever returned by Read

  const INITIAL := State(false, None, [], {}, map[], None, map[], Looping, {}, {}, [], [], map[], map[], [])

  datatype Event =
    | ReadData(t: Tid, n: nat)                      // Tunnel.Read returns n bytes
    | ReadError(t: Tid)
    | ReadWait(t: Tid)
    | ChanData(t: Tid, idx: byte, n: nat)           // chanConn.Read returns n bytes
    | ChanClosed(t: Tid, idx: byte)                 // chanConn.Read returns an error
    | ChanCheck(t: Tid, idx: byte)                  // nothing to read and not closed
    | ChanWait                                      // the thread that checked starts waiting
    | OpenChan(idx: byte)
    | DropChan(idx: byte)
    | RouteCtrl(data: seq<byte>)
    | RouteChan(idx: byte, data: seq<byte>)
    | PumpSeesClosed
    | PumpFails(what: string)                       // fail records the error
    | PumpCloses                                    // and then closes the channel
    | PumpExitsR
    | PumpExitsV
    | CloseBegins(t: Tid)
    | CloseR(t: Tid)
    | CloseV(t: Tid)

  predicate Runnable(s: State, t: Tid) {
    t !in s.rwaiting && t !in s.vwaiting && (s.vholder.Some? ==> s.vholder.value.0 != t)
  }

  predicate Enabled(s: State, e: Event) {
    match e
    case ReadData(t, n) => Runnable(s, t) && s.rbuf != [] && n <= |s.rbuf|
    case ReadError(t) => Runnable(s, t) && s.rbuf == [] && s.rerr.Some?
    case ReadWait(t) => Runnable(s, t) && s.rbuf == [] && s.rerr.None?
    case ChanData(t, idx, n) =>
      Runnable(s, t) && s.vholder.None? && idx in s.chans && s.chans[idx] != [] && n <= |s.chans[idx]|
    case ChanClosed(t, idx) =>
      Runnable(s, t) && s.vholder.None? && (idx !in s.chans || (s.chans[idx] == [] && s.closed))
    case ChanCheck(t, idx) => Runnable(s, t) && s.vholder.None? && idx in s.chans && s.chans[idx] == [] && !s.closed
    case ChanWait => s.vholder.Some?
    case OpenChan(_) => s.vholder.None?
    case DropChan(_) => s.vholder.None?
    case RouteCtrl(_) => s.pump.Looping?
    case RouteChan(_, _) => s.pump.Looping? && s.vholder.None?
    case PumpSeesClosed => s.pump.Looping? && s.closed
    case PumpFails(_) => s.pump.Looping?
    case PumpCloses => s.pump.Failing?
    case PumpExitsR => s.pump.ExitR?
    case PumpExitsV => s.pump.ExitV? && s.vholder.None?
    case CloseBegins(t) => Runnable(s, t) && t !in s.closersR && t !in s.closersV
    case CloseR(t) => t in s.closersR
    case CloseV(t) => t in s.closersV && s.vholder.None?
  }

  /** rerr is set only by the first to set it. */
  function SetError(s: State, e: Err): (s': State)
  {
    if s.rerr.None? then s.(rerr := Some(e)) else s
  }

  /** The history with more at its end. */
  function Grown(h: map<byte, seq<byte>>, idx: byte, more: seq<byte>): (h': map<byte, seq<byte>>)
  {
    h[idx := (if idx in h then h[idx] else []) + more]
  }

  function After(s: State, e: Event): (s': State)
    requires Enabled(s, e)
  {
    match e
    case ReadData(_, n) => s.(rbuf := s.rbuf[n..], read := s.read + s.rbuf[..n])
    case ReadError(_) => s.(reported := s.reported + [s.rerr.value])
    case ReadWait(t) => s.(rwaiting := s.rwaiting + {t})
    case ChanData(_, idx, n) =>
      s.(chans := s.chans[idx := s.chans[idx][n..]], cread := Grown(s.cread, idx, s.chans[idx][..n]))
    case ChanClosed(_, _) => s
    case ChanCheck(t, idx) => s.(vholder := Some((t, idx)))
    case ChanWait => s.(vholder := None, vwaiting := s.vwaiting[s.vholder.value.0 := s.vholder.value.1])
    case OpenChan(idx) => s.(chans := s.chans[idx := []], crouted := s.crouted[idx := []], cread := s.cread[idx := []])
    case DropChan(idx) => s.(chans := s.chans - {idx}, vwaiting := map[])
    case RouteCtrl(d) => s.(rbuf := s.rbuf + d, routed := s.routed + d, rwaiting := {})
    case RouteChan(idx, d) =>
      if idx in s.chans then
        s.(chans := s.chans[idx := s.chans[idx] + d], crouted := Grown(s.crouted, idx, d), vwaiting := map[])
      else s
    case PumpSeesClosed => s.(pump := ExitR)
    case PumpFails(what) => SetError(s, Failure(what)).(pump := Failing)
    case PumpCloses => s.(closed := true, pump := ExitR)
    case PumpExitsR => SetError(s, TunnelClosed).(rwaiting := {}, pump := ExitV)
    case PumpExitsV => s.(vwaiting := map[], pump := Exited)
    case CloseBegins(t) => s.(closed := true, closersR := s.closersR + {t})
    case CloseR(t) =>
      SetError(s, TunnelClosed).(rwaiting := {}, closersR := s.closersR - {t}, closersV := s.closersV + {t})
    case CloseV(t) => s.(vwaiting := map[], closersV := s.closersV - {t})
  }

  // --- what every step keeps --------------------------------------------------------------------

  /** A broadcast on rcond is still to come: from a Close, or from a pump that failed or is leaving. */
  predicate OwesR(s: State) {
    s.pump.Failing? || s.pump.ExitR? || s.closersR != {}
  }

  predicate OwesV(s: State) {
    s.pump.Failing? || s.pump.ExitR? || s.pump.ExitV? || s.closersR != {} || s.closersV != {}
  }

  ghost predicate TunnelReaders(s: State) {
    && (s.rwaiting != {} ==> s.rbuf == [])                   // no data while someone waits for it
    && (s.rerr.Some? && s.rwaiting != {} ==> OwesR(s))       // no error either, but one being announced
    && (s.closed ==> s.rerr.Some? || s.closersR != {})       // being closed is on its way to being an error
    && ((s.pump.Failing? || s.pump.ExitV? || s.pump.Exited?) ==> s.rerr.Some?)
    && ((s.pump.ExitR? || s.pump.ExitV? || s.pump.Exited?) ==> s.closed)
    && (s.closersR != {} || s.closersV != {} ==> s.closed)
    && s.read + s.rbuf == s.routed
    && (forall k | 0 <= k < |s.reported| :: s.rerr == Some(s.reported[k]))
    && (s.reported != [] ==> s.rerr.Some?)
  }

  /** Channel readers that wait, or are about to, wait on an existing, empty channel. */
  ghost predicate WaitForData(s: State) {
    && (forall t | t in s.vwaiting :: s.vwaiting[t] in s.chans && s.chans[s.vwaiting[t]] == [])
    && (s.vholder.Some? ==> s.vholder.value.1 in s.chans && s.chans[s.vholder.value.1] == [])
  }

  ghost predicate ChannelReaders(s: State) {
    WaitForData(s) && (s.closed && (s.vholder.Some? || s.vwaiting != map[]) ==> OwesV(s))
  }

  /** What each open channel was routed is what its reader got, and then what is buffered. */
  ghost predicate ChannelBytes(s: State) {
    forall idx | idx in s.chans :: idx in s.cread && idx in s.crouted && s.cread[idx] + s.chans[idx] == s.crouted[idx]
  }

  ghost predicate Inv(s: State) {
    TunnelReaders(s) && ChannelReaders(s) && ChannelBytes(s)
  }

  lemma StepChannelBytes(s: State, e: Event)
    requires ChannelBytes(s) && Enabled(s, e)
    ensures ChannelBytes(After(s, e))
  {
    match e
    case ChanData(_, idx, n) =>
      TakeDrop(s.chans[idx], n);
      AppendAssoc(s.cread[idx], s.chans[idx][..n], s.chans[idx][n..]);
    case RouteChan(idx, d) =>
      if idx in s.chans {
        AppendAssoc(s.cread[idx], s.chans[idx], d);
      }
    case _ =>
  }

  lemma StepInv(s: State, e: Event)
    requires Inv(s) && Enabled(s, e)
    ensures Inv(After(s, e))
  {
    StepTunnelReaders(s, e);
    StepChannelReaders(s, e);
    StepChannelBytes(s, e);
  }

  lemma StepTunnelReaders(s: State, e: Event)
    requires TunnelReaders(s) && Enabled(s, e)
    ensures TunnelReaders(After(s, e))
  {
    match e
    case ReadData(_, n) =>
      AppendAssoc(s.read, s.rbuf[..n], s.rbuf[n..]);
      assert s.rbuf[..n] + s.rbuf[n..] == s.rbuf;
    case RouteCtrl(d) =>
      AppendAssoc(s.read, s.rbuf, d);
    case CloseBegins(t) =>
      assert t in After(s, e).closersR;
    case _ =>
  }

  lemma StepChannelReaders(s: State, e: Event)
    requires TunnelReaders(s) && ChannelReaders(s) && Enabled(s, e)
    ensures ChannelReaders(After(s, e))
  {
    StepWaitForData(s, e);
    StepOwed(s, e);
  }

  lemma StepWaitForData(s: State, e: Event)
    requires WaitForData(s) && Enabled(s, e)
    ensures WaitForData(After(s, e))
  {
  }

  lemma StepOwed(s: State, e: Event)
    requires s.closed && (s.vholder.Some? || s.vwaiting != map[]) ==> OwesV(s)
    requires TunnelReaders(s) && Enabled(s, e)
    ensures var s' := After(s, e); s'.closed && (s'.vholder.Some? || s'.vwaiting != map[]) ==> OwesV(s')
  {
    match e
    case CloseBegins(t) =>
      assert t in After(s, e).closersR;
    case CloseR(t) =>
      assert t in After(s, e).closersV;
    case _ =>
  }

  // --- whole runs ---------------------------------------------------------------------------------

  ghost predicate StepAt(ss: seq<State>, es: seq<Event>, k: nat) {
    k < |es| && |ss| == |es| + 1 && Enabled(ss[k], es[k]) && ss[k + 1] == After(ss[k], es[k])
  }

  ghost predicate IsRun(ss: seq<State>, es: seq<Event>) {
    |ss| == |es| + 1 && ss[0] == INITIAL && forall k: nat | k < |es| :: StepAt(ss, es, k)
  }

  lemma {:induction false} RunInv(ss: seq<State>, es: seq<Event>, k: nat)
    requires IsRun(ss, es) && k <= |es|
    ensures Inv(ss[k])
  {
    if k > 0 {
      RunInv(ss, es, k - 1);
      assert StepAt(ss, es, k - 1);
      StepInv(ss[k - 1], es[k - 1]);
    }
  }

  /**
   * No lost wakeup, in any interleaving: a tunnel reader still waiting has nothing to read, and
   * if the tunnel was closed or an error is set then a broadcast on rcond is still owed; a
   * channel reader still waiting waits on an existing, empty channel, and if the tunnel was
   * closed then a broadcast on vcond is still owed.
   */
  lemma NoLostWakeup(ss: seq<State>, es: seq<Event>, k: nat)
    requires IsRun(ss, es) && k <= |es|
    ensures var s := ss[k];
            && (s.rwaiting != {} ==> s.rbuf == [] && (s.closed || s.rerr.Some? ==> OwesR(s)))
            && (forall t | t in s.vwaiting :: s.vwaiting[t] in s.chans && s.chans[s.vwaiting[t]] == [])
            && (s.vwaiting != map[] && s.closed ==> OwesV(s))
  {
    RunInv(ss, es, k);
  }

  /** The terminal error never changes once set, and it is the only error Read ever reports. */
  lemma {:induction false} OneTerminalError(ss: seq<State>, es: seq<Event>, i: nat, j: nat)
    requires IsRun(ss, es) && i <= j <= |es| && ss[i].rerr.Some?
    ensures ss[j].rerr == ss[i].rerr
    ensures forall k | 0 <= k < |ss[j].reported| :: Some(ss[j].reported[k]) == ss[i].rerr
  {
    RunInv(ss, es, j);
    if i < j {
      OneTerminalError(ss, es, i, j - 1);
      assert StepAt(ss, es, j - 1);
      ErrorKept(ss[j - 1], es[j - 1]);
    }
  }

  lemma ErrorKept(s: State, e: Event)
    requires Enabled(s, e) && s.rerr.Some?
    ensures After(s, e).rerr == s.rerr
  {
  }

  /** Read hands out exactly the routed bytes in order, and reports the error only when none are left. */
  lemma ReadDrainsFirst(ss: seq<State>, es: seq<Event>, k: nat)
    requires IsRun(ss, es) && k < |es|
    ensures ss[k].read <= ss[k].routed
    ensures es[k].ReadError? ==> ss[k].read == ss[k].routed
    ensures es[k].ReadData? ==> ss[k + 1].read <= ss[k].routed
  {
    RunInv(ss, es, k);
    assert StepAt(ss, es, k);
    var s := ss[k];
    if es[k].ReadData? {
      assert s.rbuf == s.rbuf[..es[k].n] + s.rbuf[es[k].n..];
      AppendAssoc(s.read, s.rbuf[..es[k].n], s.rbuf[es[k].n..]);
    } else if es[k].ReadError? {
      assert s.read + [] == s.read;
    }
  }

  /** The bytes routed to a channel since the last time it was opened, told by the events alone. */
  ghost function RoutedTo(ss: seq<State>, es: seq<Event>, idx: byte, k: nat): (bytes: seq<byte>)
    requires k <= |es| && |ss| == |es| + 1
  {
    if k == 0 then [] else
    match es[k - 1]
    case OpenChan(i) => if i == idx then [] else RoutedTo(ss, es, idx, k - 1)
    case RouteChan(i, d) =>
      if i == idx && idx in ss[k - 1].chans then RoutedTo(ss, es, idx, k - 1) + d else RoutedTo(ss, es, idx, k - 1)
    case _ => RoutedTo(ss, es, idx, k - 1)
  }

  /** The bytes its reader was handed since then. */
  ghost function HandedOut(ss: seq<State>, es: seq<Event>, idx: byte, k: nat): (bytes: seq<byte>)
    requires k <= |es| && IsRun(ss, es)
  {
    if k == 0 then [] else
    assert StepAt(ss, es, k - 1);
    match es[k - 1]
    case OpenChan(i) => if i == idx then [] else HandedOut(ss, es, idx, k - 1)
    case ChanData(_, i, n) =>
      if i == idx then HandedOut(ss, es, idx, k - 1) + ss[k - 1].chans[idx][..n] else HandedOut(ss, es, idx, k - 1)
    case _ => HandedOut(ss, es, idx, k - 1)
  }

  lemma {:induction false} ChannelHistory(ss: seq<State>, es: seq<Event>, idx: byte, k: nat)
    requires IsRun(ss, es) && k <= |es| && idx in ss[k].chans
    ensures idx in ss[k].crouted && ss[k].crouted[idx] == RoutedTo(ss, es, idx, k)
    ensures idx in ss[k].cread && ss[k].cread[idx] == HandedOut(ss, es, idx, k)
  {
    assert k > 0;
    assert StepAt(ss, es, k - 1);
    RunInv(ss, es, k - 1);
    if idx in ss[k - 1].chans {
      ChannelHistory(ss, es, idx, k - 1);
    }
  }

  /**
   * Read of an extra channel hands out the bytes routed to it since it was opened, in order and
   * once each, and reports that the tunnel is closed only when all of them were handed out.
   */
  lemma {:induction false} ChannelReadsInOrder(ss: seq<State>, es: seq<Event>, idx: byte, k: nat)
    requires IsRun(ss, es) && k <= |es| && idx in ss[k].chans
    ensures HandedOut(ss, es, idx, k) + ss[k].chans[idx] == RoutedTo(ss, es, idx, k)
    ensures k < |es| && es[k].ChanClosed? && es[k].idx == idx ==> HandedOut(ss, es, idx, k) == RoutedTo(ss, es, idx, k)
  {
    RunInv(ss, es, k);
    ChannelHistory(ss, es, idx, k);
    if k < |es| {
      assert StepAt(ss, es, k);
    }
  }

  /** The first error any of the events brings. */
  function FirstError(es: seq<Event>): (e: Option<Err>)
  {
    if es == [] then None else
    var before := FirstError(es[..|es| - 1]);
    if before.Some? then before else
    match es[|es| - 1]
    case PumpFails(what) => Some(Failure(what))
    case PumpExitsR => Some(TunnelClosed)
    case CloseR(_) => Some(TunnelClosed)
    case _ => None
  }

  /** The terminal error is the first one: that of the first failure, or that the tunnel was closed. */
  lemma {:induction false} ErrorIsFirst(ss: seq<State>, es: seq<Event>, k: nat)
    requires IsRun(ss, es) && k <= |es|
    ensures ss[k].rerr == FirstError(es[..k])
  {
    if k > 0 {
      ErrorIsFirst(ss, es, k - 1);
      assert StepAt(ss, es, k - 1);
      assert es[..k][..k - 1] == es[..k - 1];
      ErrorStep(ss[k - 1], es[k - 1]);
    }
  }

  lemma ErrorStep(s: State, e: Event)
    requires Enabled(s, e)
    ensures After(s, e).rerr ==
            if s.rerr.Some? then s.rerr
            else match e
                 case PumpFails(what) => Some(Failure(what))
                 case PumpExitsR => Some(TunnelClosed)
                 case CloseR(_) => Some(TunnelClosed)
                 case _ => None
  {
  }

  // --- shutdown completes --------------------------------------------------------------------------

  /** Shutdown is over: nobody waits, nobody can start to wait, and the error is set. */
  ghost predicate Quiescent(s: State) {
    && s.pump.Exited? && s.closersR == {} && s.closersV == {} && s.vholder.None?
  }

  lemma QuiescentMeansDone(s: State, t: Tid, idx: byte)
    requires Inv(s) && Quiescent(s)
    ensures s.closed && s.rerr.Some? && s.rwaiting == {} && s.vwaiting == map[]
    ensures !Enabled(s, ReadWait(t)) && !Enabled(s, ChanCheck(t, idx))
  {
  }

  /** Shutdown steps still to take once the tunnel is closed. */
  function Remaining(s: State): (n: nat)
  {
    (match s.pump case Looping => 3 case Failing => 3 case ExitR => 2 case ExitV => 1 case Exited => 0)
    + 2 * |s.closersR| + |s.closersV| + (if s.vholder.Some? then 1 else 0)
  }

  predicate IsShutdownStep(e: Event) {
    e.ChanWait? || e.PumpSeesClosed? || e.PumpCloses? || e.PumpExitsR? || e.PumpExitsV? || e.CloseR? || e.CloseV?
  }

  /** Closed but not quiescent: some owed step can be taken now, and it brings the end closer. */
  lemma ShutdownCanProceed(s: State) returns (e: Event)
    requires Inv(s) && s.closed && !Quiescent(s)
    ensures Enabled(s, e) && IsShutdownStep(e) && Remaining(After(s, e)) < Remaining(s) && After(s, e).closed
  {
    e := OwedStep(s);
    ShutdownStepCloser(s, e);
  }

  lemma OwedStep(s: State) returns (e: Event)
    requires Inv(s) && s.closed && !Quiescent(s)
    ensures Enabled(s, e) && IsShutdownStep(e)
  {
    if s.vholder.Some? {
      e := ChanWait;
    } else if s.closersR != {} {
      var t :| t in s.closersR;
      e := CloseR(t);
    } else if s.closersV != {} {
      var t :| t in s.closersV;
      e := CloseV(t);
    } else {
      e := match s.pump
        case Looping => PumpSeesClosed
        case Failing => PumpCloses
        case ExitR => PumpExitsR
        case _ => PumpExitsV;
    }
  }

  /** In a closed tunnel every shutdown step brings the end closer. */
  lemma ShutdownStepCloser(s: State, e: Event)
    requires s.closed && Enabled(s, e) && IsShutdownStep(e)
    ensures After(s, e).closed && Remaining(After(s, e)) < Remaining(s)
  {
    if e.CloseR? {
      CloserMoves(s, e.t);
    } else {
      OtherOwedStep(s, e);
    }
  }

  lemma OtherOwedStep(s: State, e: Event)
    requires s.closed && Enabled(s, e) && IsShutdownStep(e) && !e.CloseR?
    ensures After(s, e).closed && Remaining(After(s, e)) < Remaining(s)
  {
  }

  /** No other step but a new Close puts it further off. */
  lemma OtherStepNoFurther(s: State, e: Event)
    requires s.closed && Enabled(s, e) && !IsShutdownStep(e) && !e.CloseBegins?
    ensures After(s, e).closed && Remaining(After(s, e)) <= Remaining(s)
  {
  }

  /** Number of shutdown steps among the first k events. */
  function ShutdownSteps(es: seq<Event>, k: nat): (n: nat)
    requires k <= |es|
  {
    if k == 0 then 0 else ShutdownSteps(es, k - 1) + if IsShutdownStep(es[k - 1]) then 1 else 0
  }

  /**
   * Every schedule ends: from any closed state a run without new Close calls, whatever else
   * interleaves, takes at most Remaining shutdown steps, and when none is left to take the
   * shutdown is over and every reader was woken.
   */
  lemma {:induction false} EveryScheduleEnds(ss: seq<State>, es: seq<Event>, k: nat)
    requires |ss| == |es| + 1 && (forall i: nat | i < |es| :: StepAt(ss, es, i)) && k <= |es|
    requires Inv(ss[0]) && ss[0].closed && forall i | 0 <= i < |es| :: !es[i].CloseBegins?
    ensures Inv(ss[k]) && ss[k].closed
    ensures ShutdownSteps(es, k) + Remaining(ss[k]) <= Remaining(ss[0])
    ensures (forall e | IsShutdownStep(e) :: !Enabled(ss[k], e)) ==> Quiescent(ss[k])
  {
    if k > 0 {
      EveryScheduleEnds(ss, es, k - 1);
      assert StepAt(ss, es, k - 1);
      StepInv(ss[k - 1], es[k - 1]);
      if IsShutdownStep(es[k - 1]) {
        ShutdownStepCloser(ss[k - 1], es[k - 1]);
      } else {
        OtherStepNoFurther(ss[k - 1], es[k - 1]);
      }
    }
    if !Quiescent(ss[k]) {
      var e := ShutdownCanProceed(ss[k]);
    }
  }

  lemma CloserMoves(s: State, t: Tid)
    requires t in s.closersR
    ensures |s.closersR - {t}| == |s.closersR| - 1
    ensures |s.closersV + {t}| <= |s.closersV| + 1
  {
    if t in s.closersV {
      assert s.closersV + {t} == s.closersV;
    }
  }

  /** From any reachable closed state, at most Remaining more steps of the threads involved end the shutdown. */
  lemma {:induction false} ShutdownCompletes(s: State) returns (ss: seq<State>, es: seq<Event>)
    requires Inv(s) && s.closed
    ensures |ss| == |es| + 1 && ss[0] == s && forall k: nat | k < |es| :: StepAt(ss, es, k) && IsShutdownStep(es[k])
    ensures |es| <= Remaining(s) && Inv(ss[|es|]) && Quiescent(ss[|es|])
    decreases Remaining(s)
  {
    if Quiescent(s) {
      ss, es := [s], [];
    } else {
      var e := ShutdownCanProceed(s);
      StepInv(s, e);
      var ss', es' := ShutdownCompletes(After(s, e));
      ss, es := [s] + ss', [e] + es';
      forall k: nat | k < |es| ensures StepAt(ss, es, k) && IsShutdownStep(es[k]) {
        if k > 0 {
          assert StepAt(ss', es', k - 1) && IsShutdownStep(es'[k - 1]);
        }
      }
    }
  }
}
