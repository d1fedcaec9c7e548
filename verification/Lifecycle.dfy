/**
 The life of the process (internal/server/server.go, internal/server/signals.go
 and the tail of cmd/static-web/main.go): serve loops, the goroutine that closes
 the error channel, the error drainer, the signal handler and the main goroutine,
 interleaved in any way.
 */
module Lifecycle {
  import opened Wrappers

  /** The capacity of the error channel. */
  const ERR_CAPACITY := 2

  /** An error sent by a serve loop, with the value of `stopping` it read. */
  datatype Report = Report(loop: nat, stoppingSeen: bool)

  /** A serve loop: serving, returned with an error, `stopping` read, sending, about to leave, gone. */
  datatype Loop = Serving | Judging | Read(seen: bool) | Sending(report: Report) | Leaving | Gone

  /** The closing goroutine: waiting for the loops, about to close the channel, done. */
  datatype Closer = InWait | Closing | Done

  /** The drainer: waiting for an error, holding one, about to cancel, finished. */
  datatype Drainer = Receiving | Holding(report: Report) | Cancelling | Finished

  datatype Cause = ByCancel | BySignal

  /** The signal handler: waiting, signalled, shutting the server down, returned. */
  datatype SignalHandler = Waiting | Signalled | ShuttingDown | Returned(cause: Cause)

  /** The main goroutine: blocked in the signal handler, shutting down after an error, gone. */
  datatype Main = Blocked | Failing | Exited(code: nat)

  /** `waiting` is the wait group's counter; `panicked` records a send on, or a close of, a closed channel. */
  datatype Sys = Sys(
    loops: seq<Loop>, waiting: int, closer: Closer, errCh: seq<Report>, closed: bool, closes: nat, panicked: bool,
    stopping: bool, drainer: Drainer, serveErr: Option<Report>, cancelled: bool,
    handler: SignalHandler, terminated: bool, main: Main)

  /** A server with one or two listeners, just started. */
  function Started(tls: bool): Sys {
    var loops := if tls then [Serving, Serving] else [Serving];
    Sys(loops, |loops|, InWait, [], false, 0, false, false, Receiving, None, false, Waiting, false, Blocked)
  }

  datatype Action =
    | ServeReturns(i: nat, failed: bool) | ReadStopping(i: nat) | Branch(i: nat) | Send(i: nat) | Leave(i: nat)
    | PassWait | CloseChannel | Receive | Offer | Cancel | EndOfErrors
    | SeeCancel | Hangup | Terminate | BeginShutdown | FinishShutdown | TakeError | StopAfterError | Exit

  predicate AllGone(loops: seq<Loop>) {
    forall i | 0 <= i < |loops| :: loops[i].Gone?
  }

  /** The state after one step; None when the step is not possible there. */
  function Step(s: Sys, a: Action): Option<Sys> {
    match a
    case ServeReturns(i, failed) =>
      if i < |s.loops| && s.loops[i].Serving? then Some(s.(loops := s.loops[i := if failed then Judging else Leaving]))
      else None
    case ReadStopping(i) =>
      if i < |s.loops| && s.loops[i].Judging? then Some(s.(loops := s.loops[i := Read(s.stopping)])) else None
    case Branch(i) =>
      if i < |s.loops| && s.loops[i].Read? then
        var seen := s.loops[i].seen;
        Some(s.(loops := s.loops[i := if seen then Leaving else Sending(Report(i, seen))]))
      else None
    case Send(i) =>
      if !(i < |s.loops| && s.loops[i].Sending?) then None
      else if s.closed then Some(s.(panicked := true))
      else if |s.errCh| < ERR_CAPACITY then
        Some(s.(loops := s.loops[i := Leaving], errCh := s.errCh + [s.loops[i].report]))
      else None
    case Leave(i) =>
      if i < |s.loops| && s.loops[i].Leaving? then Some(s.(loops := s.loops[i := Gone], waiting := s.waiting - 1))
      else None
    case PassWait =>
      if s.closer.InWait? && s.waiting == 0 then Some(s.(closer := Closing)) else None
    case CloseChannel =>
      if !s.closer.Closing? then None
      else if s.closed then Some(s.(panicked := true))
      else Some(s.(closer := Done, closed := true, closes := s.closes + 1))
    case Receive =>
      if s.drainer.Receiving? && s.errCh != [] then Some(s.(drainer := Holding(s.errCh[0]), errCh := s.errCh[1..]))
      else None
    case Offer =>
      if s.drainer.Holding? then
        Some(s.(drainer := Cancelling, serveErr := if s.serveErr.None? then Some(s.drainer.report) else s.serveErr))
      else None
    case Cancel =>
      if s.drainer.Cancelling? then Some(s.(drainer := Receiving, cancelled := true)) else None
    case EndOfErrors =>
      if s.drainer.Receiving? && s.errCh == [] && s.closed then Some(s.(drainer := Finished)) else None
    case SeeCancel =>
      if s.handler.Waiting? && s.cancelled then Some(s.(handler := Returned(ByCancel))) else None
    case Hangup =>
      if s.handler.Waiting? then Some(s) else None
    case Terminate =>
      if s.handler.Waiting? then Some(s.(handler := Signalled, terminated := true)) else None
    case BeginShutdown =>
      if s.handler.Signalled? then Some(s.(handler := ShuttingDown, stopping := true)) else None
    case FinishShutdown =>
      if s.handler.ShuttingDown? then Some(s.(handler := Returned(BySignal))) else None
    case TakeError =>
      if s.handler.Returned? && s.main.Blocked? && s.serveErr.Some? then Some(s.(serveErr := None, main := Failing))
      else None
    case StopAfterError =>
      if s.main.Failing? then Some(s.(stopping := true)) else None
    case Exit =>
      if s.main.Failing? && s.stopping then Some(s.(main := Exited(1)))
      else if s.handler.Returned? && s.main.Blocked? && s.serveErr.None? then Some(s.(main := Exited(0)))
      else None
  }

  /** Any finite interleaving; impossible steps are skipped. */
  function Exec(s: Sys, actions: seq<Action>): Sys {
    if actions == [] then s
    else
      var before := Exec(s, actions[..|actions| - 1]);
      var after := Step(before, actions[|actions| - 1]);
      if after.Some? then after.value else before
  }

  // ---------------------------------------------------------------------------
  // The invariant
  // ---------------------------------------------------------------------------

  /** What loops are counted for: those that may still send, and those not gone. */
  datatype Kind = MaySend | Present

  function Weight(kind: Kind, l: Loop): nat {
    if l.Gone? || (kind.MaySend? && l.Leaving?) then 0 else 1
  }

  function Count(kind: Kind, loops: seq<Loop>): nat {
    if loops == [] then 0 else Count(kind, loops[..|loops| - 1]) + Weight(kind, loops[|loops| - 1])
  }

  lemma {:induction false} CountUpdate(kind: Kind, loops: seq<Loop>, i: nat, l: Loop)
    requires i < |loops|
    ensures Count(kind, loops[i := l]) == Count(kind, loops) - Weight(kind, loops[i]) + Weight(kind, l)
    ensures Count(kind, loops) >= Weight(kind, loops[i])
  {
    var n := |loops| - 1;
    if i < n {
      CountUpdate(kind, loops[..n], i, l);
      assert loops[i := l][..n] == loops[..n][i := l];
    } else {
      assert loops[i := l][..n] == loops[..n];
    }
  }

  /** A counter of zero means that every loop is gone. */
  lemma NonePresent(loops: seq<Loop>)
    requires Count(Present, loops) == 0
    ensures AllGone(loops)
  {
    forall i | 0 <= i < |loops| ensures loops[i].Gone? {
      CountUpdate(Present, loops, i, Gone);
    }
  }

  predicate Fresh(r: Report) {
    !r.stoppingSeen
  }

  /** The wait group counts the loops, and the error channel has room for those that may send. */
  predicate CountInv(s: Sys) {
    && 1 <= |s.loops| <= ERR_CAPACITY && s.waiting == Count(Present, s.loops)
    && |s.errCh| + Count(MaySend, s.loops) <= |s.loops|
  }

  /** The closer has passed the wait group only when its counter was zero, and closes once. */
  predicate CloserInv(s: Sys) {
    && !s.panicked && (!s.closer.InWait? ==> s.waiting == 0)
    && (s.closed <==> s.closer.Done?) && s.closes == if s.closed then 1 else 0
  }

  /** Every error on its way was read while the server was not stopping. */
  predicate ReportInv(s: Sys) {
    && (forall i | 0 <= i < |s.loops| :: s.loops[i].Sending? ==> Fresh(s.loops[i].report))
    && (forall k | 0 <= k < |s.errCh| :: Fresh(s.errCh[k]))
    && (s.drainer.Holding? ==> Fresh(s.drainer.report)) && (s.serveErr.Some? ==> Fresh(s.serveErr.value))
  }

  /** A cancelled context means that an error is there for the main goroutine, or was taken by it. */
  predicate ExitInv(s: Sys) {
    && (s.cancelled || s.drainer.Cancelling? ==> s.serveErr.Some? || TookError(s.main))
    && (s.handler == Returned(ByCancel) ==> s.cancelled)
    && (s.handler.Signalled? || s.handler.ShuttingDown? || s.handler == Returned(BySignal) ==> s.terminated)
    && (!s.main.Blocked? ==> s.handler.Returned?)
    && (s.main.Exited? && !TookError(s.main) ==> s.main.code == 0 && s.handler == Returned(BySignal))
  }

  /** The main goroutine has found an error: it exits, or has exited, with 1. */
  predicate TookError(m: Main) {
    m.Failing? || m == Exited(1)
  }

  predicate Inv(s: Sys) {
    CountInv(s) && CloserInv(s) && ReportInv(s) && ExitInv(s)
  }

  lemma StartedInv(tls: bool)
    ensures Inv(Started(tls))
  {
    assert [Serving, Serving][..1] == [Serving] && [Serving][..0] == [];
    assert Count(MaySend, [Serving]) == 1 && Count(Present, [Serving]) == 1;
  }

  /** What changing one loop does to the counts. */
  lemma LoopStep(s: Sys, i: nat, l: Loop, sent: nat, left: nat)
    requires CountInv(s) && i < |s.loops|
    requires sent == Weight(MaySend, s.loops[i]) - Weight(MaySend, l)
    requires left == Weight(Present, s.loops[i]) - Weight(Present, l)
    ensures |s.errCh| + sent + Count(MaySend, s.loops[i := l]) <= |s.loops|
    ensures s.waiting - left == Count(Present, s.loops[i := l])
  {
    CountUpdate(MaySend, s.loops, i, l);
    CountUpdate(Present, s.loops, i, l);
  }

  lemma CountServeReturns(s: Sys, i: nat, failed: bool)
    requires CountInv(s) && Step(s, ServeReturns(i, failed)).Some?
    ensures CountInv(Step(s, ServeReturns(i, failed)).value)
  {
    LoopStep(s, i, if failed then Judging else Leaving, if failed then 0 else 1, 0);
  }

  lemma CountReadStopping(s: Sys, i: nat)
    requires CountInv(s) && Step(s, ReadStopping(i)).Some?
    ensures CountInv(Step(s, ReadStopping(i)).value)
  {
    LoopStep(s, i, Read(s.stopping), 0, 0);
  }

  lemma CountBranch(s: Sys, i: nat)
    requires CountInv(s) && Step(s, Branch(i)).Some?
    ensures CountInv(Step(s, Branch(i)).value)
  {
    var seen := s.loops[i].seen;
    LoopStep(s, i, if seen then Leaving else Sending(Report(i, seen)), if seen then 1 else 0, 0);
  }

  lemma CountSend(s: Sys, i: nat)
    requires CountInv(s) && Step(s, Send(i)).Some?
    ensures CountInv(Step(s, Send(i)).value)
  {
    LoopStep(s, i, Leaving, 1, 0);
  }

  lemma CountLeave(s: Sys, i: nat)
    requires CountInv(s) && Step(s, Leave(i)).Some?
    ensures CountInv(Step(s, Leave(i)).value)
  {
    LoopStep(s, i, Gone, 0, 1);
  }

  /** The steps of a serve loop. */
  predicate OfLoop(a: Action) {
    a.ServeReturns? || a.ReadStopping? || a.Branch? || a.Send? || a.Leave?
  }

  lemma CountOther(s: Sys, a: Action)
    requires CountInv(s) && Step(s, a).Some? && !OfLoop(a)
    ensures CountInv(Step(s, a).value)
  {
  }

  lemma CountStep(s: Sys, a: Action)
    requires CountInv(s) && Step(s, a).Some?
    ensures CountInv(Step(s, a).value)
  {
    match a
    case ServeReturns(i, failed) => CountServeReturns(s, i, failed);
    case ReadStopping(i) => CountReadStopping(s, i);
    case Branch(i) => CountBranch(s, i);
    case Send(i) => CountSend(s, i);
    case Leave(i) => CountLeave(s, i);
    case _ => CountOther(s, a);
  }

  /** A loop that is not gone keeps the counter positive, and with it the closer waiting. */
  lemma CloserWaits(s: Sys, i: nat)
    requires CountInv(s) && CloserInv(s) && i < |s.loops| && !s.loops[i].Gone?
    ensures s.waiting > 0 && s.closer.InWait? && !s.closed
  {
    CountUpdate(Present, s.loops, i, Gone);
  }

  lemma CloserStep(s: Sys, a: Action)
    requires CountInv(s) && CloserInv(s) && Step(s, a).Some?
    ensures CloserInv(Step(s, a).value)
  {
    match a
    case Send(i) => CloserWaits(s, i);
    case Leave(i) => CloserWaits(s, i);
    case _ =>
  }

  lemma ReportLoop(s: Sys, a: Action)
    requires ReportInv(s) && Step(s, a).Some? && OfLoop(a)
    ensures ReportInv(Step(s, a).value)
  {
  }

  lemma ReportOther(s: Sys, a: Action)
    requires ReportInv(s) && Step(s, a).Some? && !OfLoop(a)
    ensures ReportInv(Step(s, a).value)
  {
  }

  lemma ReportStep(s: Sys, a: Action)
    requires ReportInv(s) && Step(s, a).Some?
    ensures ReportInv(Step(s, a).value)
  {
    if OfLoop(a) {
      ReportLoop(s, a);
    } else {
      ReportOther(s, a);
    }
  }

  lemma ExitStep(s: Sys, a: Action)
    requires ExitInv(s) && Step(s, a).Some?
    ensures ExitInv(Step(s, a).value)
  {
    match a
    case Exit => ReturnedCause(s.handler);
    case _ =>
  }

  lemma ReturnedCause(h: SignalHandler)
    requires h.Returned?
    ensures h == Returned(ByCancel) || h == Returned(BySignal)
  {
    match h.cause
    case ByCancel =>
    case BySignal =>
  }

  /** Every step of every goroutine keeps the invariant. */
  lemma StepKeepsInv(s: Sys, a: Action)
    requires Inv(s) && Step(s, a).Some?
    ensures Inv(Step(s, a).value)
  {
    CountStep(s, a);
    CloserStep(s, a);
    ReportStep(s, a);
    ExitStep(s, a);
  }

  lemma {:induction false} EveryInterleaving(s: Sys, actions: seq<Action>)
    requires Inv(s)
    ensures Inv(Exec(s, actions))
  {
    if actions != [] {
      EveryInterleaving(s, actions[..|actions| - 1]);
      var before := Exec(s, actions[..|actions| - 1]);
      if Step(before, actions[|actions| - 1]).Some? {
        StepKeepsInv(before, actions[|actions| - 1]);
      }
    }
  }

  // ---------------------------------------------------------------------------
  // What follows for every run
  // ---------------------------------------------------------------------------

  /** No send blocks, and none meets a closed channel: nothing panics. */
  lemma SendsNeverBlock(tls: bool, actions: seq<Action>, i: nat)
    ensures var s := Exec(Started(tls), actions);
            !s.panicked && (i < |s.loops| && s.loops[i].Sending? ==> !s.closed && |s.errCh| < 2)
  {
    StartedInv(tls);
    EveryInterleaving(Started(tls), actions);
    var s := Exec(Started(tls), actions);
    if i < |s.loops| && s.loops[i].Sending? {
      CloserWaits(s, i);
      CountUpdate(MaySend, s.loops, i, Gone);
    }
  }

  /** The channel is closed at most once, and only after every loop is gone. */
  lemma ClosedOnce(tls: bool, actions: seq<Action>)
    ensures var s := Exec(Started(tls), actions);
            s.closes <= 1 && (s.closed ==> s.closes == 1 && AllGone(s.loops))
  {
    StartedInv(tls);
    EveryInterleaving(Started(tls), actions);
    var s := Exec(Started(tls), actions);
    if s.closed {
      NonePresent(s.loops);
    }
  }

  /** Every reported error comes from a loop that read `stopping` as false. */
  lemma ReportsAreFresh(tls: bool, actions: seq<Action>)
    ensures var s := Exec(Started(tls), actions);
            && (forall k | 0 <= k < |s.errCh| :: !s.errCh[k].stoppingSeen)
            && (s.serveErr.Some? ==> !s.serveErr.value.stoppingSeen)
  {
    StartedInv(tls);
    EveryInterleaving(Started(tls), actions);
  }

  lemma CancelledExit(s: Sys)
    requires ExitInv(s) && s.handler == Returned(ByCancel)
    ensures TookError(s.main) || (s.main.Blocked? && Step(s, TakeError).Some? && Step(s, Exit).None?)
  {
  }

  /**
   When the signal handler has returned because the context was cancelled, the
   error is there for the main goroutine, which then exits with 1; an exit with
   0 means that the signal handler returned after a TERM or INT.
   */
  lemma ExitCodes(tls: bool, actions: seq<Action>)
    ensures var s := Exec(Started(tls), actions);
            && (s.handler == Returned(ByCancel) ==>
                  TookError(s.main) || (s.main.Blocked? && Step(s, TakeError).Some? && Step(s, Exit).None?))
            && (s.main.Exited? ==>
                  s.main == Exited(1) || (s.main == Exited(0) && s.handler == Returned(BySignal) && s.terminated))
  {
    StartedInv(tls);
    EveryInterleaving(Started(tls), actions);
    var s := Exec(Started(tls), actions);
    if s.handler == Returned(ByCancel) {
      CancelledExit(s);
    }
  }

  // ---------------------------------------------------------------------------
  // Errors before and after shutdown has begun
  // ---------------------------------------------------------------------------

  lemma {:induction false} ExecAppend(s: Sys, a: seq<Action>, b: seq<Action>)
    ensures Exec(s, a + b) == Exec(Exec(s, a), b)
    decreases |b|
  {
    if b == [] {
      assert a + b == a;
    } else {
      assert (a + b)[..|a + b| - 1] == a + b[..|b| - 1];
      ExecAppend(s, a, b[..|b| - 1]);
    }
  }

  lemma ExecOne(s: Sys, a: Action)
    requires Step(s, a).Some?
    ensures Exec(s, [a]) == Step(s, a).value
  {
    assert [a][..0] == [];
  }

  /** No error of the loop is on its way or has arrived. */
  predicate Unreported(s: Sys, i: nat) {
    && (forall j | 0 <= j < |s.loops| && s.loops[j].Sending? :: s.loops[j].report.loop != i)
    && (forall k | 0 <= k < |s.errCh| :: s.errCh[k].loop != i)
    && (s.drainer.Holding? ==> s.drainer.report.loop != i) && (s.serveErr.Some? ==> s.serveErr.value.loop != i)
  }

  predicate Undecided(l: Loop) {
    l.Serving? || l.Judging? || l.Read?
  }

  predicate UndecidedUnreported(s: Sys) {
    forall i | 0 <= i < |s.loops| && Undecided(s.loops[i]) :: Unreported(s, i)
  }

  lemma UnreportedLoop(s: Sys, i: nat, a: Action)
    requires Unreported(s, i) && i < |s.loops| && Step(s, a).Some? && OfLoop(a)
    requires !(a.Branch? && a.i == i)
    ensures Unreported(Step(s, a).value, i)
  {
  }

  lemma UnreportedOther(s: Sys, i: nat, a: Action)
    requires Unreported(s, i) && Step(s, a).Some? && !OfLoop(a)
    ensures Unreported(Step(s, a).value, i)
  {
  }

  lemma UndecidedBefore(s: Sys, a: Action, i: nat)
    requires Step(s, a).Some? && |Step(s, a).value.loops| == |s.loops| && i < |s.loops|
    requires Undecided(Step(s, a).value.loops[i])
    ensures Undecided(s.loops[i]) && !(a.Branch? && a.i == i)
  {
    hide Step;
    if OfLoop(a) {
      UndecidedLoop(s, a, i);
    } else {
      OthersKeepLoops(s, a);
    }
  }

  lemma OthersKeepLoops(s: Sys, a: Action)
    requires Step(s, a).Some? && !OfLoop(a)
    ensures Step(s, a).value.loops == s.loops
  {
  }

  lemma UndecidedLoop(s: Sys, a: Action, i: nat)
    requires Step(s, a).Some? && |Step(s, a).value.loops| == |s.loops| && i < |s.loops| && OfLoop(a)
    requires Undecided(Step(s, a).value.loops[i])
    ensures Undecided(s.loops[i]) && !(a.Branch? && a.i == i)
  {
  }

  lemma UndecidedStep(s: Sys, a: Action)
    requires UndecidedUnreported(s) && Step(s, a).Some?
    ensures UndecidedUnreported(Step(s, a).value)
  {
    hide Step, Unreported, Undecided;
    var t := Step(s, a).value;
    SameLoops(s, a);
    forall i | 0 <= i < |t.loops| && Undecided(t.loops[i]) ensures Unreported(t, i) {
      UndecidedBefore(s, a, i);
      if OfLoop(a) {
        UnreportedLoop(s, i, a);
      } else {
        UnreportedOther(s, i, a);
      }
    }
  }

  lemma SameLoops(s: Sys, a: Action)
    requires Step(s, a).Some?
    ensures |Step(s, a).value.loops| == |s.loops|
  {
  }

  lemma {:induction false} UndecidedRun(s: Sys, actions: seq<Action>)
    requires UndecidedUnreported(s)
    ensures UndecidedUnreported(Exec(s, actions))
  {
    if actions != [] {
      UndecidedRun(s, actions[..|actions| - 1]);
      var before := Exec(s, actions[..|actions| - 1]);
      if Step(before, actions[|actions| - 1]).Some? {
        UndecidedStep(before, actions[|actions| - 1]);
      }
    }
  }

  /** The loop will not send: it has not read `stopping`, which is set, or has read that it is, or is done. */
  predicate Mute(s: Sys, i: nat) {
    && s.stopping && i < |s.loops| && Unreported(s, i)
    && (s.loops[i].Serving? || s.loops[i].Judging? || s.loops[i] == Read(true) || s.loops[i].Leaving?
        || s.loops[i].Gone?)
  }

  lemma MuteStep(s: Sys, i: nat, a: Action)
    requires Mute(s, i) && Step(s, a).Some?
    ensures Mute(Step(s, a).value, i)
  {
    hide Unreported;
    if a.Branch? && a.i == i {
      MuteBranch(s, i);
    } else if OfLoop(a) {
      UnreportedLoop(s, i, a);
    } else {
      UnreportedOther(s, i, a);
    }
  }

  /** A loop that has read that the server is stopping leaves without a report. */
  lemma MuteBranch(s: Sys, i: nat)
    requires Mute(s, i) && Step(s, Branch(i)).Some?
    ensures Mute(Step(s, Branch(i)).value, i)
  {
  }

  lemma {:induction false} MuteRun(s: Sys, i: nat, actions: seq<Action>)
    requires Mute(s, i)
    ensures Mute(Exec(s, actions), i)
  {
    if actions != [] {
      MuteRun(s, i, actions[..|actions| - 1]);
      var before := Exec(s, actions[..|actions| - 1]);
      if Step(before, actions[|actions| - 1]).Some? {
        MuteStep(before, i, actions[|actions| - 1]);
      }
    }
  }

  lemma StartedUnreported(tls: bool)
    ensures UndecidedUnreported(Started(tls))
  {
  }

  lemma BeginMutes(s: Sys, i: nat)
    requires s.handler.Signalled? && i < |s.loops| && (s.loops[i].Serving? || s.loops[i].Judging?) && Unreported(s, i)
    ensures Step(s, BeginShutdown).Some? && Mute(Step(s, BeginShutdown).value, i)
  {
  }

  /**
   Whatever happened before: once a TERM or INT has begun the shutdown, a loop
   that was still serving, or had not yet looked whether the server is stopping,
   never reports an error.
   */
  lemma LateErrorUnreported(tls: bool, before: seq<Action>, after: seq<Action>, i: nat)
    requires var s := Exec(Started(tls), before);
             s.handler.Signalled? && i < |s.loops| && (s.loops[i].Serving? || s.loops[i].Judging?)
    ensures Unreported(Exec(Started(tls), before + ([BeginShutdown] + after)), i)
  {
    hide Exec, Step, Unreported;
    var s := Exec(Started(tls), before);
    StartedUnreported(tls);
    UndecidedRun(Started(tls), before);
    ExecAppend(Started(tls), before, [BeginShutdown] + after);
    ExecAppend(s, [BeginShutdown], after);
    BeginMutes(s, i);
    ExecOne(s, BeginShutdown);
    MuteRun(Exec(s, [BeginShutdown]), i, after);
  }

  /** No error has been sent, and none will be: the exit code can only be 0. */
  predicate Quiet(s: Sys) {
    && (forall i | 0 <= i < |s.loops| :: Mute(s, i)) && s.errCh == [] && (s.drainer.Receiving? || s.drainer.Finished?)
    && s.serveErr.None? && !s.cancelled && (s.main.Blocked? || s.main == Exited(0))
  }

  lemma QuietStep(s: Sys, a: Action)
    requires Quiet(s) && Step(s, a).Some?
    ensures Quiet(Step(s, a).value)
  {
    hide Unreported;
    var t := Step(s, a).value;
    SameLoops(s, a);
    forall i | 0 <= i < |t.loops| ensures Mute(t, i) {
      MuteStep(s, i, a);
    }
    QuietRest(s, a);
  }

  lemma QuietRest(s: Sys, a: Action)
    requires Quiet(s) && Step(s, a).Some?
    ensures var t := Step(s, a).value;
            && t.errCh == [] && (t.drainer.Receiving? || t.drainer.Finished?)
            && t.serveErr.None? && !t.cancelled && (t.main.Blocked? || t.main == Exited(0))
  {
    hide Unreported;
    forall i | 0 <= i < |s.loops| ensures !s.loops[i].Sending? {
      assert Mute(s, i);
    }
  }

  lemma {:induction false} QuietRun(s: Sys, actions: seq<Action>)
    requires Quiet(s)
    ensures Quiet(Exec(s, actions))
  {
    if actions != [] {
      QuietRun(s, actions[..|actions| - 1]);
      var before := Exec(s, actions[..|actions| - 1]);
      if Step(before, actions[|actions| - 1]).Some? {
        QuietStep(before, actions[|actions| - 1]);
      }
    }
  }

  predicate AllServing(s: Sys) {
    forall i | 0 <= i < |s.loops| :: s.loops[i].Serving?
  }

  /** While every loop is serving there is no error anywhere. */
  predicate ServingQuietly(s: Sys) {
    AllServing(s) ==>
      && s.errCh == [] && (s.drainer.Receiving? || s.drainer.Finished?) && s.serveErr.None? && !s.cancelled
      && s.main != Exited(1) && !s.main.Failing?
  }

  lemma LoopMoves(s: Sys, a: Action)
    requires Step(s, a).Some? && OfLoop(a)
    ensures a.i < |Step(s, a).value.loops| && !Step(s, a).value.loops[a.i].Serving?
  {
  }

  lemma ServingBefore(s: Sys, a: Action)
    requires Step(s, a).Some? && AllServing(Step(s, a).value)
    ensures AllServing(s) && !OfLoop(a)
  {
    if OfLoop(a) {
      LoopMoves(s, a);
      assert false;
    }
  }

  lemma ServingStep(s: Sys, a: Action)
    requires ExitInv(s) && ServingQuietly(s) && Step(s, a).Some?
    ensures ServingQuietly(Step(s, a).value)
  {
    hide AllServing;
    if AllServing(Step(s, a).value) {
      ServingBefore(s, a);
    }
  }

  lemma {:induction false} ServingRun(s: Sys, actions: seq<Action>)
    requires Inv(s) && ServingQuietly(s)
    ensures ServingQuietly(Exec(s, actions))
  {
    if actions != [] {
      ServingRun(s, actions[..|actions| - 1]);
      EveryInterleaving(s, actions[..|actions| - 1]);
      var before := Exec(s, actions[..|actions| - 1]);
      if Step(before, actions[|actions| - 1]).Some? {
        ServingStep(before, actions[|actions| - 1]);
      }
    }
  }

  /** A shutdown that begins while every loop is serving ends with exit code 0, whatever the loops return. */
  lemma CleanShutdown(tls: bool, before: seq<Action>, after: seq<Action>)
    requires var s := Exec(Started(tls), before); s.handler.Signalled? && AllServing(s)
    ensures var t := Exec(Started(tls), before + ([BeginShutdown] + after));
            !t.cancelled && (t.main.Exited? ==> t.main.code == 0)
  {
    var s := Exec(Started(tls), before);
    StartedInv(tls);
    EveryInterleaving(Started(tls), before);
    ServingRun(Started(tls), before);
    UndecidedRun(Started(tls), before);
    ExecAppend(Started(tls), before, [BeginShutdown] + after);
    ExecAppend(s, [BeginShutdown], after);
    ExecOne(s, BeginShutdown);
    QuietRun(Exec(s, [BeginShutdown]), after);
  }

  /** An error is being sent, waits in the channel, is in the drainer's hands, or has cancelled the context. */
  predicate UnderWay(s: Sys) {
    || (exists i :: 0 <= i < |s.loops| && s.loops[i].Sending?)
    || s.errCh != [] || s.drainer.Holding? || s.drainer.Cancelling? || s.cancelled
  }

  lemma UnderWayStep(s: Sys, a: Action)
    requires UnderWay(s) && Step(s, a).Some?
    ensures UnderWay(Step(s, a).value)
  {
    var t := Step(s, a).value;
    if i :| 0 <= i < |s.loops| && s.loops[i].Sending? {
      assert t.loops[i].Sending? || t.errCh != [];
    }
  }

  lemma {:induction false} UnderWayRun(s: Sys, actions: seq<Action>)
    requires UnderWay(s)
    ensures UnderWay(Exec(s, actions))
  {
    if actions != [] {
      UnderWayRun(s, actions[..|actions| - 1]);
      var before := Exec(s, actions[..|actions| - 1]);
      if Step(before, actions[|actions| - 1]).Some? {
        UnderWayStep(before, actions[|actions| - 1]);
      }
    }
  }

  /**
   An error of a loop that finds the server not stopping is never lost: after any
   further steps it is under way or has cancelled the context, and then the main
   goroutine has found it or will find it.
   */
  lemma EarlyErrorArrives(tls: bool, before: seq<Action>, after: seq<Action>, i: nat)
    requires var s := Exec(Started(tls), before); i < |s.loops| && s.loops[i].Judging? && !s.stopping
    ensures var t := Exec(Started(tls), before + ([ReadStopping(i), Branch(i)] + after));
            UnderWay(t) && (t.cancelled ==> t.serveErr.Some? || TookError(t.main))
  {
    var s, two := Exec(Started(tls), before), [ReadStopping(i), Branch(i)];
    ExecAppend(Started(tls), before, two + after);
    ExecAppend(s, two, after);
    ExecOne(s, ReadStopping(i));
    ExecAppend(s, [ReadStopping(i)], [Branch(i)]);
    assert two == [ReadStopping(i)] + [Branch(i)];
    ExecOne(Exec(s, [ReadStopping(i)]), Branch(i));
    assert Exec(s, two).loops[i].Sending?;
    UnderWayRun(Exec(s, two), after);
    StartedInv(tls);
    EveryInterleaving(Started(tls), before + (two + after));
  }

  // ---------------------------------------------------------------------------
  // Nothing gets stuck
  // ---------------------------------------------------------------------------

  /** One step if it is possible. */
  function Try(s: Sys, a: Action): Sys {
    var t := Step(s, a);
    if t.Some? then t.value else s
  }

  lemma TryFirst(s: Sys, a: Action, actions: seq<Action>)
    ensures Exec(s, [a] + actions) == Exec(Try(s, a), actions)
  {
    ExecAppend(s, [a], actions);
    assert [a][..0] == [];
  }

  /** The steps by which a loop comes to its end. */
  function LoopEnds(i: nat): seq<Action> {
    [ServeReturns(i, true)] + ([ReadStopping(i)] + ([Branch(i)] + ([Send(i)] + ([Leave(i)] + []))))
  }

  lemma TryKeepsInv(s: Sys, a: Action)
    requires Inv(s)
    ensures Inv(Try(s, a))
  {
    if Step(s, a).Some? {
      StepKeepsInv(s, a);
    }
  }

  /** A send finds room. */
  lemma SendPossible(s: Sys, i: nat)
    requires Inv(s) && i < |s.loops| && s.loops[i].Sending?
    ensures Try(s, Send(i)).loops == s.loops[i := Leaving]
  {
    CloserWaits(s, i);
    CountUpdate(MaySend, s.loops, i, Gone);
  }

  lemma LoopCanEnd(s: Sys, i: nat)
    requires Inv(s) && i < |s.loops|
    ensures var t := Exec(s, LoopEnds(i));
            Inv(t) && t.loops == s.loops[i := Gone]
  {
    hide Exec, Inv, Step;
    var s1 := Try(s, ServeReturns(i, true));
    var s2 := Try(s1, ReadStopping(i));
    var s3 := Try(s2, Branch(i));
    var s4 := Try(s3, Send(i));
    var s5 := Try(s4, Leave(i));
    TryKeepsInv(s, ServeReturns(i, true));
    TryKeepsInv(s1, ReadStopping(i));
    TryKeepsInv(s2, Branch(i));
    TryKeepsInv(s3, Send(i));
    TryKeepsInv(s4, Leave(i));
    LoopTries(s, i);
    TryFirst(s, ServeReturns(i, true), [ReadStopping(i)] + ([Branch(i)] + ([Send(i)] + ([Leave(i)] + []))));
    TryFirst(s1, ReadStopping(i), [Branch(i)] + ([Send(i)] + ([Leave(i)] + [])));
    TryFirst(s2, Branch(i), [Send(i)] + ([Leave(i)] + []));
    TryFirst(s3, Send(i), [Leave(i)] + []);
    TryFirst(s4, Leave(i), []);
    NoActions(s5);
  }

  lemma NoActions(s: Sys)
    ensures Exec(s, []) == s
  {
  }

  lemma JudgeTries(s: Sys, i: nat)
    requires i < |s.loops|
    ensures var u := Try(Try(s, ServeReturns(i, true)), ReadStopping(i));
            && |u.loops| == |s.loops| && u.loops == s.loops[i := u.loops[i]]
            && !u.loops[i].Serving? && !u.loops[i].Judging?
  {
  }

  lemma BranchTry(s: Sys, i: nat)
    requires i < |s.loops| && !s.loops[i].Serving? && !s.loops[i].Judging?
    ensures var u := Try(s, Branch(i));
            && |u.loops| == |s.loops| && u.loops == s.loops[i := u.loops[i]]
            && (u.loops[i].Sending? || u.loops[i].Leaving? || u.loops[i].Gone?)
  {
  }

  lemma LeaveTries(s: Sys, i: nat)
    requires Inv(s) && i < |s.loops| && (s.loops[i].Sending? || s.loops[i].Leaving? || s.loops[i].Gone?)
    ensures Try(Try(s, Send(i)), Leave(i)).loops == s.loops[i := Gone]
  {
    hide Inv;
    if s.loops[i].Sending? {
      SendPossible(s, i);
    }
  }

  /** What the five steps do to the loop. */
  lemma LoopTries(s: Sys, i: nat)
    requires Inv(s) && i < |s.loops|
    ensures var s3 := Try(Try(Try(s, ServeReturns(i, true)), ReadStopping(i)), Branch(i));
            Try(Try(s3, Send(i)), Leave(i)).loops == s.loops[i := Gone]
  {
    hide Inv, Step;
    var s1 := Try(s, ServeReturns(i, true));
    var s2 := Try(s1, ReadStopping(i));
    TryKeepsInv(s, ServeReturns(i, true));
    TryKeepsInv(s1, ReadStopping(i));
    TryKeepsInv(s2, Branch(i));
    JudgeTries(s, i);
    BranchTry(s2, i);
    LeaveTries(Try(s2, Branch(i)), i);
  }

  /** From every state of every run the loops can end and the channel can be closed. */
  lemma CanClose(tls: bool, before: seq<Action>) returns (actions: seq<Action>)
    ensures var t := Exec(Started(tls), before + actions); AllGone(t.loops) && t.closed && t.closes == 1
  {
    hide Exec, Inv, Step, LoopEnds;
    var s := Exec(Started(tls), before);
    StartedInv(tls);
    EveryInterleaving(Started(tls), before);
    LoopsKept(Started(tls), before);
    LoopCanEnd(s, 0);
    var t := Exec(s, LoopEnds(0));
    actions := LoopEnds(0);
    if tls {
      LoopCanEnd(t, 1);
      ExecAppend(s, LoopEnds(0), LoopEnds(1));
      actions := LoopEnds(0) + LoopEnds(1);
    }
    t := Exec(s, actions);
    TryFirst(t, PassWait, [CloseChannel] + []);
    TryFirst(Try(t, PassWait), CloseChannel, []);
    NoActions(Try(Try(t, PassWait), CloseChannel));
    Closes(t);
    ExecAppend(s, actions, [PassWait] + ([CloseChannel] + []));
    ExecAppend(Started(tls), before, actions + ([PassWait] + ([CloseChannel] + [])));
    actions := actions + ([PassWait] + ([CloseChannel] + []));
  }

  lemma {:induction false} LoopsKept(s: Sys, actions: seq<Action>)
    ensures |Exec(s, actions).loops| == |s.loops|
  {
    if actions != [] {
      LoopsKept(s, actions[..|actions| - 1]);
      var before := Exec(s, actions[..|actions| - 1]);
      if Step(before, actions[|actions| - 1]).Some? {
        SameLoops(before, actions[|actions| - 1]);
      }
    }
  }

  lemma {:induction false} NonePresentCount(loops: seq<Loop>)
    requires AllGone(loops)
    ensures Count(Present, loops) == 0
  {
    if loops != [] {
      NonePresentCount(loops[..|loops| - 1]);
    }
  }

  lemma Closes(t: Sys)
    requires Inv(t) && AllGone(t.loops)
    ensures var u := Try(Try(t, PassWait), CloseChannel); u.loops == t.loops && u.closed && u.closes == 1
  {
    NonePresentCount(t.loops);
  }

  /** The steps by which a TERM ends the process, or an error does. */
  function Ending(): seq<Action> {
    [Terminate] + ([BeginShutdown] + ([FinishShutdown] + ([TakeError] + ([StopAfterError] + ([Exit] + [])))))
  }

  lemma HandlerReturns(s: Sys)
    ensures var t := Try(Try(Try(s, Terminate), BeginShutdown), FinishShutdown);
            t.handler.Returned? && t.main == s.main && t.serveErr == s.serveErr
  {
    hide Try;
    TerminateTry(s);
    BeginTry(Try(s, Terminate));
    FinishTry(Try(Try(s, Terminate), BeginShutdown));
  }

  lemma TerminateTry(s: Sys)
    ensures var t := Try(s, Terminate); !t.handler.Waiting? && t.main == s.main && t.serveErr == s.serveErr
  {
  }

  lemma BeginTry(s: Sys)
    requires !s.handler.Waiting?
    ensures var t := Try(s, BeginShutdown);
            (t.handler.ShuttingDown? || t.handler.Returned?) && t.main == s.main && t.serveErr == s.serveErr
  {
  }

  lemma FinishTry(s: Sys)
    requires s.handler.ShuttingDown? || s.handler.Returned?
    ensures var t := Try(s, FinishShutdown); t.handler.Returned? && t.main == s.main && t.serveErr == s.serveErr
  {
  }

  lemma ErrorTaken(s: Sys)
    requires s.handler.Returned?
    ensures var t := Try(s, TakeError);
            && t.handler == s.handler
            && (s.main.Blocked? ==> if s.serveErr.Some? then t.main.Failing? else t.main.Blocked? && t.serveErr.None?)
            && (!s.main.Blocked? ==> t.main == s.main)
  {
  }

  lemma StoppedAndGone(s: Sys)
    requires s.handler.Returned? && (s.main.Blocked? ==> s.serveErr.None?)
    ensures var t := Try(Try(s, StopAfterError), Exit);
            if s.main.Exited? then t.main == s.main else t.main == Exited(if s.main.Failing? then 1 else 0)
  {
  }

  lemma MainExits(s: Sys)
    requires s.handler.Returned?
    ensures var t := Try(Try(Try(s, TakeError), StopAfterError), Exit);
            && t.main.Exited?
            && (s.main.Blocked? ==> t.main == Exited(if s.serveErr.Some? then 1 else 0))
  {
    hide Try;
    ErrorTaken(s);
    StoppedAndGone(Try(s, TakeError));
  }

  /** From every state a TERM can end the process: with 1 if there is an error, and otherwise with 0. */
  lemma CanExit(s: Sys)
    ensures var t := Exec(s, Ending());
            && t.main.Exited?
            && (s.main.Blocked? ==> t.main == Exited(if s.serveErr.Some? then 1 else 0))
  {
    hide Exec, Step, Try;
    var s1 := Try(s, Terminate);
    var s2 := Try(s1, BeginShutdown);
    var s3 := Try(s2, FinishShutdown);
    var s4 := Try(s3, TakeError);
    var s5 := Try(s4, StopAfterError);
    HandlerReturns(s);
    MainExits(s3);
    TryFirst(s, Terminate, [BeginShutdown] + ([FinishShutdown] + ([TakeError] + ([StopAfterError] + ([Exit] + [])))));
    TryFirst(s1, BeginShutdown, [FinishShutdown] + ([TakeError] + ([StopAfterError] + ([Exit] + []))));
    TryFirst(s2, FinishShutdown, [TakeError] + ([StopAfterError] + ([Exit] + [])));
    TryFirst(s3, TakeError, [StopAfterError] + ([Exit] + []));
    TryFirst(s4, StopAfterError, [Exit] + []);
    TryFirst(s5, Exit, []);
    NoActions(Try(s5, Exit));
  }
}
