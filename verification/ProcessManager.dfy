/** The start/terminate protocol of process/manager.go as a transition system.

    Any number of `Start` calls run against one `Terminate`.  They share a mutex, the
    close-once channel `killAll` and a wait group; every launched child has a reaper
    goroutine and a one-place exit channel.  A step is one shared-memory action of one
    goroutine, or one action of a child process. */
module ProcessManager {
  import opened Options
  import opened Totals

  /** What `cmd.Wait` reports. */
  datatype Exit = Clean | Failed(error: string)

  datatype Child = NoChild | Running | Exited(exit: Exit) | Reaped(exit: Exit)

  /** The goroutine of lines 58-61: waiting for the child, holding its exit value,
      about to call `wg.Done`, finished. */
  datatype Reaper = NotSpawned | Waiting | Sending(exit: Exit) | Finishing | Finished

  /** What `Start` returns.  Output is nil on the first two. */
  datatype Result =
    | ShutdownInProgress
    | LaunchError(error: string)
    | Terminated(output: string)
    | Completed(output: string, exit: Exit)

  /** Program counter of one `Start` call; the line about to be executed. */
  datatype Pc =
    | AtLock                        // 38
    | Checking                      // 39
    | Launching                     // 50
    | LaunchFailed(error: string)   // 52
    | Adding                        // 55
    | Releasing                     // 56
    | Spawning                      // 58
    | Selecting                     // 63
    | Signalling                    // 65
    | Draining                      // 66
    | Returned(result: Result)

  datatype Call = Call(pc: Pc, child: Child, signalled: bool, reaper: Reaper,
                       exitChan: Option<Exit>, sends: nat, output: string)

  datatype Lock = Free | ByStart(id: nat) | ByTerminate

  /** Program counter of `Terminate`. */
  datatype TerminatePc = NotCalled | TAtLock | Closing | Awaiting | Unlocking | Gone

  datatype State = State(lock: Lock, killAll: bool, wg: int, calls: seq<Call>, term: TerminatePc)

  /** Steps of a `Start` call, of its child and of its reaper. */
  datatype Op =
    | Acquire | Check | LaunchOk | LaunchErr(error: string) | ReleaseFailed | Add | Release | Spawn
    | TakeKill | TakeExit | Signal | Drain
    | Write(bytes: string) | Exit(exit: Exit)
    | Reap | Send | Done

  /** Steps of `Terminate`. */
  datatype TerminateOp = TCall | TAcquire | TClose | TWait | TRelease

  datatype Action = Begin | OfCall(c: nat, op: Op) | OfTerminate(t: TerminateOp)

  function Init(): State {
    State(Free, false, 0, [], NotCalled)
  }

  function NewCall(): Call {
    Call(AtLock, NoChild, false, NotSpawned, None, 0, "")
  }

  predicate OpEnabled(s: State, c: nat, op: Op) {
    c < |s.calls| &&
    var k := s.calls[c];
    match op
    case Acquire => k.pc.AtLock? && s.lock.Free?
    case Check => k.pc.Checking?
    case LaunchOk => k.pc.Launching?
    case LaunchErr(_) => k.pc.Launching?
    case ReleaseFailed => k.pc.LaunchFailed?
    case Add => k.pc.Adding?
    case Release => k.pc.Releasing?
    case Spawn => k.pc.Spawning?
    case TakeKill => k.pc.Selecting? && s.killAll
    case TakeExit => k.pc.Selecting? && k.exitChan.Some?
    case Signal => k.pc.Signalling?
    case Drain => k.pc.Draining? && k.exitChan.Some?
    case Write(_) => k.child.Running?
    case Exit(_) => k.child.Running?
    case Reap => k.reaper.Waiting? && k.child.Exited?
    case Send => k.reaper.Sending? && k.exitChan.None?
    case Done => k.reaper.Finishing?
  }

  predicate TerminateEnabled(s: State, t: TerminateOp) {
    match t
    case TCall => s.term.NotCalled?
    case TAcquire => s.term.TAtLock? && s.lock.Free?
    case TClose => s.term.Closing?
    case TWait => s.term.Awaiting? && s.wg == 0
    case TRelease => s.term.Unlocking?
  }

  predicate Enabled(s: State, a: Action) {
    match a
    case Begin => true
    case OfCall(c, op) => OpEnabled(s, c, op)
    case OfTerminate(t) => TerminateEnabled(s, t)
  }

  /** The call's own record after one of its steps.  On the shutdown path (lines 39-41)
      the call returns while it still owns the lock. */
  function CallNext(k: Call, op: Op, killAll: bool): Call {
    match op
    case Acquire => k.(pc := Checking)
    case Check => k.(pc := if killAll then Returned(ShutdownInProgress) else Launching)
    case LaunchOk => k.(pc := Adding, child := Running)
    case LaunchErr(e) => k.(pc := LaunchFailed(e))
    case ReleaseFailed => if k.pc.LaunchFailed? then k.(pc := Returned(LaunchError(k.pc.error))) else k
    case Add => k.(pc := Releasing)
    case Release => k.(pc := Spawning)
    case Spawn => k.(pc := Selecting, reaper := Waiting)
    case TakeKill => k.(pc := Signalling)
    case TakeExit => if k.exitChan.Some? then k.(pc := Returned(Completed(k.output, k.exitChan.value)), exitChan := None) else k
    case Signal => k.(pc := Draining, signalled := true)
    case Drain => k.(pc := Returned(Terminated(k.output)), exitChan := None)
    case Write(bytes) => k.(output := k.output + bytes)
    case Exit(e) => k.(child := Exited(e))
    case Reap => if k.child.Exited? then k.(child := Reaped(k.child.exit), reaper := Sending(k.child.exit)) else k
    case Send => if k.reaper.Sending? then k.(exitChan := Some(k.reaper.exit), sends := k.sends + 1, reaper := Finishing) else k
    case Done => k.(reaper := Finished)
  }

  function LockNext(lock: Lock, c: nat, op: Op): Lock {
    match op
    case Acquire => ByStart(c)
    case ReleaseFailed => Free
    case Release => Free
    case _ => lock
  }

  function WgNext(wg: int, op: Op): int {
    match op
    case Add => wg + 1
    case Done => wg - 1
    case _ => wg
  }

  function Next(s: State, a: Action): State
    requires Enabled(s, a)
  {
    match a
    case Begin => s.(calls := s.calls + [NewCall()])
    case OfCall(c, op) =>
      s.(calls := s.calls[c := CallNext(s.calls[c], op, s.killAll)],
         lock := LockNext(s.lock, c, op),
         wg := WgNext(s.wg, op))
    case OfTerminate(t) =>
      match t
      case TCall => s.(term := TAtLock)
      case TAcquire => s.(term := Closing, lock := ByTerminate)
      case TClose => s.(term := Awaiting, killAll := true)
      case TWait => s.(term := Unlocking)
      case TRelease => s.(term := Gone, lock := Free)
  }

  /** `run` lists the states that the actions `acts` lead through. */
  ghost predicate IsTrace(run: seq<State>, acts: seq<Action>) {
    && |run| == |acts| + 1
    && forall i :: 0 <= i < |acts| ==> Enabled(run[i], acts[i]) && run[i + 1] == Next(run[i], acts[i])
  }

  /** A trace from the state `NewManager` builds. */
  ghost predicate IsExecution(run: seq<State>, acts: seq<Action>) {
    IsTrace(run, acts) && run[0] == Init()
  }

  /** The error half of `Start`'s result. */
  function ErrorOf(r: Result): Option<string> {
    match r
    case ShutdownInProgress => Some("Shutdown in progress")
    case LaunchError(e) => Some(e)
    case Terminated(_) => Some("SIGTERM propagated to child process")
    case Completed(_, Clean) => None
    case Completed(_, Failed(e)) => Some(e)
  }

  // ------------------------------------------------------------------
  // The inductive invariant
  // ------------------------------------------------------------------

  /** Between taking the lock and giving it back; a shutdown return never gives it back. */
  predicate HoldsLock(pc: Pc) {
    || pc.Checking? || pc.Launching? || pc.LaunchFailed? || pc.Adding? || pc.Releasing?
    || pc == Returned(ShutdownInProgress)
  }

  /** No child was ever launched by this call. */
  predicate Childless(pc: Pc) {
    || pc.AtLock? || pc.Checking? || pc.Launching? || pc.LaunchFailed?
    || pc == Returned(ShutdownInProgress)
    || (pc.Returned? && pc.result.LaunchError?)
  }

  /** `wg.Add(1)` has run for this call and its `wg.Done` has not. */
  function Counted(k: Call): nat {
    if Childless(k.pc) || k.pc.Adding? || k.reaper.Finished? then 0 else 1
  }

  /** A child was launched and its reaper has not finished. */
  function Unfinished(k: Call): nat {
    if k.child.NoChild? || k.reaper.Finished? then 0 else 1
  }

  /** How the reaper, the child and the exit channel of a spawned call agree. */
  ghost predicate ReaperInv(k: Call, taken: bool) {
    match k.reaper
    case NotSpawned => false
    case Waiting => (k.child.Running? || k.child.Exited?) && k.exitChan.None? && k.sends == 0 && !taken
    case Sending(e) => k.child == Reaped(e) && k.exitChan.None? && k.sends == 0 && !taken
    case _ =>
      && k.child.Reaped? && k.sends == 1
      && k.exitChan == (if taken then None else Some(k.child.exit))
  }

  ghost predicate CallInv(k: Call) {
    if Childless(k.pc) then
      k == NewCall().(pc := k.pc)
    else if k.pc.Adding? || k.pc.Releasing? || k.pc.Spawning? then
      && (k.child.Running? || k.child.Exited?) && k.reaper.NotSpawned?
      && k.exitChan.None? && k.sends == 0 && !k.signalled
    else
      && ReaperInv(k, k.pc.Returned?)
      && (k.signalled <==> k.pc.Draining? || (k.pc.Returned? && k.pc.result.Terminated?))
      && (k.pc.Returned? && k.pc.result.Completed? ==>
            k.child == Reaped(k.pc.result.exit) && k.output == k.pc.result.output)
      && (k.pc.Returned? && k.pc.result.Terminated? ==>
            k.child.Reaped? && k.output == k.pc.result.output)
  }

  ghost predicate LockInv(s: State) {
    && (forall c :: 0 <= c < |s.calls| ==> (HoldsLock(s.calls[c].pc) <==> s.lock == ByStart(c)))
    && (s.lock.ByStart? ==> s.lock.id < |s.calls|)
    && (s.lock.ByTerminate? <==> s.term.Closing? || s.term.Awaiting? || s.term.Unlocking?)
  }

  /** Once `killAll` is closed nothing is on its way to a launch, and only then can a
      call take the kill branch or return on the shutdown path. */
  ghost predicate KillInv(s: State, k: Call) {
    && (s.killAll ==> !k.pc.Launching? && !k.pc.LaunchFailed? && !k.pc.Adding? && !k.pc.Releasing?)
    && (k.pc.Signalling? || k.signalled ==> s.killAll)
    && (k.pc == Returned(ShutdownInProgress) ==> s.term.Gone?)
    && (s.term.Unlocking? || s.term.Gone? ==> Unfinished(k) == 0)
  }

  ghost predicate Inv(s: State) {
    && (forall c :: 0 <= c < |s.calls| ==> CallInv(s.calls[c]))
    && LockInv(s)
    && (s.killAll <==> s.term.Awaiting? || s.term.Unlocking? || s.term.Gone?)
    && (forall c :: 0 <= c < |s.calls| ==> KillInv(s, s.calls[c]))
    && s.wg == Total(s.calls, Counted)
  }

  lemma CallInvStep(s: State, c: nat, op: Op)
    requires OpEnabled(s, c, op) && CallInv(s.calls[c])
    ensures CallInv(CallNext(s.calls[c], op, s.killAll))
  {
  }

  lemma LockInvStep(s: State, a: Action)
    requires Inv(s) && Enabled(s, a)
    ensures LockInv(Next(s, a))
  {
    if a.OfCall? {
      var k := s.calls[a.c];
      var k' := CallNext(k, a.op, s.killAll);
      assert CallInv(k);
      if !(a.op.Acquire? || a.op.ReleaseFailed? || a.op.Release?) {
        assert HoldsLock(k.pc) <==> HoldsLock(k'.pc);
      }
    }
  }

  lemma KillInvStep(s: State, a: Action)
    requires Inv(s) && Enabled(s, a)
    ensures var s' := Next(s, a);
            forall c :: 0 <= c < |s'.calls| ==> KillInv(s', s'.calls[c])
  {
    var s' := Next(s, a);
    forall c | 0 <= c < |s'.calls|
      ensures KillInv(s', s'.calls[c])
    {
      if a.Begin? && c == |s.calls| {
      } else {
        var k := s.calls[c];
        assert CallInv(k) && KillInv(s, k);
        if a == OfTerminate(TWait) {
          TotalAtLeast(s.calls, c, Counted);
        }
      }
    }
  }

  lemma CountedStep(s: State, c: nat, op: Op)
    requires OpEnabled(s, c, op) && CallInv(s.calls[c])
    ensures s.wg - Counted(s.calls[c])
         == WgNext(s.wg, op) - Counted(CallNext(s.calls[c], op, s.killAll))
  {
  }

  lemma WgStep(s: State, a: Action)
    requires Inv(s) && Enabled(s, a)
    ensures Next(s, a).wg == Total(Next(s, a).calls, Counted)
  {
    match a
    case Begin => TotalAppend(s.calls, NewCall(), Counted);
    case OfCall(c, op) =>
      CountedStep(s, c, op);
      TotalUpdate(s.calls, c, CallNext(s.calls[c], op, s.killAll), Counted);
    case OfTerminate(_) =>
  }

  /** Every step of every goroutine and child keeps the invariant. */
  lemma InvStep(s: State, a: Action)
    requires Inv(s) && Enabled(s, a)
    ensures Inv(Next(s, a))
  {
    LockInvStep(s, a);
    KillInvStep(s, a);
    WgStep(s, a);
    if a.OfCall? {
      CallInvStep(s, a.c, a.op);
    }
  }

  lemma {:induction false} InvTrace(run: seq<State>, acts: seq<Action>, i: nat)
    requires IsTrace(run, acts) && Inv(run[0]) && i < |run|
    ensures Inv(run[i])
  {
    if i > 0 {
      InvTrace(run, acts, i - 1);
      InvStep(run[i - 1], acts[i - 1]);
    }
  }

  lemma {:induction false} InvExecution(run: seq<State>, acts: seq<Action>, i: nat)
    requires IsExecution(run, acts) && i < |run|
    ensures Inv(run[i])
  {
    InvTrace(run, acts, i);
  }
}
