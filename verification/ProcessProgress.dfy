/** Progress of `Terminate`, and exactly which `Start` calls can still get the lock. */
module ProcessProgress {
  import opened Options
  import opened Totals
  import opened ProcessManager
  import opened ProcessSafety

  // ------------------------------------------------------------------
  // Shutdown progress
  // ------------------------------------------------------------------

  /** Steps a call past the lock, its child and its reaper still have to take. */
  function Rank(k: Call): nat {
    if Childless(k.pc) then 0 else
    (match k.pc
     case Spawning => 4
     case Selecting => 3
     case Signalling => 2
     case Draining => 1
     case _ => 0)
    + (if k.child.Running? then 1 else 0)
    + (match k.reaper
       case NotSpawned => 4
       case Waiting => 3
       case Sending(_) => 2
       case Finishing => 1
       case Finished => 0)
  }

  function Work(s: State): nat {
    Total(s.calls, Rank)
  }

  /** The environment steps that do no shutdown work: a new `Start` arrives, or a child writes. */
  predicate Idle(a: Action) {
    a.Begin? || (a.OfCall? && a.op.Write?)
  }

  function Working(a: Action): nat {
    if Idle(a) then 0 else 1
  }

  /** While `Terminate` waits, no step takes the lock, every step that is not idle lowers the
      work left, and idle steps leave it alone. */
  lemma ShutdownStep(s: State, a: Action)
    requires Inv(s) && s.term.Awaiting? && Enabled(s, a)
    ensures Next(s, a).lock == s.lock
    ensures Next(s, a).term.Awaiting? <==> a != OfTerminate(TWait)
    ensures a != OfTerminate(TWait) ==> Work(Next(s, a)) + Working(a) <= Work(s)
    ensures Idle(a) ==> Work(Next(s, a)) == Work(s)
  {
    match a
    case Begin => TotalAppend(s.calls, NewCall(), Rank);
    case OfCall(c, op) =>
      RankStep(s, c, op);
      TotalUpdate(s.calls, c, CallNext(s.calls[c], op, s.killAll), Rank);
    case OfTerminate(_) =>
  }

  lemma RankStep(s: State, c: nat, op: Op)
    requires Inv(s) && s.term.Awaiting? && OpEnabled(s, c, op)
    ensures var k' := CallNext(s.calls[c], op, s.killAll);
            && Rank(k') + (if op.Write? then 0 else 1) <= Rank(s.calls[c])
            && (op.Write? ==> Rank(k') == Rank(s.calls[c]))
            && LockNext(s.lock, c, op) == s.lock
  {
    assert CallInv(s.calls[c]) && KillInv(s, s.calls[c]);
  }

  /** However steps interleave, `Terminate` waits through at most `Work` many of them that are
      not idle. */
  lemma {:induction false} ShutdownBounded(run: seq<State>, acts: seq<Action>, n: nat)
    requires IsTrace(run, acts) && Inv(run[0]) && n < |run|
    requires forall i :: 0 <= i <= n ==> run[i].term.Awaiting?
    ensures Total(acts[..n], Working) + Work(run[n]) <= Work(run[0])
  {
    if n > 0 {
      ShutdownBounded(run, acts, n - 1);
      InvTrace(run, acts, n - 1);
      ShutdownStep(run[n - 1], acts[n - 1]);
      assert acts[..n] == acts[..n - 1] + [acts[n - 1]];
      TotalAppend(acts[..n - 1], acts[n - 1], Working);
    }
  }

  /** A step that the program, or a child that was sent SIGTERM, will take. */
  predicate Driving(s: State, a: Action) {
    match a
    case Begin => false
    case OfCall(c, op) =>
      && !op.Write? && !op.Acquire?
      && (op.Exit? ==> c < |s.calls| && s.calls[c].signalled)
    case OfTerminate(t) => !t.TCall? && !t.TAcquire?
  }

  /** While `Terminate` waits for unreaped children, one of them can move without the lock:
      its `Start` can take the `killAll` case or has already signalled it. */
  lemma ShutdownEnabled(s: State) returns (a: Action)
    requires Inv(s) && s.term.Awaiting? && s.wg > 0
    ensures Enabled(s, a) && Driving(s, a) && a.OfCall?
  {
    var c := TotalWitness(s.calls, Counted);
    var k := s.calls[c];
    assert CallInv(k) && KillInv(s, k);
    match k.pc
    case Spawning => a := OfCall(c, Spawn);
    case Selecting => a := OfCall(c, TakeKill);
    case Signalling => a := OfCall(c, Signal);
    case _ =>
      match k.reaper {
        case Waiting => a := OfCall(c, if k.child.Running? then Exit(Clean) else Reap);
        case Sending(_) => a := OfCall(c, Send);
        case _ => a := OfCall(c, Done);
      }
  }

  ghost predicate Drives(run: seq<State>, acts: seq<Action>) {
    IsTrace(run, acts) && forall i :: 0 <= i < |acts| ==> Driving(run[i], acts[i])
  }

  /** Calls that wait for the lock in `s` still wait for it in `s'`. */
  ghost predicate KeepsWaiters(s: State, s': State) {
    && |s.calls| <= |s'.calls|
    && forall c :: 0 <= c < |s.calls| && s.calls[c].pc.AtLock? ==> s'.calls[c].pc.AtLock?
  }

  lemma Prepend(s: State, a: Action, run: seq<State>, acts: seq<Action>)
    requires Enabled(s, a) && IsTrace(run, acts) && run[0] == Next(s, a)
    ensures IsTrace([s] + run, [a] + acts)
    ensures Driving(s, a) && Drives(run, acts) ==> Drives([s] + run, [a] + acts)
  {
    forall i | 0 <= i < |acts| + 1
      ensures Enabled(([s] + run)[i], ([a] + acts)[i])
      ensures ([s] + run)[i + 1] == Next(([s] + run)[i], ([a] + acts)[i])
      ensures Driving(s, a) && Drives(run, acts) ==> Driving(([s] + run)[i], ([a] + acts)[i])
    {
      if i > 0 {
        assert ([a] + acts)[i] == acts[i - 1] && ([s] + run)[i] == run[i - 1];
      }
    }
  }

  /** From every state in which `Terminate` waits, the program's own steps and the exits of
      signalled children lead to its return, no call ever taking the lock. */
  lemma {:induction false} ShutdownCompletes(s: State) returns (run: seq<State>, acts: seq<Action>)
    requires Inv(s) && s.term.Awaiting?
    ensures Drives(run, acts) && run[0] == s
    ensures var last := run[|acts|]; last.term.Gone? && last.lock.Free? && KeepsWaiters(s, last)
    ensures |acts| <= Work(s) + 2
    decreases Work(s)
  {
    if s.wg > 0 {
      var a := ShutdownEnabled(s);
      ShutdownStep(s, a);
      InvStep(s, a);
      var run', acts' := ShutdownCompletes(Next(s, a));
      Prepend(s, a, run', acts');
      run, acts := [s] + run', [a] + acts';
      assert KeepsWaiters(s, Next(s, a));
    } else {
      InvStep(s, OfTerminate(TWait));
      WgNonNegative(s);
      var s1 := Next(s, OfTerminate(TWait));
      var s2 := Next(s1, OfTerminate(TRelease));
      run, acts := [s, s1, s2], [OfTerminate(TWait), OfTerminate(TRelease)];
    }
  }

  lemma WgNonNegative(s: State)
    requires Inv(s)
    ensures s.wg >= 0
  {
  }

  // ------------------------------------------------------------------
  // Start returns
  // ------------------------------------------------------------------

  /** Steps from the child's exit to the return of its `Start`. */
  function ToReturn(k: Call): nat {
    (match k.pc
     case Adding => 4
     case Releasing => 3
     case Spawning => 2
     case Signalling => 2
     case Selecting => 1
     case Draining => 1
     case _ => 0)
    + (match k.reaper
       case NotSpawned => 2
       case Waiting => 2
       case Sending(_) => 1
       case _ => 0)
  }

  /** The next of them. */
  function OwnStep(k: Call): Op {
    match k.pc
    case Adding => Add
    case Releasing => Release
    case Spawning => Spawn
    case Signalling => Signal
    case _ =>
      match k.reaper
      case Waiting => Reap
      case Sending(_) => Send
      case _ => if k.pc.Selecting? then TakeExit else Drain
  }

  /** What `Start` then returns: the child's exit, unless it has already seen `killAll` closed. */
  function Outcome(k: Call): Result
    requires k.child.Exited? || k.child.Reaped?
  {
    if k.pc.Signalling? || k.pc.Draining? then Terminated(k.output) else Completed(k.output, k.child.exit)
  }

  ghost predicate HasExited(s: State, c: nat) {
    c < |s.calls| && (s.calls[c].child.Exited? || s.calls[c].child.Reaped?)
  }

  lemma OwnStepNext(s: State, c: nat)
    requires Inv(s) && HasExited(s, c) && !s.calls[c].pc.Returned?
    ensures OpEnabled(s, c, OwnStep(s.calls[c]))
    ensures var k := s.calls[c]; var k' := CallNext(k, OwnStep(k), s.killAll);
            && (k'.child.Exited? || k'.child.Reaped?) && ToReturn(k') == ToReturn(k) - 1
            && (if k'.pc.Returned? then k'.pc.result == Outcome(k) && ToReturn(k') == 0 else Outcome(k') == Outcome(k))
  {
    assert CallInv(s.calls[c]);
  }

  /** Only call `c` has moved. */
  ghost predicate OnlyMoved(s: State, s': State, c: nat) {
    && |s'.calls| == |s.calls| && s'.killAll == s.killAll && s'.term == s.term
    && forall d :: 0 <= d < |s.calls| && d != c ==> s'.calls[d] == s.calls[d]
  }

  ghost predicate OwnSteps(acts: seq<Action>, c: nat) {
    forall i :: 0 <= i < |acts| ==> acts[i].OfCall? && acts[i].c == c && !acts[i].op.Exit? && !acts[i].op.Write?
  }

  lemma OwnMove(s: State, c: nat) returns (s': State)
    requires Inv(s) && HasExited(s, c) && !s.calls[c].pc.Returned?
    ensures Enabled(s, OfCall(c, OwnStep(s.calls[c]))) && s' == Next(s, OfCall(c, OwnStep(s.calls[c])))
    ensures Inv(s') && OnlyMoved(s, s', c) && HasExited(s', c) && ToReturn(s'.calls[c]) == ToReturn(s.calls[c]) - 1
    ensures if s'.calls[c].pc.Returned? then s'.calls[c].pc.result == Outcome(s.calls[c]) && ToReturn(s'.calls[c]) == 0
            else Outcome(s'.calls[c]) == Outcome(s.calls[c])
  {
    OwnStepNext(s, c);
    InvStep(s, OfCall(c, OwnStep(s.calls[c])));
    s' := Next(s, OfCall(c, OwnStep(s.calls[c])));
  }

  /** From every state, with or without `Terminate`: once a launched child has exited, its `Start` returns by
      its own and its reaper's steps alone, in exactly the number the measure says, with all the child's
      output and, unless it has already seen `killAll` closed, the child's own exit. */
  lemma {:induction false} StartReturns(s: State, c: nat) returns (run: seq<State>, acts: seq<Action>)
    requires Inv(s) && HasExited(s, c) && !s.calls[c].pc.Returned?
    ensures IsTrace(run, acts) && run[0] == s && |acts| == ToReturn(s.calls[c]) && OwnSteps(acts, c)
    ensures OnlyMoved(s, run[|acts|], c) && run[|acts|].calls[c].pc == Returned(Outcome(s.calls[c]))
    decreases ToReturn(s.calls[c])
  {
    var a := OfCall(c, OwnStep(s.calls[c]));
    var s' := OwnMove(s, c);
    if s'.calls[c].pc.Returned? {
      run, acts := [s, s'], [a];
    } else {
      var run', acts' := StartReturns(s', c);
      Prepend(s, a, run', acts');
      run, acts := [s] + run', [a] + acts';
    }
  }

  /** Some steps lead from `s` to `t`. */
  ghost predicate Leads(s: State, t: State) {
    exists run: seq<State>, acts: seq<Action> :: IsTrace(run, acts) && run[0] == s && run[|acts|] == t
  }

  lemma LeadsNowhere(s: State)
    ensures Leads(s, s)
  {
    var run, acts: seq<Action> := [s], [];
    assert IsTrace(run, acts) && run[0] == s && run[|acts|] == s;
  }

  lemma LeadsFirst(s: State, a: Action, t: State)
    requires Enabled(s, a) && Leads(Next(s, a), t)
    ensures Leads(s, t)
  {
    var run: seq<State>, acts: seq<Action> :| IsTrace(run, acts) && run[0] == Next(s, a) && run[|acts|] == t;
    Prepend(s, a, run, acts);
    assert ([s] + run)[|[a] + acts|] == t;
  }

  /** One step of call `c`; what can be reached after it can be reached before it. */
  lemma OneStep(s: State, c: nat, op: Op) returns (s': State)
    requires Inv(s) && OpEnabled(s, c, op)
    ensures Inv(s') && s' == Next(s, OfCall(c, op)) && OnlyMoved(s, s', c)
    ensures forall t :: Leads(s', t) ==> Leads(s, t)
  {
    InvStep(s, OfCall(c, op));
    s' := Next(s, OfCall(c, op));
    forall t | Leads(s', t) ensures Leads(s, t) {
      LeadsFirst(s, OfCall(c, op), t);
    }
  }

  /** From the free lock to the launch. */
  lemma ReadyToLaunch(s: State, c: nat) returns (s': State)
    requires Inv(s) && c < |s.calls| && s.calls[c].pc.AtLock? && s.lock.Free? && !s.killAll
    ensures Inv(s') && OnlyMoved(s, s', c) && s'.calls[c] == NewCall().(pc := Launching)
    ensures forall t :: Leads(s', t) ==> Leads(s, t)
  {
    assert CallInv(s.calls[c]);
    s' := OneStep(s, c, Acquire);
    s' := OneStep(s', c, Check);
  }

  /** Before shutdown, a `Start` that finds the lock free can return any launch error ... */
  lemma {:induction false} LaunchErrorReturned(s: State, c: nat, e: string) returns (t: State)
    requires Inv(s) && c < |s.calls| && s.calls[c].pc.AtLock? && s.lock.Free? && !s.killAll
    ensures Leads(s, t) && OnlyMoved(s, t, c) && t.lock.Free? && t.calls[c].pc == Returned(LaunchError(e))
  {
    t := ReadyToLaunch(s, c);
    t := OneStep(t, c, LaunchErr(e));
    t := OneStep(t, c, ReleaseFailed);
    LeadsNowhere(t);
  }

  /** ... and, whatever its child writes and however it exits, exactly that. */
  lemma {:induction false} ExitReturned(s: State, c: nat, out: string, e: Exit) returns (t: State)
    requires Inv(s) && c < |s.calls| && s.calls[c].pc.AtLock? && s.lock.Free? && !s.killAll
    ensures Leads(s, t) && OnlyMoved(s, t, c) && t.calls[c].pc == Returned(Completed(out, e))
  {
    var u := ReadyToLaunch(s, c);
    u := OneStep(u, c, LaunchOk);
    u := OneStep(u, c, Write(out));
    u := OneStep(u, c, Exit(e));
    assert "" + out == out;
    var run, acts := StartReturns(u, c);
    t := run[|acts|];
    assert Leads(u, t);
  }

  lemma SignalledReturns(s: State, c: nat, e: Exit) returns (t: State)
    requires Inv(s) && c < |s.calls| && s.calls[c].pc.Draining?
    ensures Leads(s, t) && OnlyMoved(s, t, c) && t.calls[c].pc == Returned(Terminated(s.calls[c].output))
  {
    assert CallInv(s.calls[c]);
    var u := s;
    if s.calls[c].child.Running? {
      u := OneStep(s, c, Exit(e));
    }
    var run, acts := StartReturns(u, c);
    t := run[|acts|];
    assert Leads(u, t);
  }

  /** After `killAll` was closed, the kill case is open to every `Start` that has not chosen yet: however its
      child then exits, or has exited already, it can return the SIGTERM error with all the output. */
  lemma {:induction false} KillReturned(s: State, c: nat, e: Exit) returns (t: State)
    requires Inv(s) && c < |s.calls| && s.killAll && (s.calls[c].pc.Spawning? || s.calls[c].pc.Selecting?)
    ensures Leads(s, t) && OnlyMoved(s, t, c) && t.calls[c].pc == Returned(Terminated(s.calls[c].output))
  {
    var u := s;
    if u.calls[c].pc.Spawning? {
      u := OneStep(u, c, Spawn);
    }
    u := OneStep(u, c, TakeKill);
    u := OneStep(u, c, Signal);
    t := SignalledReturns(u, c, e);
  }

  // ------------------------------------------------------------------
  // Who can still get the lock
  // ------------------------------------------------------------------

  /** Some continuation of `s` lets call `c` take the lock. */
  ghost predicate CanAcquire(s: State, c: nat) {
    exists run: seq<State>, acts: seq<Action> :: IsTrace(run, acts) && run[0] == s && run[|acts|].lock == ByStart(c)
  }

  lemma AcquireNow(s: State, c: nat)
    requires c < |s.calls| && s.calls[c].pc.AtLock? && s.lock.Free?
    ensures CanAcquire(s, c)
  {
    var s1 := Next(s, OfCall(c, Acquire));
    assert IsTrace([s, s1], [OfCall(c, Acquire)]) && [s, s1][0] == s;
  }

  lemma AcquireLater(s: State, a: Action, c: nat)
    requires Enabled(s, a) && CanAcquire(Next(s, a), c)
    ensures CanAcquire(s, c)
  {
    var run: seq<State>, acts: seq<Action> :| IsTrace(run, acts) && run[0] == Next(s, a) && run[|acts|].lock == ByStart(c);
    Prepend(s, a, run, acts);
    assert ([s] + run)[|[a] + acts|] == run[|acts|];
  }

  lemma {:induction false} AcquireAfter(run: seq<State>, acts: seq<Action>, c: nat)
    requires IsTrace(run, acts) && CanAcquire(run[|acts|], c)
    ensures CanAcquire(run[0], c)
    decreases |acts|
  {
    if acts != [] {
      AcquireAfter(run[1..], acts[1..], c);
      AcquireLater(run[0], acts[0], c);
    }
  }

  /** The owner of the lock inside the launch section, before shutdown, can give it back. */
  lemma {:induction false} OwnerReleases(s: State, c: nat)
    requires Inv(s) && c < |s.calls| && s.calls[c].pc.AtLock?
    requires s.lock.ByStart? && !s.killAll
    ensures CanAcquire(s, c)
    decreases var pc := s.calls[s.lock.id].pc;
              if pc.Checking? then 2 else if pc.Launching? || pc.Adding? then 1 else 0
  {
    var d := s.lock.id;
    assert HoldsLock(s.calls[d].pc) && KillInv(s, s.calls[d]);
    var op := match s.calls[d].pc
      case Checking => Check
      case Launching => LaunchErr("")
      case LaunchFailed(_) => ReleaseFailed
      case Adding => Add
      case _ => Release;
    var a := OfCall(d, op);
    InvStep(s, a);
    if op.Release? || op.ReleaseFailed? {
      AcquireNow(Next(s, a), c);
    } else {
      OwnerReleases(Next(s, a), c);
    }
    AcquireLater(s, a, c);
  }

  lemma {:induction false} TerminateReleases(s: State, c: nat)
    requires Inv(s) && c < |s.calls| && s.calls[c].pc.AtLock? && s.lock.ByTerminate?
    ensures CanAcquire(s, c)
    decreases s.term.Closing?
  {
    match s.term
    case Closing =>
      InvStep(s, OfTerminate(TClose));
      TerminateReleases(Next(s, OfTerminate(TClose)), c);
      AcquireLater(s, OfTerminate(TClose), c);
    case Awaiting =>
      var run, acts := ShutdownCompletes(s);
      AcquireNow(run[|acts|], c);
      AcquireAfter(run, acts, c);
    case Unlocking =>
      AcquireNow(Next(s, OfTerminate(TRelease)), c);
      AcquireLater(s, OfTerminate(TRelease), c);
  }

  /** Not every `Start` gets the lock: exactly the calls that wait while a `Start` owns the lock
      after `killAll` was closed are stuck, in every continuation, because the shutdown path of
      lines 39-41 returns without unlocking. */
  lemma {:induction false} StuckExactlyWhenLeaking(s: State, c: nat)
    requires Inv(s) && c < |s.calls| && s.calls[c].pc.AtLock?
    ensures CanAcquire(s, c) <==> !Leaking(s)
  {
    if Leaking(s) {
      assert !HoldsLock(s.calls[c].pc);
      forall run: seq<State>, acts: seq<Action> | IsTrace(run, acts) && run[0] == s
        ensures run[|acts|].lock != ByStart(c)
      {
        LeakForever(run, acts, |acts|);
      }
    } else if s.lock.ByStart? {
      OwnerReleases(s, c);
    } else if s.lock.ByTerminate? {
      TerminateReleases(s, c);
    } else {
      AcquireNow(s, c);
    }
  }

  /** The stuck case is reached: after `Terminate` returns, a first `Start` leaks the lock and a
      second one waits for ever. */
  lemma LeakReached() returns (run: seq<State>, acts: seq<Action>)
    ensures IsExecution(run, acts)
    ensures var s := run[|acts|];
            && |s.calls| == 2 && s.calls[0].pc == Returned(ShutdownInProgress)
            && s.calls[1].pc.AtLock? && !CanAcquire(s, 1)
  {
    var s0 := Init();
    var s1 := Next(s0, OfTerminate(TCall));
    var s2 := Next(s1, OfTerminate(TAcquire));
    var s3 := Next(s2, OfTerminate(TClose));
    var s4 := Next(s3, OfTerminate(TWait));
    var s5 := Next(s4, OfTerminate(TRelease));
    var s6 := Next(s5, Begin);
    var s7 := Next(s6, Begin);
    var s8 := Next(s7, OfCall(0, Acquire));
    var s9 := Next(s8, OfCall(0, Check));
    run := [s0, s1, s2, s3, s4, s5, s6, s7, s8, s9];
    acts := [OfTerminate(TCall), OfTerminate(TAcquire), OfTerminate(TClose), OfTerminate(TWait),
             OfTerminate(TRelease), Begin, Begin, OfCall(0, Acquire), OfCall(0, Check)];
    assert s9.calls == [NewCall().(pc := Returned(ShutdownInProgress)), NewCall()];
    InvExecution(run, acts, 9);
    StuckExactlyWhenLeaking(s9, 1);
  }
}
