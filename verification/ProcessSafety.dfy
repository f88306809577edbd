/** What holds in every execution of the start/terminate protocol: shutdown safety, wait
    group accounting, the meaning of `Start`'s results, and who holds the lock. */
module ProcessSafety {
  import opened Options
  import opened Totals
  import opened ProcessManager
  import opened ProcessTraces

  // ------------------------------------------------------------------
  // What one step keeps of a call
  // ------------------------------------------------------------------

  /** Everything about a call that no later step takes back. */
  ghost predicate Extends(k: Call, k': Call) {
    && (!k.child.NoChild? ==> !k'.child.NoChild?)
    && (k.child.Reaped? ==> k'.child == k.child && k'.output == k.output)
    && (k.pc.Returned? ==> k'.pc == k.pc && k'.child == k.child)
    && k.sends <= k'.sends
  }

  ghost predicate CallsExtend(s: State, s': State) {
    && |s.calls| <= |s'.calls|
    && forall c :: 0 <= c < |s.calls| ==> Extends(s.calls[c], s'.calls[c])
  }

  lemma ExtendStep(s: State, a: Action)
    requires Inv(s) && Enabled(s, a)
    ensures CallsExtend(s, Next(s, a))
  {
    if a.OfCall? {
      assert CallInv(s.calls[a.c]);
    }
  }

  lemma ExtendTrans(a: State, b: State, c: State)
    requires CallsExtend(a, b) && CallsExtend(b, c)
    ensures CallsExtend(a, c)
  {
    forall d | 0 <= d < |a.calls| ensures Extends(a.calls[d], c.calls[d]) {
      assert Extends(a.calls[d], b.calls[d]) && Extends(b.calls[d], c.calls[d]);
    }
  }

  lemma ExtendNext(run: seq<State>, acts: seq<Action>, k: nat)
    requires IsTrace(run, acts) && Inv(run[0]) && k < |acts|
    ensures CallsExtend(run[k], run[k + 1])
  {
    InvTrace(run, acts, k);
    ExtendStep(run[k], acts[k]);
  }

  lemma {:induction false} ExtendTrace(run: seq<State>, acts: seq<Action>, i: nat, j: nat)
    requires IsTrace(run, acts) && Inv(run[0]) && i <= j < |run|
    ensures CallsExtend(run[i], run[j])
    decreases j
  {
    if i < j {
      ExtendTrace(run, acts, i, j - 1);
      ExtendNext(run, acts, j - 1);
      ExtendTrans(run[i], run[j - 1], run[j]);
    }
  }

  // ------------------------------------------------------------------
  // Shutdown safety
  // ------------------------------------------------------------------

  /** Every child of `s'` is already there in `s`. */
  ghost predicate NoNewChildren(s: State, s': State) {
    forall c :: 0 <= c < |s'.calls| && !s'.calls[c].child.NoChild? ==> c < |s.calls| && !s.calls[c].child.NoChild?
  }

  lemma NoNewChildrenTrans(a: State, b: State, c: State)
    requires NoNewChildren(a, b) && NoNewChildren(b, c)
    ensures NoNewChildren(a, c)
  {
  }

  lemma GoneStep(s: State, a: Action)
    requires Inv(s) && Enabled(s, a) && s.term.Gone?
    ensures Next(s, a).term.Gone? && NoNewChildren(s, Next(s, a))
  {
    if a.OfCall? {
      assert KillInv(s, s.calls[a.c]);
    }
  }

  lemma GoneNext(run: seq<State>, acts: seq<Action>, k: nat)
    requires IsExecution(run, acts) && k < |acts| && run[k].term.Gone?
    ensures run[k + 1].term.Gone? && NoNewChildren(run[k], run[k + 1])
  {
    InvExecution(run, acts, k);
    GoneStep(run[k], acts[k]);
  }

  lemma {:induction false} GoneTrace(run: seq<State>, acts: seq<Action>, i: nat, j: nat)
    requires IsExecution(run, acts) && i <= j < |run| && run[i].term.Gone?
    ensures run[j].term.Gone? && NoNewChildren(run[i], run[j])
    decreases j
  {
    if i < j {
      GoneTrace(run, acts, i, j - 1);
      GoneNext(run, acts, j - 1);
      NoNewChildrenTrans(run[i], run[j - 1], run[j]);
    }
  }

  /** Once `Terminate` has returned, every child present at any later time had already been
      launched and reaped by then: no child survives `Terminate` and none is launched after it. */
  lemma {:induction false} ShutdownSafety(run: seq<State>, acts: seq<Action>, i: nat, j: nat, c: nat)
    requires IsExecution(run, acts) && i <= j < |run|
    requires run[i].term.Gone?
    requires c < |run[j].calls| && !run[j].calls[c].child.NoChild?
    ensures c < |run[i].calls| && run[i].calls[c].child.Reaped? && run[i].calls[c].reaper.Finished?
    ensures run[j].calls[c].child == run[i].calls[c].child
  {
    GoneTrace(run, acts, i, j);
    ReapedWhenGone(run, acts, i, c);
    ExtendTrace(run, acts, i, j);
    assert Extends(run[i].calls[c], run[j].calls[c]);
  }

  lemma ReapedWhenGone(run: seq<State>, acts: seq<Action>, i: nat, c: nat)
    requires IsExecution(run, acts) && i < |run| && run[i].term.Gone?
    requires c < |run[i].calls| && !run[i].calls[c].child.NoChild?
    ensures run[i].calls[c].child.Reaped? && run[i].calls[c].reaper.Finished?
  {
    InvExecution(run, acts, i);
    assert CallInv(run[i].calls[c]) && KillInv(run[i], run[i].calls[c]);
  }

  // ------------------------------------------------------------------
  // Wait group and exit channel accounting
  // ------------------------------------------------------------------

  /** Inside the locked launch window: the child runs, `wg.Add` has not. */
  function InWindow(k: Call): nat {
    if k.pc.Adding? then 1 else 0
  }

  lemma {:induction false} NoneInWindow(calls: seq<Call>)
    requires forall c :: 0 <= c < |calls| ==> !calls[c].pc.Adding?
    ensures Total(calls, InWindow) == 0
  {
    if calls != [] {
      NoneInWindow(calls[..|calls| - 1]);
    }
  }

  /** The count is the number of launched children whose reaper has not finished, less one
      exactly while the lock owner sits between its launch and its `wg.Add`; it is never
      negative; and `Add` never happens while `Wait` is in progress. */
  lemma {:induction false} WaitGroupAccounting(run: seq<State>, acts: seq<Action>, i: nat)
    requires IsExecution(run, acts) && i < |run|
    ensures var s := run[i];
            && s.wg >= 0
            && s.wg == Total(s.calls, Unfinished)
                 - (if s.lock.ByStart? && s.lock.id < |s.calls| && s.calls[s.lock.id].pc.Adding? then 1 else 0)
    ensures run[i].term.Awaiting? ==>
              forall c :: 0 <= c < |run[i].calls| ==> !OpEnabled(run[i], c, Add)
  {
    var s := run[i];
    InvExecution(run, acts, i);
    forall c | 0 <= c < |s.calls|
      ensures Unfinished(s.calls[c]) == Counted(s.calls[c]) + InWindow(s.calls[c])
    {
      assert CallInv(s.calls[c]);
    }
    TotalSplit(s.calls, Unfinished, Counted, InWindow);
    if s.lock.ByStart? && s.calls[s.lock.id].pc.Adding? {
      var c := s.lock.id;
      var rest := s.calls[c := s.calls[c].(pc := AtLock)];
      TotalUpdate(s.calls, c, s.calls[c].(pc := AtLock), InWindow);
      NoneInWindow(rest);
    } else {
      NoneInWindow(s.calls);
    }
  }

  /** A reaper's send never blocks; every channel carries at most one value, and by the time
      a launched child's `Start` returns exactly one. */
  lemma {:induction false} ExitChannelOnce(run: seq<State>, acts: seq<Action>, i: nat, c: nat)
    requires IsExecution(run, acts) && i < |run| && c < |run[i].calls|
    ensures var k := run[i].calls[c];
            && (k.reaper.Sending? ==> OpEnabled(run[i], c, Send))
            && k.sends <= 1
            && (k.pc.Returned? && !k.child.NoChild? ==> k.sends == 1 && k.exitChan.None?)
            && (k.exitChan.Some? ==> k.sends == 1 && k.child == Reaped(k.exitChan.value))
  {
    InvExecution(run, acts, i);
    assert CallInv(run[i].calls[c]);
  }

  // ------------------------------------------------------------------
  // What Start's results mean
  // ------------------------------------------------------------------

  /** What a result means in terms of the steps taken up to any later time: output is returned only after the
      child's one exit and is all it ever wrote; the error of a completed call is that exit's own, nil for a
      successful one; the SIGTERM error means that the child was sent one signal, after `killAll` was
      closed; the other two errors mean that no child was launched, and the launch error is its own. */
  ghost predicate ResultMeans(r: Result, ops: seq<Op>, killAll: bool) {
    match r
    case ShutdownInProgress =>
      && Count(ops, LaunchOk) == 0 && LaunchErrors(ops) == [] && killAll
      && ErrorOf(r) == Some("Shutdown in progress")
    case LaunchError(e) =>
      && Count(ops, LaunchOk) == 0 && LaunchErrors(ops) == [e]
      && ErrorOf(r) == Some(e)
    case Terminated(out) =>
      && Count(ops, LaunchOk) == 1 && |Exits(ops)| == 1 && Count(ops, Signal) == 1 && killAll && out == Written(ops)
      && ErrorOf(r) == Some("SIGTERM propagated to child process")
    case Completed(out, e) =>
      && Count(ops, LaunchOk) == 1 && Exits(ops) == [e] && Count(ops, Signal) == 0 && out == Written(ops)
      && (ErrorOf(r).None? <==> e.Clean?)
      && (e.Failed? ==> ErrorOf(r) == Some(e.error))
  }

  lemma {:induction false} StartResult(run: seq<State>, acts: seq<Action>, i: nat, j: nat, c: nat)
    requires IsExecution(run, acts) && i <= j < |run|
    requires c < |run[i].calls| && run[i].calls[c].pc.Returned?
    ensures c < |run[j].calls| && run[j].calls[c].pc == run[i].calls[c].pc
    ensures ResultMeans(run[i].calls[c].pc.result, StepsOf(acts[..j], c), run[i].killAll)
  {
    InvExecution(run, acts, i);
    InvExecution(run, acts, j);
    ExtendTrace(run, acts, i, j);
    RecordsTell(run, acts, j, c);
    assert Extends(run[i].calls[c], run[j].calls[c]);
    ReturnedMeans(run[i], run[j].calls[c], c, StepsOf(acts[..j], c));
  }

  lemma ReturnedMeans(s: State, k: Call, c: nat, ops: seq<Op>)
    requires Inv(s) && c < |s.calls| && s.calls[c].pc.Returned?
    requires CallInv(k) && k.pc == s.calls[c].pc && Tells(k, ops)
    ensures ResultMeans(k.pc.result, ops, s.killAll)
  {
    assert CallInv(s.calls[c]) && KillInv(s, s.calls[c]);
  }

  /** Before `Terminate` closes `killAll`, the result is exactly the launch error or the child's own exit with
      all its output. */
  lemma {:induction false} StartResultWithoutTerminate(run: seq<State>, acts: seq<Action>, i: nat, c: nat)
    requires IsExecution(run, acts) && i < |run|
    requires !run[i].killAll
    requires c < |run[i].calls| && run[i].calls[c].pc.Returned?
    ensures var r, ops := run[i].calls[c].pc.result, StepsOf(acts[..i], c);
            || (exists e :: r == LaunchError(e) && LaunchErrors(ops) == [e] && Count(ops, LaunchOk) == 0)
            || (exists e :: r == Completed(Written(ops), e) && Exits(ops) == [e] && Count(ops, Signal) == 0)
  {
    StartResult(run, acts, i, i, c);
  }

  // ------------------------------------------------------------------
  // Lock discipline
  // ------------------------------------------------------------------

  /** A `Start` owns the lock after `killAll` was closed. */
  ghost predicate Leaking(s: State) {
    s.killAll && s.lock.ByStart?
  }

  lemma LeakStep(s: State, a: Action)
    requires Inv(s) && Enabled(s, a) && Leaking(s)
    ensures Leaking(Next(s, a)) && Next(s, a).lock == s.lock
  {
    if a.OfCall? {
      assert KillInv(s, s.calls[a.c]);
    }
  }

  /** From then on that `Start` owns the lock for ever, and every call that is waiting for the
      lock, or arrives later, waits for ever. */
  lemma {:induction false} LeakForever(run: seq<State>, acts: seq<Action>, j: nat)
    requires IsTrace(run, acts) && Inv(run[0]) && Leaking(run[0]) && j < |run|
    ensures run[j].lock == run[0].lock && run[j].killAll
    ensures |run[0].calls| <= |run[j].calls|
    ensures forall d :: 0 <= d < |run[j].calls| && (d >= |run[0].calls| || run[0].calls[d].pc.AtLock?) ==>
              run[j].calls[d].pc.AtLock?
    decreases j
  {
    if j > 0 {
      LeakForever(run, acts, j - 1);
      InvTrace(run, acts, j - 1);
      LeakStep(run[j - 1], acts[j - 1]);
    }
  }

  /** The lock is held by a `Start` between lines 38 and 52 or 56, by `Terminate` between lines
      74 and 77, or by a `Start` that returned on the shutdown path, and by nobody else. */
  lemma {:induction false} LockDiscipline(run: seq<State>, acts: seq<Action>, i: nat)
    requires IsExecution(run, acts) && i < |run|
    ensures var s := run[i];
            s.lock.ByTerminate? <==> s.term.Closing? || s.term.Awaiting? || s.term.Unlocking?
    ensures var s := run[i];
            match s.lock
            case Free => (forall c :: 0 <= c < |s.calls| ==> !HoldsLock(s.calls[c].pc))
            case ByTerminate => (forall c :: 0 <= c < |s.calls| ==> !HoldsLock(s.calls[c].pc))
            case ByStart(c) =>
              && c < |s.calls| && HoldsLock(s.calls[c].pc)
              && (forall d :: 0 <= d < |s.calls| && d != c ==> !HoldsLock(s.calls[d].pc))
              && (s.killAll ==> s.term.Gone? && (s.calls[c].pc.Checking? || s.calls[c].pc == Returned(ShutdownInProgress)))
  {
    InvExecution(run, acts, i);
    var s := run[i];
    if s.lock.ByStart? {
      assert KillInv(s, s.calls[s.lock.id]);
    }
  }

  /** In any execution at most one `Start` returns "Shutdown in progress". */
  lemma {:induction false} AtMostOneShutdownReturn(run: seq<State>, acts: seq<Action>, i: nat, j: nat, c: nat, d: nat)
    requires IsExecution(run, acts) && i <= j < |run|
    requires c < |run[i].calls| && run[i].calls[c].pc == Returned(ShutdownInProgress)
    requires d < |run[j].calls| && run[j].calls[d].pc == Returned(ShutdownInProgress)
    ensures c == d
  {
    InvExecution(run, acts, i);
    InvExecution(run, acts, j);
    ExtendTrace(run, acts, i, j);
    assert Extends(run[i].calls[c], run[j].calls[c]);
    assert run[j].lock == ByStart(c) && run[j].lock == ByStart(d);
  }
}
