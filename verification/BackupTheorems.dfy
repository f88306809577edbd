/** The promises of concurrent backup runs, stated over whole histories. */
module BackupTheorems {
  import opened Options
  import opened Totals
  import opened ProcessManager
  import opened ProcessSafety
  import opened ProcessTraces
  import opened MultiUploader
  import opened BackupRuns
  import opened BackupSafety
  import opened BackupTraces

  /** A `Start` call without error ran a child that exited successfully and is reaped. */
  lemma SucceededIsClean(m: State, c: nat)
    requires Inv(m) && Succeeded(m, c)
    ensures m.calls[c].child == Reaped(Clean)
  {
    assert CallInv(m.calls[c]);
  }

  lemma CopiesClean(cfg: Config, m: State, run: Run, d: nat)
    requires Inv(m) && RunInv(cfg, m, run) && d < |run.uploads|
    requires cfg.destinations[d].Scp? && run.uploads[d].outcome.None?
    ensures |run.uploads[d].copies| == |run.uploads[d].planned|
    ensures forall i :: 0 <= i < |run.uploads[d].copies| ==>
              var c := run.uploads[d].copies[i];
              c < |m.calls| && m.calls[c].child == Reaped(Clean)
  {
    var copies := run.uploads[d].copies;
    assert UploadInv(m, cfg.destinations[d], run.uploads[d]);
    forall i | 0 <= i < |copies| ensures copies[i] < |m.calls| && m.calls[copies[i]].child == Reaped(Clean) {
      SucceededIsClean(m, copies[i]);
    }
  }

  lemma CleanupBackedUp(cfg: Config, w: World, k: nat)
    requires WorldInv(cfg, w) && k < |w.purposes| && w.purposes[k].ForCleanup?
    ensures w.purposes[k].run < |w.runs| && BackedUp(cfg, w.m, w.runs[w.purposes[k].run]) && cfg.hasCleanup
    ensures w.runs[w.purposes[k].run].cleanup == Some(k) && w.runs[w.purposes[k].run].copies == []
  {
    assert Owned(w, k);
    assert RunInv(cfg, w.m, w.runs[w.purposes[k].run]);
  }

  /** Destructive cleanup: whatever runs and `Terminate` do at any moment, if a cleanup child was
      ever asked for on behalf of run `r`, then in that same run every destination's upload
      returned nil, the source command was absent or its child took one exit, a successful one, and so did
      the child of every SCP copy; and it is that run's only cleanup. */
  lemma {:induction false} CleanupSafety(cfg: Config, ws: seq<World>, acts: seq<Act>, i: nat, k: nat)
    requires IsHistory(cfg, ws, acts) && i < |ws|
    requires k < |ws[i].purposes| && ws[i].purposes[k].ForCleanup?
    ensures var w := ws[i]; var r := w.purposes[k].run;
            && r < |w.runs| && |w.purposes| == |w.m.calls|
            && |w.runs[r].uploads| == |cfg.destinations|
            && (forall d :: 0 <= d < |cfg.destinations| ==> w.runs[r].uploads[d].outcome.None?)
            && (cfg.hasSource ==> exists c :: 0 <= c < |w.purposes| && w.purposes[c] == ForSource(r))
            && (forall c :: 0 <= c < |w.purposes| && (w.purposes[c] == ForSource(r) || (w.purposes[c].ForCopy? && w.purposes[c].run == r)) ==>
                  w.m.calls[c].child == Reaped(Clean) && Exits(CallSteps(acts[..i], c)) == [Clean])
            && (forall c :: 0 <= c < |w.purposes| && w.purposes[c] == ForCleanup(r) ==> c == k)
  {
    HistoryInv(cfg, ws, acts, i);
    var w := ws[i];
    CleanupBackedUp(cfg, w, k);
    var r := w.purposes[k].run;
    var run := w.runs[r];
    assert RunInv(cfg, w.m, run) && Labelled(w, r);
    forall c | 0 <= c < |w.purposes| && (w.purposes[c] == ForSource(r) || (w.purposes[c].ForCopy? && w.purposes[c].run == r))
      ensures w.m.calls[c].child == Reaped(Clean) && Exits(CallSteps(acts[..i], c)) == [Clean]
    {
      assert Owned(w, c);
      CallsTell(cfg, ws, acts, i, c);
      if w.purposes[c].ForCopy? {
        CopyIsClean(cfg, w, run, w.purposes[c].dest, c);
      } else {
        SucceededIsClean(w.m, c);
      }
    }
    forall c | 0 <= c < |w.purposes| && w.purposes[c] == ForCleanup(r) ensures c == k {
      assert Owned(w, c);
    }
  }

  lemma CopyIsClean(cfg: Config, w: World, run: Run, d: nat, c: nat)
    requires Inv(w.m) && RunInv(cfg, w.m, run) && BackedUp(cfg, w.m, run) && run.copies == []
    requires c in CopiesOf(run, d)
    ensures c < |w.m.calls| && w.m.calls[c].child == Reaped(Clean)
  {
    assert UploadInv(w.m, cfg.destinations[d], run.uploads[d]);
    CopiesClean(cfg, w.m, run, d);
  }

  /** With `exit_if_in_progress` set, at most one run is between admission and `doneBackup`, and the
      flag is set exactly when one is. */
  lemma {:induction false} AdmissionExclusion(cfg: Config, ws: seq<World>, acts: seq<Act>, i: nat)
    requires IsHistory(cfg, ws, acts) && i < |ws| && cfg.exitIfInProgress
    ensures var w := ws[i];
            && (forall p, q :: 0 <= p < |w.runs| && 0 <= q < |w.runs| && Active(w.runs[p]) && Active(w.runs[q]) ==> p == q)
            && (w.inProgress <==> exists p :: 0 <= p < |w.runs| && Active(w.runs[p]))
  {
    HistoryInv(cfg, ws, acts, i);
    OneActive(cfg, ws[i]);
  }

  lemma OneActive(cfg: Config, w: World)
    requires AdmissionInv(cfg, w) && cfg.exitIfInProgress
    ensures forall p, q :: 0 <= p < |w.runs| && 0 <= q < |w.runs| && Active(w.runs[p]) && Active(w.runs[q]) ==> p == q
    ensures w.inProgress <==> exists p :: 0 <= p < |w.runs| && Active(w.runs[p])
  {
    forall p, q | 0 <= p < q < |w.runs| && Active(w.runs[p]) && Active(w.runs[q]) ensures false {
      TotalAtLeastTwo(w.runs, p, q, ActiveCount);
    }
    if w.inProgress {
      var p := TotalWitness(w.runs, ActiveCount);
    } else if p :| 0 <= p < |w.runs| && Active(w.runs[p]) {
      TotalAtLeast(w.runs, p, ActiveCount);
    }
  }

  /** Then also at most one child process is alive or unreaped in the whole program, over all runs
      and all three purposes. */
  lemma {:induction false} OneChildAtATime(cfg: Config, ws: seq<World>, acts: seq<Act>, i: nat, c: nat, d: nat)
    requires IsHistory(cfg, ws, acts) && i < |ws| && cfg.exitIfInProgress
    requires c < |ws[i].m.calls| && d < |ws[i].m.calls|
    requires ws[i].m.calls[c].child.Running? || ws[i].m.calls[c].child.Exited?
    requires ws[i].m.calls[d].child.Running? || ws[i].m.calls[d].child.Exited?
    ensures c == d
  {
    HistoryInv(cfg, ws, acts, i);
    var w := ws[i];
    OneActive(cfg, w);
    UnreapedIsAwaited(cfg, w, c);
    UnreapedIsAwaited(cfg, w, d);
  }

  lemma UnreapedIsAwaited(cfg: Config, w: World, c: nat)
    requires WorldInv(cfg, w) && c < |w.m.calls|
    requires w.m.calls[c].child.Running? || w.m.calls[c].child.Exited?
    ensures w.purposes[c].run < |w.runs|
    ensures Active(w.runs[w.purposes[c].run]) && Awaited(w.runs[w.purposes[c].run]) == Some(c)
  {
    assert CallInv(w.m.calls[c]);
    assert Owned(w, c);
  }

  /** The flag goes down only when a run that was admitted gives it back: a rejected run, having
      left without the deferred `doneBackup`, never clears it. */
  lemma {:induction false} RejectedNeverClears(cfg: Config, ws: seq<World>, acts: seq<Act>, i: nat, j: nat, r: nat)
    requires IsHistory(cfg, ws, acts) && i <= j < |acts|
    requires r < |ws[i].runs| && (ws[i].runs[r].phase.Reporting? || ws[i].runs[r].phase.Reported?)
    ensures r < |ws[j].runs| && (ws[j].runs[r].phase.Reporting? || ws[j].runs[r].phase.Reported?)
    ensures ws[j].inProgress && !ws[j + 1].inProgress ==>
              acts[j].OfRun? && acts[j].r != r && acts[j].op.GiveBack? && Active(ws[j].runs[acts[j].r])
    decreases j
  {
    if i < j {
      RejectedNeverClears(cfg, ws, acts, i, j - 1, r);
      LeftStays(cfg, ws[j - 1], acts[j - 1], r);
    }
    LeftStays(cfg, ws[j], acts[j], r);
  }

  /** A run that has left stays so, and steps of others lower the flag only by giving it back. */
  lemma LeftStays(cfg: Config, w: World, a: Act, r: nat)
    requires ActEnabled(cfg, w, a)
    requires r < |w.runs| && (w.runs[r].phase.Reporting? || w.runs[r].phase.Reported?)
    ensures var w' := WorldNext(cfg, w, a);
            && r < |w'.runs| && (w'.runs[r].phase.Reporting? || w'.runs[r].phase.Reported?)
            && (w.inProgress && !w'.inProgress ==> a.OfRun? && a.r != r && a.op.GiveBack? && Active(w.runs[a.r]))
  {
  }

  /** With the option unset no run is rejected: every failed run was admitted and failed in its
      source command or its uploads; and the flag set means some run is active. */
  lemma {:induction false} NobodyRejected(cfg: Config, ws: seq<World>, acts: seq<Act>, i: nat, r: nat)
    requires IsHistory(cfg, ws, acts) && i < |ws| && !cfg.exitIfInProgress && r < |ws[i].runs|
    ensures var w := ws[i]; var run := w.runs[r];
            && ((run.phase.Leaving? || run.phase.Reporting? || run.phase.Reported?) && run.phase.err.Some? ==>
                  || (run.source.Some? && HasReturned(w.m, run.source.value)
                      && ErrorOf(w.m.calls[run.source.value].pc.result) == Some(run.phase.err.value.message))
                  || FormattedError(Failures(UploadOutcomes(run.uploads))) == Some(run.phase.err.value.message))
            && (w.inProgress ==> exists p :: 0 <= p < |w.runs| && Active(w.runs[p]))
  {
    HistoryInv(cfg, ws, acts, i);
    var w := ws[i];
    assert RunInv(cfg, w.m, w.runs[r]);
    if w.inProgress {
      var p := TotalWitness(w.runs, ActiveCount);
    }
  }

  /** The message of a failed run is that of its rejection, the error of its source command, with what that
      command's child did, or the joined errors of the uploads. */
  ghost predicate FailedBecause(cfg: Config, w: World, acts: seq<Act>, run: Run, message: string) {
    || (cfg.exitIfInProgress && run.source.None? && run.uploads == []
        && message == "Backup currently in progress, exiting. Another backup will not be able to start until this is completed.")
    || (run.source.Some? && HasReturned(w.m, run.source.value)
        && var result := w.m.calls[run.source.value].pc.result;
           ErrorOf(result) == Some(message) && ResultMeans(result, CallSteps(acts, run.source.value), w.m.killAll))
    || (|run.uploads| == |cfg.destinations| && Some(message) == FormattedError(Failures(UploadOutcomes(run.uploads))))
  }

  /** Every failed run reports a `ServiceInstanceError` carrying the identifier the service gave for it, whose
      message says why; and it asked for no cleanup. */
  lemma {:induction false} FailureExplained(cfg: Config, ws: seq<World>, acts: seq<Act>, i: nat, r: nat)
    requires IsHistory(cfg, ws, acts) && i < |ws| && r < |ws[i].runs|
    requires var p := ws[i].runs[r].phase; (p.Leaving? || p.Reporting? || p.Reported?) && p.err.Some?
    ensures var e := ws[i].runs[r].phase.err.value;
            && Identifiers(RunSteps(acts[..i], r)) == [e.instanceId]
            && FailedBecause(cfg, ws[i], acts[..i], ws[i].runs[r], e.message)
    ensures forall c :: 0 <= c < |ws[i].purposes| ==> ws[i].purposes[c] != ForCleanup(r)
  {
    HistoryInv(cfg, ws, acts, i);
    var w := ws[i];
    var run := w.runs[r];
    assert RunInv(cfg, w.m, run);
    RunsTell(cfg, ws, acts, i, r);
    if run.source.Some? && HasReturned(w.m, run.source.value) {
      CallResult(cfg, ws, acts, i, run.source.value);
    }
    forall c | 0 <= c < |w.purposes| ensures w.purposes[c] != ForCleanup(r) {
      assert Owned(w, c);
    }
  }

  /** The `k`-th copy of an upload to destination `d` was asked for as a copy of the `k`-th entry listed. */
  ghost predicate CopyOf(w: World, r: nat, d: nat, u: Upload, k: nat)
    requires k < |u.copies|
  {
    var c := u.copies[k];
    c < |w.purposes| && c < |w.m.calls| && k < |u.planned| && w.purposes[c] == ForCopy(r, d, u.planned[k])
  }

  /** The child of call `c` took one exit, a successful one. */
  ghost predicate ExitedCleanly(acts: seq<Act>, c: nat) {
    Exits(CallSteps(acts, c)) == [Clean]
  }

  /** What a failed copy is reported as: the error and the output of its `Start` call. */
  ghost predicate CopyReported(result: Result, outcome: Option<Error>) {
    && ErrorOf(result).Some?
    && outcome == Some(Error("error performing SCP: " + ErrorOf(result).value + ", output: "
                             + match result case Terminated(out) => out case Completed(out, _) => out case _ => ""))
  }

  /** One destination after another: an SCP upload worked on the entries it listed, one copy for each in their
      order.  Nil means that there was a copy for every entry and the child of each exited successfully; a
      failure while copying is that of the last copy, reported with its error and output, every earlier
      entry being copied and no later one tried. */
  lemma {:induction false} ScpUpload(cfg: Config, ws: seq<World>, acts: seq<Act>, i: nat, r: nat, d: nat)
    requires IsHistory(cfg, ws, acts) && i < |ws| && r < |ws[i].runs| && d < |ws[i].runs[r].uploads|
    ensures d < |cfg.destinations| && d < |Answers(RunSteps(acts[..i], r))|
    ensures var w := ws[i]; var u := w.runs[r].uploads[d]; var answer := Answers(RunSteps(acts[..i], r))[d];
            cfg.destinations[d].Scp? ==>
              && (answer == PrepareScp(u.planned) || (answer.PrepareFails? && u == Upload(Some(answer.error), [], [])))
              && (forall k: nat :: k < |u.copies| ==>
                    && CopyOf(w, r, d, u, k)
                    && (k < |u.copies| - 1 || u.outcome.None? ==> ExitedCleanly(acts[..i], u.copies[k])))
              && (u.outcome.None? ==> |u.copies| == |u.planned|)
              && (u.outcome.Some? && u.copies != [] ==>
                    && HasReturned(w.m, u.copies[|u.copies| - 1])
                    && CopyReported(w.m.calls[u.copies[|u.copies| - 1]].pc.result, u.outcome))
  {
    HistoryInv(cfg, ws, acts, i);
    RunsTell(cfg, ws, acts, i, r);
    var w := ws[i];
    var run := w.runs[r];
    var u := run.uploads[d];
    assert RunInv(cfg, w.m, run) && Labelled(w, r);
    assert UploadInv(w.m, cfg.destinations[d], u);
    assert UploadTells(cfg.destinations[d], u, Answers(RunSteps(acts[..i], r))[d]);
    if cfg.destinations[d].Scp? {
      forall k: nat | k < |u.copies|
        ensures CopyOf(w, r, d, u, k)
        ensures k < |u.copies| - 1 || u.outcome.None? ==> ExitedCleanly(acts[..i], u.copies[k])
      {
        assert CopiesOf(run, d) == u.copies && CopyLabelled(w, r, d, k);
        if k < |u.copies| - 1 || u.outcome.None? {
          CopySucceeded(w.m, u, k);
          SucceededIsClean(w.m, u.copies[k]);
          CallsTell(cfg, ws, acts, i, u.copies[k]);
        }
      }
    }
  }

  lemma CopySucceeded(m: State, u: Upload, k: nat)
    requires UploadInv(m, Scp, u) && k < |u.copies| && (k < |u.copies| - 1 || u.outcome.None?)
    ensures Succeeded(m, u.copies[k])
  {
    if u.outcome.Some? {
      assert u.copies[..|u.copies| - 1][k] == u.copies[k];
    }
  }

  /** Over any sequence of firings, the alerts sent are as many as the failed runs reported when a
      client is configured and none otherwise; each names the run's identifier and error, and no run
      is alerted twice. */
  lemma {:induction false} AlertsMatchFailures(cfg: Config, ws: seq<World>, acts: seq<Act>, i: nat)
    requires IsHistory(cfg, ws, acts) && i < |ws|
    ensures var w := ws[i];
            && |w.alerts| == (if cfg.alertsConfigured then Total(w.runs, FailedAndReported) else 0)
            && (forall a :: 0 <= a < |w.alerts| ==> AlertOk(w, w.alerts[a]))
            && (forall a, b :: 0 <= a < b < |w.alerts| ==> w.alerts[a].run != w.alerts[b].run)
  {
    HistoryInv(cfg, ws, acts, i);
  }

  /** Once `Terminate` has returned, no run launches a child for any purpose, and every child any run
      ever had was reaped by then. */
  lemma {:induction false} NoChildAfterTerminate(cfg: Config, ws: seq<World>, acts: seq<Act>, i: nat, j: nat, c: nat)
    requires IsHistory(cfg, ws, acts) && i <= j < |ws| && ws[i].m.term.Gone?
    requires c < |ws[j].m.calls| && !ws[j].m.calls[c].child.NoChild?
    ensures c < |ws[i].m.calls| && ws[i].m.calls[c].child.Reaped?
  {
    GoneHistory(cfg, ws, acts, i, j);
    ManagerInv(cfg, ws, acts, i);
    assert CallInv(ws[i].m.calls[c]) && KillInv(ws[i].m, ws[i].m.calls[c]);
  }

  lemma {:induction false} GoneHistory(cfg: Config, ws: seq<World>, acts: seq<Act>, i: nat, j: nat)
    requires IsHistory(cfg, ws, acts) && i <= j < |ws| && ws[i].m.term.Gone?
    ensures ws[j].m.term.Gone? && NoNewChildren(ws[i].m, ws[j].m)
    decreases j
  {
    if i < j {
      GoneHistory(cfg, ws, acts, i, j - 1);
      GoneNext(cfg, ws, acts, j - 1);
      NoNewChildrenTrans(ws[i].m, ws[j - 1].m, ws[j].m);
    }
  }

  lemma GoneNext(cfg: Config, ws: seq<World>, acts: seq<Act>, k: nat)
    requires IsHistory(cfg, ws, acts) && k < |acts| && ws[k].m.term.Gone?
    ensures ws[k + 1].m.term.Gone? && NoNewChildren(ws[k].m, ws[k + 1].m)
  {
    ManagerInv(cfg, ws, acts, k);
    ManagerMoves(cfg, ws[k], acts[k]);
  }

  lemma ManagerMoves(cfg: Config, w: World, a: Act)
    requires Inv(w.m) && ActEnabled(cfg, w, a) && w.m.term.Gone?
    ensures var m' := WorldNext(cfg, w, a).m; m'.term.Gone? && NoNewChildren(w.m, m')
  {
    GoneStep(w.m, Begin);
    if a.OfManager? {
      GoneStep(w.m, a.a);
    }
  }

  /** A run can move exactly when it has not reported yet and waits for no `Start` call that is still under
      way. */
  lemma {:induction false} RunMoves(cfg: Config, ws: seq<World>, acts: seq<Act>, i: nat, r: nat)
    requires IsHistory(cfg, ws, acts) && i < |ws| && r < |ws[i].runs|
    ensures var w := ws[i]; var run := w.runs[r];
            (exists op :: ActEnabled(cfg, w, OfRun(r, op)))
            <==> !run.phase.Reported? && (Awaited(run).Some? ==> HasReturned(w.m, Awaited(run).value))
  {
    HistoryInv(cfg, ws, acts, i);
    var w := ws[i];
    assert RunInv(cfg, w.m, w.runs[r]);
    if !w.runs[r].phase.Reported? && (Awaited(w.runs[r]).Some? ==> HasReturned(w.m, Awaited(w.runs[r]).value)) {
      var op := NextOp(cfg, w.m, w.runs[r]);
      assert ActEnabled(cfg, w, OfRun(r, op));
    }
  }

  lemma NextOp(cfg: Config, m: State, run: Run) returns (op: RunOp)
    requires RunInv(cfg, m, run) && !run.phase.Reported?
    requires Awaited(run).Some? ==> HasReturned(m, Awaited(run).value)
    ensures RunEnabled(cfg, m, run, op)
  {
    match run.phase
    case Identifying => op := Identify("");
    case Admitting => op := Admit;
    case SourcePending => op := BeginSource;
    case AwaitSource => op := EndSource;
    case Uploading =>
      var d := |run.uploads|;
      op := if d == |cfg.destinations| then JoinErrors
            else if cfg.destinations[d].Library? then UploadLibrary(None) else PrepareScp([]);
    case Copying => op := BeginCopy;
    case AwaitCopy => op := EndCopy;
    case CleanupPending => op := BeginCleanup;
    case AwaitCleanup => op := EndCleanup;
    case Leaving(_) => op := GiveBack;
    case Reporting(_) => op := Report;
  }
}
