/** What holds in every history of concurrent backup runs, `Terminate` included. */
module BackupSafety {
  import opened Options
  import opened Totals
  import opened ProcessManager
  import opened ProcessSafety
  import opened MultiUploader
  import opened BackupRuns

  // ------------------------------------------------------------------
  // One run's step keeps that run's invariant
  // ------------------------------------------------------------------

  lemma RecordInv(cfg: Config, m: State, run: Run, outcome: Option<Error>)
    requires UploadsInv(cfg, m, run) && SourceOk(cfg, m, run) && run.cleanup.None?
    requires |run.uploads| < |cfg.destinations|
    requires UploadInv(m, cfg.destinations[|run.uploads|], Upload(outcome, run.planned, run.copies))
    ensures RunInv(cfg, m, Record(run, outcome))
  {
  }

  lemma EndCopyStep(cfg: Config, w: World, run: Run)
    requires RunInv(cfg, w.m, run) && RunEnabled(cfg, w.m, run, EndCopy)
    ensures RunInv(cfg, w.m, RunNext(cfg, w, run, EndCopy))
  {
    var n := |run.copies| - 1;
    assert run.copies == run.copies[..n] + [run.copies[n]];
    var result := AwaitedResult(w.m, run);
    match ErrorOf(result)
    case None => assert Succeeded(w.m, run.copies[n]);
    case Some(e) =>
      assert HasFailed(w.m, run.copies[n]);
      RecordInv(cfg, w.m, run, Some(CopyError(result, e)));
  }

  /** The steps that neither start a manager call nor finish an upload. */
  lemma PlainStep(cfg: Config, w: World, run: Run, op: RunOp)
    requires RunInv(cfg, w.m, run) && RunEnabled(cfg, w.m, run, op)
    requires op.Identify? || op.Admit? || op.EndSource? || op.PrepareScp? || op.EndCleanup? || op.GiveBack? || op.Report?
    ensures RunInv(cfg, w.m, RunNext(cfg, w, run, op))
  {
  }

  lemma LaunchCopy(cfg: Config, w: World, m': State, run: Run)
    requires RunInv(cfg, m', run) && run.phase.Copying? && |run.copies| < |run.planned| && |w.m.calls| < |m'.calls|
    ensures RunInv(cfg, m', RunNext(cfg, w, run, BeginCopy))
  {
    assert (run.copies + [|w.m.calls|])[..|run.copies|] == run.copies;
  }

  /** Starting a manager call. */
  lemma LaunchStep(cfg: Config, w: World, run: Run, op: RunOp)
    requires Inv(w.m) && RunInv(cfg, w.m, run) && RunEnabled(cfg, w.m, run, op)
    requires Launches(cfg, 0, run, op).Some?
    ensures RunInv(cfg, Next(w.m, Begin), RunNext(cfg, w, run, op))
  {
    ExtendStep(w.m, Begin);
    RunStable(cfg, w.m, Next(w.m, Begin), run);
    if op.BeginCopy? {
      LaunchCopy(cfg, w, Next(w.m, Begin), run);
    }
  }

  lemma NoLaunchStep(cfg: Config, w: World, run: Run, op: RunOp)
    requires RunInv(cfg, w.m, run) && RunEnabled(cfg, w.m, run, op)
    requires Launches(cfg, 0, run, op).None?
    ensures RunInv(cfg, w.m, RunNext(cfg, w, run, op))
  {
    match op
    case BeginSource =>
    case BeginCleanup =>
    case BeginCopy => RecordInv(cfg, w.m, run, None);
    case EndCopy => EndCopyStep(cfg, w, run);
    case UploadLibrary(o) => RecordInv(cfg, w.m, run, o);
    case PrepareFails(e) => RecordInv(cfg, w.m, run, Some(e));
    case JoinErrors => JoinStep(cfg, w, run);
    case _ => PlainStep(cfg, w, run, op);
  }

  lemma RunInvStep(cfg: Config, w: World, r: nat, op: RunOp)
    requires r < |w.runs| && Inv(w.m)
    requires RunInv(cfg, w.m, w.runs[r]) && RunEnabled(cfg, w.m, w.runs[r], op)
    ensures var w' := WorldNext(cfg, w, OfRun(r, op));
            CallsExtend(w.m, w'.m) && RunInv(cfg, w'.m, w'.runs[r])
  {
    ExtendStep(w.m, Begin);
    if Launches(cfg, r, w.runs[r], op).Some? {
      LaunchStep(cfg, w, w.runs[r], op);
    } else {
      NoLaunchStep(cfg, w, w.runs[r], op);
    }
  }

  lemma JoinStep(cfg: Config, w: World, run: Run)
    requires RunInv(cfg, w.m, run) && RunEnabled(cfg, w.m, run, JoinErrors)
    ensures RunInv(cfg, w.m, RunNext(cfg, w, run, JoinErrors))
  {
    var outcomes := UploadOutcomes(run.uploads);
    NilIffAllNil(outcomes);
    if FormattedError(Failures(outcomes)).None? {
      forall d | 0 <= d < |run.uploads| ensures run.uploads[d].outcome.None? {
        assert outcomes[d].None?;
      }
    }
  }

  // ------------------------------------------------------------------
  // Which run owns which manager call
  // ------------------------------------------------------------------

  /** The copies a run has made so far for one destination. */
  function CopiesOf(run: Run, d: nat): seq<nat> {
    if d < |run.uploads| then run.uploads[d].copies
    else if d == |run.uploads| then run.copies
    else []
  }

  /** The entries the run listed for it. */
  function PlannedOf(run: Run, d: nat): seq<string> {
    if d < |run.uploads| then run.uploads[d].planned
    else if d == |run.uploads| then run.planned
    else []
  }

  predicate RunHolds(run: Run, p: Purpose, c: nat) {
    match p
    case ForSource(_) => run.source == Some(c)
    case ForCopy(_, d, _) => c in CopiesOf(run, d)
    case ForCleanup(_) => run.cleanup == Some(c)
  }

  /** Call `c` belongs to the run it was made for, and that run waits for it until it returns. */
  ghost predicate Owned(w: World, c: nat)
    requires c < |w.m.calls| && c < |w.purposes|
  {
    var p := w.purposes[c];
    && p.run < |w.runs|
    && RunHolds(w.runs[p.run], p, c)
    && (!w.m.calls[c].pc.Returned? ==> Awaited(w.runs[p.run]) == Some(c))
  }

  /** A run never lets go of a call, and stops waiting only for one that has returned. */
  lemma RunKeeps(cfg: Config, w: World, r: nat, op: RunOp, p: Purpose, c: nat)
    requires r < |w.runs| && Inv(w.m) && RunInv(cfg, w.m, w.runs[r]) && RunEnabled(cfg, w.m, w.runs[r], op)
    requires RunHolds(w.runs[r], p, c)
    requires !HasReturned(w.m, c) ==> Awaited(w.runs[r]) == Some(c)
    ensures var run' := RunNext(cfg, w, w.runs[r], op);
            && RunHolds(run', p, c)
            && (!HasReturned(w.m, c) ==> Awaited(run') == Some(c))
  {
  }

  lemma NewCallOwned(cfg: Config, w: World, r: nat, op: RunOp)
    requires r < |w.runs| && RunInv(cfg, w.m, w.runs[r]) && RunEnabled(cfg, w.m, w.runs[r], op)
    requires Launches(cfg, r, w.runs[r], op).Some?
    ensures var run' := RunNext(cfg, w, w.runs[r], op);
            var p := Launches(cfg, r, w.runs[r], op).value;
            p.run == r && RunHolds(run', p, |w.m.calls|) && Awaited(run') == Some(|w.m.calls|)
  {
    if op.BeginCopy? {
      assert RunNext(cfg, w, w.runs[r], op).copies[|w.runs[r].copies|] == |w.m.calls|;
    }
  }

  /** The `i`-th copy for a destination is recorded as made for the `i`-th entry listed. */
  ghost predicate CopyLabelled(w: World, r: nat, d: nat, i: nat)
    requires r < |w.runs| && i < |CopiesOf(w.runs[r], d)|
  {
    var c := CopiesOf(w.runs[r], d)[i];
    && c < |w.purposes| && i < |PlannedOf(w.runs[r], d)|
    && w.purposes[c] == ForCopy(r, d, PlannedOf(w.runs[r], d)[i])
  }

  /** Conversely, every call a run holds is recorded as made for that run and that purpose. */
  ghost predicate Labelled(w: World, r: nat)
    requires r < |w.runs|
  {
    var run := w.runs[r];
    && (run.source.Some? ==> run.source.value < |w.purposes| && w.purposes[run.source.value] == ForSource(r))
    && (run.cleanup.Some? ==> run.cleanup.value < |w.purposes| && w.purposes[run.cleanup.value] == ForCleanup(r))
    && forall d: nat, i: nat :: i < |CopiesOf(run, d)| ==> CopyLabelled(w, r, d, i)
  }

  /** A step adds at most the new call to the copies, and only for the destination being served. */
  lemma CopiesStep(cfg: Config, w: World, run: Run, op: RunOp, d: nat)
    requires RunInv(cfg, w.m, run) && RunEnabled(cfg, w.m, run, op)
    ensures CopiesOf(RunNext(cfg, w, run, op), d)
         == CopiesOf(run, d) + (if op.BeginCopy? && |run.copies| < |run.planned| && d == |run.uploads| then [|w.m.calls|] else [])
  {
  }

  /** The list stays while it is being worked off. */
  lemma PlannedStep(cfg: Config, w: World, run: Run, op: RunOp, d: nat)
    requires RunInv(cfg, w.m, run) && RunEnabled(cfg, w.m, run, op)
    ensures CopiesOf(RunNext(cfg, w, run, op), d) != [] ==> PlannedOf(RunNext(cfg, w, run, op), d) == PlannedOf(run, d)
  {
  }

  lemma LabelledStep(cfg: Config, w: World, r: nat, op: RunOp)
    requires r < |w.runs| && RunInv(cfg, w.m, w.runs[r]) && RunEnabled(cfg, w.m, w.runs[r], op)
    requires |w.purposes| == |w.m.calls| && Labelled(w, r)
    ensures Labelled(WorldNext(cfg, w, OfRun(r, op)), r)
  {
    var run := w.runs[r];
    var w' := WorldNext(cfg, w, OfRun(r, op));
    var run' := w'.runs[r];
    forall d: nat, i: nat | i < |CopiesOf(run', d)| ensures CopyLabelled(w', r, d, i) {
      CopiesStep(cfg, w, run, op, d);
      PlannedStep(cfg, w, run, op, d);
      assert i < |CopiesOf(run, d)| ==> CopyLabelled(w, r, d, i);
    }
  }

  lemma LabelledKept(w: World, w': World, r: nat)
    requires r < |w.runs| && r < |w'.runs| && w'.runs[r] == w.runs[r] && w.purposes <= w'.purposes
    requires Labelled(w, r)
    ensures Labelled(w', r)
  {
    forall d: nat, i: nat | i < |CopiesOf(w'.runs[r], d)| ensures CopyLabelled(w', r, d, i) {
      assert CopyLabelled(w, r, d, i);
    }
  }

  // ------------------------------------------------------------------
  // Admission and alerts
  // ------------------------------------------------------------------

  /** Between admission and `doneBackup`. */
  predicate Active(run: Run) {
    !(run.phase.Identifying? || run.phase.Admitting? || run.phase.Reporting? || run.phase.Reported?)
  }

  function ActiveCount(run: Run): nat {
    if Active(run) then 1 else 0
  }

  ghost predicate AdmissionInv(cfg: Config, w: World) {
    && (cfg.exitIfInProgress ==> Total(w.runs, ActiveCount) == if w.inProgress then 1 else 0)
    && (w.inProgress ==> Total(w.runs, ActiveCount) > 0)
  }

  /** The job closure has dealt with a failed run. */
  function FailedAndReported(run: Run): nat {
    if run.phase.Reported? && run.phase.err.Some? then 1 else 0
  }

  ghost predicate AlertOk(w: World, a: Alert) {
    && a.run < |w.runs|
    && var run := w.runs[a.run];
       && run.phase.Reported? && run.phase.err.Some?
       && a.instanceId == run.id
       && a.content == "A backup run has failed with the following error: " + run.phase.err.value.message
  }

  ghost predicate AlertsInv(cfg: Config, w: World) {
    && |w.alerts| == (if cfg.alertsConfigured then Total(w.runs, FailedAndReported) else 0)
    && (forall i :: 0 <= i < |w.alerts| ==> AlertOk(w, w.alerts[i]))
    && (forall i, j :: 0 <= i < j < |w.alerts| ==> w.alerts[i].run != w.alerts[j].run)
  }

  ghost predicate WorldInv(cfg: Config, w: World) {
    && Inv(w.m)
    && |w.purposes| == |w.m.calls|
    && (forall c :: 0 <= c < |w.m.calls| ==> Owned(w, c))
    && (forall r :: 0 <= r < |w.runs| ==> RunInv(cfg, w.m, w.runs[r]) && Labelled(w, r))
    && AdmissionInv(cfg, w)
    && AlertsInv(cfg, w)
  }

  lemma OwnedStep(cfg: Config, w: World, r: nat, op: RunOp)
    requires WorldInv(cfg, w) && ActEnabled(cfg, w, OfRun(r, op))
    ensures var w' := WorldNext(cfg, w, OfRun(r, op));
            && |w'.purposes| == |w'.m.calls|
            && forall c :: 0 <= c < |w'.m.calls| ==> Owned(w', c)
  {
    var w' := WorldNext(cfg, w, OfRun(r, op));
    forall c | 0 <= c < |w'.m.calls|
      ensures Owned(w', c)
    {
      if c == |w.m.calls| {
        NewCallOwned(cfg, w, r, op);
      } else {
        assert Owned(w, c);
        if w.purposes[c].run == r {
          RunKeeps(cfg, w, r, op, w.purposes[c], c);
        }
      }
    }
  }

  lemma AdmissionStep(cfg: Config, w: World, r: nat, op: RunOp)
    requires WorldInv(cfg, w) && ActEnabled(cfg, w, OfRun(r, op))
    ensures AdmissionInv(cfg, WorldNext(cfg, w, OfRun(r, op)))
  {
    var run := w.runs[r];
    var run' := RunNext(cfg, w, run, op);
    TotalUpdate(w.runs, r, run', ActiveCount);
    TotalAtLeast(w.runs, r, ActiveCount);
    TotalAtLeast(w.runs[r := run'], r, ActiveCount);
    ActiveStep(cfg, w, run, op);
  }

  lemma ActiveStep(cfg: Config, w: World, run: Run, op: RunOp)
    requires RunEnabled(cfg, w.m, run, op)
    ensures var run' := RunNext(cfg, w, run, op);
            if op.Admit? then !Active(run) && (Active(run') <==> Admits(w.inProgress, cfg.exitIfInProgress))
            else if op.GiveBack? then Active(run) && !Active(run')
            else Active(run) <==> Active(run')
  {
  }

  lemma AlertsStep(cfg: Config, w: World, r: nat, op: RunOp)
    requires WorldInv(cfg, w) && ActEnabled(cfg, w, OfRun(r, op))
    ensures AlertsInv(cfg, WorldNext(cfg, w, OfRun(r, op)))
  {
    var run := w.runs[r];
    var w' := WorldNext(cfg, w, OfRun(r, op));
    var run' := w'.runs[r];
    TotalUpdate(w.runs, r, run', FailedAndReported);
    ReportStep(cfg, w, r, op);
    OldAlerts(cfg, w, r, op);
  }

  lemma OldAlerts(cfg: Config, w: World, r: nat, op: RunOp)
    requires r < |w.runs| && ActEnabled(cfg, w, OfRun(r, op)) && !w.runs[r].phase.Reported?
    requires forall i :: 0 <= i < |w.alerts| ==> AlertOk(w, w.alerts[i])
    ensures forall i :: 0 <= i < |w.alerts| ==> AlertOk(WorldNext(cfg, w, OfRun(r, op)), w.alerts[i]) && w.alerts[i].run != r
  {
    forall i | 0 <= i < |w.alerts| ensures AlertOk(WorldNext(cfg, w, OfRun(r, op)), w.alerts[i]) && w.alerts[i].run != r {
      assert AlertOk(w, w.alerts[i]);
    }
  }

  /** Only the report of a failed run adds an alert, and that run was not reported before. */
  lemma ReportStep(cfg: Config, w: World, r: nat, op: RunOp)
    requires r < |w.runs| && RunInv(cfg, w.m, w.runs[r]) && ActEnabled(cfg, w, OfRun(r, op))
    ensures var w' := WorldNext(cfg, w, OfRun(r, op));
            var failed := FailedAndReported(w'.runs[r]) == 1;
            && FailedAndReported(w.runs[r]) == 0 && !w.runs[r].phase.Reported?
            && (if failed && cfg.alertsConfigured
                then |w'.alerts| == |w.alerts| + 1 && w'.alerts[..|w.alerts|] == w.alerts
                     && w'.alerts[|w.alerts|].run == r && AlertOk(w', w'.alerts[|w.alerts|])
                else w'.alerts == w.alerts)
  {
  }

  lemma RunStepInv(cfg: Config, w: World, r: nat, op: RunOp)
    requires WorldInv(cfg, w) && ActEnabled(cfg, w, OfRun(r, op))
    ensures WorldInv(cfg, WorldNext(cfg, w, OfRun(r, op)))
  {
    var w' := WorldNext(cfg, w, OfRun(r, op));
    InvStep(w.m, Begin);
    RunInvStep(cfg, w, r, op);
    LabelledStep(cfg, w, r, op);
    forall q | 0 <= q < |w'.runs| ensures RunInv(cfg, w'.m, w'.runs[q]) && Labelled(w', q) {
      if q != r {
        RunStable(cfg, w.m, w'.m, w.runs[q]);
        LabelledKept(w, w', q);
      }
    }
    OwnedStep(cfg, w, r, op);
    AdmissionStep(cfg, w, r, op);
    AlertsStep(cfg, w, r, op);
  }

  lemma ManagerStepInv(cfg: Config, w: World, a: Action)
    requires WorldInv(cfg, w) && ActEnabled(cfg, w, OfManager(a))
    ensures WorldInv(cfg, WorldNext(cfg, w, OfManager(a)))
  {
    var w' := WorldNext(cfg, w, OfManager(a));
    InvStep(w.m, a);
    ExtendStep(w.m, a);
    forall q | 0 <= q < |w'.runs| ensures RunInv(cfg, w'.m, w'.runs[q]) && Labelled(w', q) {
      RunStable(cfg, w.m, w'.m, w.runs[q]);
      LabelledKept(w, w', q);
    }
    forall c | 0 <= c < |w'.m.calls| ensures Owned(w', c) {
      assert Owned(w, c) && Extends(w.m.calls[c], w'.m.calls[c]);
    }
    forall i | 0 <= i < |w'.alerts| ensures AlertOk(w', w'.alerts[i]) {
      assert AlertOk(w, w.alerts[i]);
    }
  }

  lemma FireInv(cfg: Config, w: World)
    requires WorldInv(cfg, w)
    ensures WorldInv(cfg, WorldNext(cfg, w, Fire))
  {
    TotalAppend(w.runs, NewRun(), ActiveCount);
    TotalAppend(w.runs, NewRun(), FailedAndReported);
    FireLabelled(cfg, w);
    FireOwned(cfg, w);
    FireAlerts(cfg, w);
  }

  lemma FireLabelled(cfg: Config, w: World)
    requires forall r :: 0 <= r < |w.runs| ==> RunInv(cfg, w.m, w.runs[r]) && Labelled(w, r)
    ensures var w' := WorldNext(cfg, w, Fire);
            forall r :: 0 <= r < |w'.runs| ==> RunInv(cfg, w'.m, w'.runs[r]) && Labelled(w', r)
  {
    var w' := WorldNext(cfg, w, Fire);
    forall r | 0 <= r < |w'.runs| ensures RunInv(cfg, w'.m, w'.runs[r]) && Labelled(w', r) {
      if r < |w.runs| {
        LabelledKept(w, w', r);
      }
    }
  }

  lemma FireOwned(cfg: Config, w: World)
    requires |w.purposes| == |w.m.calls| && forall c :: 0 <= c < |w.m.calls| ==> Owned(w, c)
    ensures var w' := WorldNext(cfg, w, Fire); forall c :: 0 <= c < |w'.m.calls| ==> Owned(w', c)
  {
    forall c | 0 <= c < |w.m.calls| ensures Owned(WorldNext(cfg, w, Fire), c) {
      assert Owned(w, c);
    }
  }

  lemma FireAlerts(cfg: Config, w: World)
    requires forall i :: 0 <= i < |w.alerts| ==> AlertOk(w, w.alerts[i])
    ensures var w' := WorldNext(cfg, w, Fire); forall i :: 0 <= i < |w'.alerts| ==> AlertOk(w', w'.alerts[i])
  {
    forall i | 0 <= i < |w.alerts| ensures AlertOk(WorldNext(cfg, w, Fire), w.alerts[i]) {
      assert AlertOk(w, w.alerts[i]);
    }
  }

  lemma {:induction false} HistoryInv(cfg: Config, ws: seq<World>, acts: seq<Act>, i: nat)
    requires IsHistory(cfg, ws, acts) && i < |ws|
    ensures WorldInv(cfg, ws[i])
  {
    if i > 0 {
      HistoryInv(cfg, ws, acts, i - 1);
      match acts[i - 1]
      case Fire => FireInv(cfg, ws[i - 1]);
      case OfManager(a) => ManagerStepInv(cfg, ws[i - 1], a);
      case OfRun(r, op) => RunStepInv(cfg, ws[i - 1], r, op);
    }
  }

  lemma ManagerInv(cfg: Config, ws: seq<World>, acts: seq<Act>, i: nat)
    requires IsHistory(cfg, ws, acts) && i < |ws|
    ensures Inv(ws[i].m)
  {
    HistoryInv(cfg, ws, acts, i);
  }
}
