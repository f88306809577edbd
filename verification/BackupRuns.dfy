/** Concurrent backup runs (executor/executor.go) over one process manager.

    Every firing of the scheduler's job starts a run: identify the service, ask for admission,
    run the source command, upload to every destination, run the cleanup command, give the
    admission back, report.  Source, cleanup and every SCP copy are `Start` calls on the
    manager, whose own steps (and `Terminate`) interleave freely with those of the runs. */
module BackupRuns {
  import opened Options
  import opened Totals
  import opened ProcessManager
  import opened ProcessSafety
  import opened MultiUploader

  /** A destination either uploads through a client library, or copies each top-level entry
      with an `scp` child process. */
  datatype Destination = Library | Scp

  datatype Config = Config(hasSource: bool, hasCleanup: bool, destinations: seq<Destination>,
                           exitIfInProgress: bool, alertsConfigured: bool)

  /** `ServiceInstanceError`. */
  datatype InstanceError = InstanceError(message: string, instanceId: string)

  /** One finished `Upload` of a destination: its result, the names of the entries an SCP upload
      listed, and the manager calls that copied them. */
  datatype Upload = Upload(outcome: Option<Error>, planned: seq<string>, copies: seq<nat>)

  datatype Phase =
    | Identifying | Admitting
    | SourcePending | AwaitSource
    | Uploading | Copying | AwaitCopy
    | CleanupPending | AwaitCleanup
    | Leaving(err: Option<InstanceError>)
    | Reporting(err: Option<InstanceError>)
    | Reported(err: Option<InstanceError>)

  datatype Run = Run(phase: Phase, id: string, source: Option<nat>, uploads: seq<Upload>,
                     planned: seq<string>, copies: seq<nat>, cleanup: Option<nat>)

  /** What a manager call was made for. */
  datatype Purpose = ForSource(run: nat) | ForCopy(run: nat, dest: nat, entry: string) | ForCleanup(run: nat)

  datatype Alert = Alert(run: nat, instanceId: string, content: string)

  datatype World = World(m: State, purposes: seq<Purpose>, inProgress: bool, runs: seq<Run>, alerts: seq<Alert>)

  datatype RunOp =
    | Identify(id: string)
    | Admit
    | BeginSource | EndSource
    | UploadLibrary(outcome: Option<Error>)
    | PrepareFails(error: Error) | PrepareScp(entries: seq<string>)
    | BeginCopy | EndCopy
    | JoinErrors
    | BeginCleanup | EndCleanup
    | GiveBack
    | Report

  datatype Act = Fire | OfManager(a: Action) | OfRun(r: nat, op: RunOp)

  const REJECTED :=
    "Backup currently in progress, exiting. Another backup will not be able to start until this is completed."

  const ALERT_PREFIX := "A backup run has failed with the following error: "

  function InitWorld(): World {
    World(Init(), [], false, [], [])
  }

  function NewRun(): Run {
    Run(Identifying, "", None, [], [], [], None)
  }

  /** `backupCanBeStarted`, the decision. */
  predicate Admits(inProgress: bool, exitIfInProgress: bool) {
    !(inProgress && exitIfInProgress)
  }

  /** The manager call a run is blocked on. */
  function Awaited(run: Run): Option<nat> {
    match run.phase
    case AwaitSource => run.source
    case AwaitCopy => if run.copies == [] then None else Some(run.copies[|run.copies| - 1])
    case AwaitCleanup => run.cleanup
    case _ => None
  }

  predicate HasReturned(m: State, c: nat) {
    c < |m.calls| && m.calls[c].pc.Returned?
  }

  predicate AwaitedReturned(m: State, run: Run) {
    Awaited(run).Some? && HasReturned(m, Awaited(run).value)
  }

  /** The awaited `Start` call's result. */
  function AwaitedResult(m: State, run: Run): Result
    requires AwaitedReturned(m, run)
  {
    m.calls[Awaited(run).value].pc.result
  }

  predicate RunEnabled(cfg: Config, m: State, run: Run, op: RunOp) {
    match op
    case Identify(_) => run.phase.Identifying?
    case Admit => run.phase.Admitting?
    case BeginSource => run.phase.SourcePending?
    case EndSource => run.phase.AwaitSource? && AwaitedReturned(m, run)
    case UploadLibrary(_) =>
      run.phase.Uploading? && |run.uploads| < |cfg.destinations| && cfg.destinations[|run.uploads|].Library?
    case PrepareFails(_) =>
      run.phase.Uploading? && |run.uploads| < |cfg.destinations| && cfg.destinations[|run.uploads|].Scp?
    case PrepareScp(_) =>
      run.phase.Uploading? && |run.uploads| < |cfg.destinations| && cfg.destinations[|run.uploads|].Scp?
    case BeginCopy => run.phase.Copying?
    case EndCopy => run.phase.AwaitCopy? && AwaitedReturned(m, run)
    case JoinErrors => run.phase.Uploading? && |run.uploads| == |cfg.destinations|
    case BeginCleanup => run.phase.CleanupPending?
    case EndCleanup => run.phase.AwaitCleanup? && AwaitedReturned(m, run)
    case GiveBack => run.phase.Leaving?
    case Report => run.phase.Reporting?
  }

  predicate ActEnabled(cfg: Config, w: World, a: Act) {
    match a
    case Fire => true
    case OfManager(ma) => !ma.Begin? && Enabled(w.m, ma)
    case OfRun(r, op) => r < |w.runs| && RunEnabled(cfg, w.m, w.runs[r], op)
  }

  /** The current destination's `Upload` returns. */
  function Record(run: Run, outcome: Option<Error>): Run {
    run.(phase := Uploading, uploads := run.uploads + [Upload(outcome, run.planned, run.copies)],
         planned := [], copies := [])
  }

  /** The error of a failed copy (the quoting of `%q` is left out). */
  function CopyError(r: Result, e: string): Error {
    var out := if r.Terminated? || r.Completed? then r.output else "";
    Error("error performing SCP: " + e + ", output: " + out)
  }

  function UploadOutcomes(uploads: seq<Upload>): (r: seq<Option<Error>>)
    ensures |r| == |uploads|
  {
    seq(|uploads|, i requires 0 <= i < |uploads| => uploads[i].outcome)
  }

  /** The step starts a manager call. */
  function Launches(cfg: Config, r: nat, run: Run, op: RunOp): Option<Purpose> {
    match op
    case BeginSource => if cfg.hasSource then Some(ForSource(r)) else None
    case BeginCopy =>
      if |run.copies| < |run.planned| then Some(ForCopy(r, |run.uploads|, run.planned[|run.copies|])) else None
    case BeginCleanup => if cfg.hasCleanup then Some(ForCleanup(r)) else None
    case _ => None
  }

  function RunNext(cfg: Config, w: World, run: Run, op: RunOp): Run
    requires RunEnabled(cfg, w.m, run, op)
  {
    var newCall := |w.m.calls|;
    match op
    case Identify(id) => run.(phase := Admitting, id := id)
    case Admit =>
      run.(phase := if Admits(w.inProgress, cfg.exitIfInProgress) then SourcePending
                    else Reporting(Some(InstanceError(REJECTED, run.id))))
    case BeginSource =>
      if cfg.hasSource then run.(phase := AwaitSource, source := Some(newCall)) else run.(phase := Uploading)
    case EndSource =>
      run.(phase := match ErrorOf(AwaitedResult(w.m, run))
                    case None => Uploading
                    case Some(e) => Leaving(Some(InstanceError(e, run.id))))
    case UploadLibrary(outcome) => Record(run, outcome)
    case PrepareFails(e) => Record(run, Some(e))
    case PrepareScp(entries) => run.(phase := Copying, planned := entries)
    case BeginCopy =>
      if |run.copies| < |run.planned| then run.(phase := AwaitCopy, copies := run.copies + [newCall])
      else Record(run, None)
    case EndCopy =>
      var result := AwaitedResult(w.m, run);
      (match ErrorOf(result)
       case None => run.(phase := Copying)
       case Some(e) => Record(run, Some(CopyError(result, e))))
    case JoinErrors =>
      run.(phase := match FormattedError(Failures(UploadOutcomes(run.uploads)))
                    case None => CleanupPending
                    case Some(e) => Leaving(Some(InstanceError(e, run.id))))
    case BeginCleanup =>
      if cfg.hasCleanup then run.(phase := AwaitCleanup, cleanup := Some(newCall)) else run.(phase := Leaving(None))
    case EndCleanup => run.(phase := Leaving(None))
    case GiveBack => run.(phase := Reporting(run.phase.err))
    case Report => run.(phase := Reported(run.phase.err))
  }

  /** The admission flag after a step: `backupCanBeStarted` and `doneBackup` alone change it. */
  function FlagNext(inProgress: bool, exitIfInProgress: bool, op: RunOp): bool {
    match op
    case Admit => Admits(inProgress, exitIfInProgress) || inProgress
    case GiveBack => false
    case _ => inProgress
  }

  /** The scheduler's job closure sends an alert for a failed run when a client is configured. */
  function AlertsNext(w: World, cfg: Config, r: nat, run: Run, op: RunOp): seq<Alert> {
    if op.Report? && run.phase.Reporting? && run.phase.err.Some? && cfg.alertsConfigured then
      var e := run.phase.err.value;
      w.alerts + [Alert(r, e.instanceId, ALERT_PREFIX + e.message)]
    else w.alerts
  }

  function WorldNext(cfg: Config, w: World, a: Act): World
    requires ActEnabled(cfg, w, a)
  {
    match a
    case Fire => w.(runs := w.runs + [NewRun()])
    case OfManager(ma) => w.(m := Next(w.m, ma))
    case OfRun(r, op) =>
      var run := w.runs[r];
      var launch := Launches(cfg, r, run, op);
      World(if launch.Some? then Next(w.m, Begin) else w.m,
            if launch.Some? then w.purposes + [launch.value] else w.purposes,
            FlagNext(w.inProgress, cfg.exitIfInProgress, op),
            w.runs[r := RunNext(cfg, w, run, op)],
            AlertsNext(w, cfg, r, run, op))
  }

  /** `ws` lists the worlds that `acts` lead through, from a fresh process. */
  ghost predicate IsHistory(cfg: Config, ws: seq<World>, acts: seq<Act>) {
    && |ws| == |acts| + 1 && ws[0] == InitWorld()
    && forall i :: 0 <= i < |acts| ==> ActEnabled(cfg, ws[i], acts[i]) && ws[i + 1] == WorldNext(cfg, ws[i], acts[i])
  }

  // ------------------------------------------------------------------
  // Invariants of one run
  // ------------------------------------------------------------------

  predicate Succeeded(m: State, c: nat) {
    HasReturned(m, c) && ErrorOf(m.calls[c].pc.result).None?
  }

  predicate HasFailed(m: State, c: nat) {
    HasReturned(m, c) && ErrorOf(m.calls[c].pc.result).Some?
  }

  ghost predicate AllSucceeded(m: State, copies: seq<nat>) {
    forall i :: 0 <= i < |copies| ==> Succeeded(m, copies[i])
  }

  ghost predicate SourceOk(cfg: Config, m: State, run: Run) {
    if cfg.hasSource then run.source.Some? && Succeeded(m, run.source.value) else run.source.None?
  }

  /** A nil SCP upload copied every entry; a failed one failed in preparation, or at its last
      copy with every earlier copy done and none after it tried. */
  ghost predicate UploadInv(m: State, dest: Destination, u: Upload) {
    match dest
    case Library => u.copies == []
    case Scp =>
      if u.outcome.None? then |u.copies| == |u.planned| && AllSucceeded(m, u.copies)
      else
        || u.copies == []
        || (var n := |u.copies| - 1;
            && n < |u.planned| && AllSucceeded(m, u.copies[..n]) && HasFailed(m, u.copies[n])
            && var r := m.calls[u.copies[n]].pc.result; u.outcome == Some(CopyError(r, ErrorOf(r).value)))
  }

  ghost predicate UploadsInv(cfg: Config, m: State, run: Run) {
    && |run.uploads| <= |cfg.destinations|
    && forall d :: 0 <= d < |run.uploads| ==> UploadInv(m, cfg.destinations[d], run.uploads[d])
  }

  /** The source command succeeded or is absent, and every destination's upload returned nil. */
  ghost predicate BackedUp(cfg: Config, m: State, run: Run) {
    && SourceOk(cfg, m, run)
    && |run.uploads| == |cfg.destinations|
    && forall d :: 0 <= d < |run.uploads| ==> run.uploads[d].outcome.None?
  }

  /** Why a run ended with this error. */
  ghost predicate Explained(cfg: Config, m: State, run: Run, e: InstanceError) {
    && e.instanceId == run.id && run.cleanup.None?
    && ( || (cfg.exitIfInProgress && e.message == REJECTED && run.source.None? && run.uploads == [])
         || (run.source.Some? && HasReturned(m, run.source.value) && run.uploads == []
             && ErrorOf(m.calls[run.source.value].pc.result) == Some(e.message))
         || (SourceOk(cfg, m, run) && |run.uploads| == |cfg.destinations|
             && FormattedError(Failures(UploadOutcomes(run.uploads))) == Some(e.message)))
  }

  ghost predicate Ended(cfg: Config, m: State, run: Run, err: Option<InstanceError>) {
    && run.copies == []
    && match err
       case None => BackedUp(cfg, m, run) && (cfg.hasCleanup <==> run.cleanup.Some?)
                    && (run.cleanup.Some? ==> HasReturned(m, run.cleanup.value))
       case Some(e) => Explained(cfg, m, run, e)
  }

  ghost predicate PhaseInv(cfg: Config, m: State, run: Run) {
    match run.phase
    case Uploading => SourceOk(cfg, m, run) && run.copies == [] && run.cleanup.None?
    case Copying =>
      && SourceOk(cfg, m, run) && run.cleanup.None?
      && |run.uploads| < |cfg.destinations| && cfg.destinations[|run.uploads|].Scp?
      && |run.copies| <= |run.planned| && AllSucceeded(m, run.copies)
    case AwaitCopy =>
      && SourceOk(cfg, m, run) && run.cleanup.None?
      && |run.uploads| < |cfg.destinations| && cfg.destinations[|run.uploads|].Scp?
      && 0 < |run.copies| <= |run.planned|
      && AllSucceeded(m, run.copies[..|run.copies| - 1])
      && run.copies[|run.copies| - 1] < |m.calls|
    case CleanupPending => BackedUp(cfg, m, run) && run.copies == [] && run.cleanup.None?
    case AwaitCleanup =>
      BackedUp(cfg, m, run) && run.copies == [] && cfg.hasCleanup && run.cleanup.Some? && run.cleanup.value < |m.calls|
    case Leaving(err) => Ended(cfg, m, run, err)
    case Reporting(err) => Ended(cfg, m, run, err)
    case Reported(err) => Ended(cfg, m, run, err)
    case AwaitSource =>
      && run.uploads == [] && run.copies == [] && run.cleanup.None?
      && cfg.hasSource && run.source.Some? && run.source.value < |m.calls|
    case _ => run.uploads == [] && run.copies == [] && run.cleanup.None? && run.source.None?
  }

  ghost predicate RunInv(cfg: Config, m: State, run: Run) {
    UploadsInv(cfg, m, run) && PhaseInv(cfg, m, run)
  }

  lemma SucceededStable(m: State, m': State, c: nat)
    requires CallsExtend(m, m')
    ensures HasReturned(m, c) ==> HasReturned(m', c) && m'.calls[c].pc == m.calls[c].pc
    ensures Succeeded(m, c) ==> Succeeded(m', c)
    ensures HasFailed(m, c) ==> HasFailed(m', c)
  {
    if c < |m.calls| {
      assert Extends(m.calls[c], m'.calls[c]);
    }
  }

  lemma AllSucceededStable(m: State, m': State, copies: seq<nat>)
    requires CallsExtend(m, m') && AllSucceeded(m, copies)
    ensures AllSucceeded(m', copies)
  {
    forall i | 0 <= i < |copies| ensures Succeeded(m', copies[i]) {
      SucceededStable(m, m', copies[i]);
    }
  }

  lemma UploadStable(m: State, m': State, dest: Destination, u: Upload)
    requires CallsExtend(m, m') && UploadInv(m, dest, u)
    ensures UploadInv(m', dest, u)
  {
    if dest.Scp? {
      if u.outcome.None? {
        AllSucceededStable(m, m', u.copies);
      } else if u.copies != [] {
        var n := |u.copies| - 1;
        AllSucceededStable(m, m', u.copies[..n]);
        SucceededStable(m, m', u.copies[n]);
      }
    }
  }

  /** Nothing the manager or another run does disturbs what a run relies on. */
  lemma RunStable(cfg: Config, m: State, m': State, run: Run)
    requires CallsExtend(m, m') && RunInv(cfg, m, run)
    ensures RunInv(cfg, m', run)
  {
    forall d | 0 <= d < |run.uploads| ensures UploadInv(m', cfg.destinations[d], run.uploads[d]) {
      UploadStable(m, m', cfg.destinations[d], run.uploads[d]);
    }
    if run.source.Some? {
      SucceededStable(m, m', run.source.value);
    }
    if run.cleanup.Some? {
      SucceededStable(m, m', run.cleanup.value);
    }
    if run.phase.Copying? {
      AllSucceededStable(m, m', run.copies);
    }
    if run.phase.AwaitCopy? {
      AllSucceededStable(m, m', run.copies[..|run.copies| - 1]);
    }
  }
}
