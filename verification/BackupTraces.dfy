/** What the records of runs and manager calls say about the steps of a history: what the service and the
    destinations answered, and what the children did. */
module BackupTraces {
  import opened Options
  import opened ProcessManager
  import opened ProcessSafety
  import opened ProcessTraces
  import opened MultiUploader
  import opened BackupRuns
  import opened BackupSafety

  // ------------------------------------------------------------------
  // Children
  // ------------------------------------------------------------------

  function CallStep(a: Act, c: nat): seq<Op> {
    if a.OfManager? && a.a.OfCall? && a.a.c == c then [a.a.op] else []
  }

  /** The manager's steps for call `c`, in order. */
  function CallSteps(acts: seq<Act>, c: nat): seq<Op> {
    if acts == [] then [] else CallSteps(acts[..|acts| - 1], c) + CallStep(acts[|acts| - 1], c)
  }

  lemma CallStepsNext(acts: seq<Act>, i: nat, c: nat)
    requires i < |acts|
    ensures CallSteps(acts[..i + 1], c) == CallSteps(acts[..i], c) + CallStep(acts[i], c)
  {
    assert acts[..i + 1][..i] == acts[..i];
  }

  /** The record of call `c`, if there is one, tells the steps taken. */
  ghost predicate CallTells(m: State, c: nat, ops: seq<Op>) {
    if c < |m.calls| then Tells(m.calls[c], ops) else ops == []
  }

  lemma CallTellsNext(cfg: Config, w: World, a: Act, c: nat, ops: seq<Op>)
    requires Inv(w.m) && ActEnabled(cfg, w, a) && CallTells(w.m, c, ops)
    ensures CallTells(WorldNext(cfg, w, a).m, c, ops + CallStep(a, c))
  {
    assert ops + [] == ops;
    match a
    case Fire =>
    case OfManager(ma) => TellsNext(w.m, ma, c, ops);
    case OfRun(r, op) => TellsNext(w.m, Begin, c, ops);
  }

  /** In every history the record of every manager call tells the steps its child took. */
  lemma {:induction false} CallsTell(cfg: Config, ws: seq<World>, acts: seq<Act>, i: nat, c: nat)
    requires IsHistory(cfg, ws, acts) && i < |ws|
    ensures CallTells(ws[i].m, c, CallSteps(acts[..i], c))
    decreases i
  {
    if i > 0 {
      CallsTell(cfg, ws, acts, i - 1, c);
      ManagerInv(cfg, ws, acts, i - 1);
      CallStepsNext(acts, i - 1, c);
      CallTellsNext(cfg, ws[i - 1], acts[i - 1], c, CallSteps(acts[..i - 1], c));
    }
  }

  /** So the result of every `Start` call that a run made means what its child did. */
  lemma {:induction false} CallResult(cfg: Config, ws: seq<World>, acts: seq<Act>, i: nat, c: nat)
    requires IsHistory(cfg, ws, acts) && i < |ws| && HasReturned(ws[i].m, c)
    ensures ResultMeans(ws[i].m.calls[c].pc.result, CallSteps(acts[..i], c), ws[i].m.killAll)
  {
    ManagerInv(cfg, ws, acts, i);
    CallsTell(cfg, ws, acts, i, c);
    assert CallInv(ws[i].m.calls[c]);
    ReturnedMeans(ws[i].m, ws[i].m.calls[c], c, CallSteps(acts[..i], c));
  }

  // ------------------------------------------------------------------
  // Runs
  // ------------------------------------------------------------------

  function RunStep(a: Act, r: nat): seq<RunOp> {
    if a.OfRun? && a.r == r then [a.op] else []
  }

  /** The steps of run `r`, in order. */
  function RunSteps(acts: seq<Act>, r: nat): seq<RunOp> {
    if acts == [] then [] else RunSteps(acts[..|acts| - 1], r) + RunStep(acts[|acts| - 1], r)
  }

  lemma RunStepsNext(acts: seq<Act>, i: nat, r: nat)
    requires i < |acts|
    ensures RunSteps(acts[..i + 1], r) == RunSteps(acts[..i], r) + RunStep(acts[i], r)
  {
    assert acts[..i + 1][..i] == acts[..i];
  }

  /** The identifiers the service gave. */
  function Identifiers(ops: seq<RunOp>): seq<string> {
    if ops == [] then [] else
    var rest := Identifiers(ops[..|ops| - 1]);
    match ops[|ops| - 1]
    case Identify(id) => rest + [id]
    case _ => rest
  }

  /** A destination's answer. */
  predicate IsAnswer(op: RunOp) {
    op.UploadLibrary? || op.PrepareFails? || op.PrepareScp?
  }

  /** What the destinations answered: a library's result, or the preparation of an SCP upload. */
  function Answers(ops: seq<RunOp>): seq<RunOp> {
    if ops == [] then [] else
    var rest, last := Answers(ops[..|ops| - 1]), ops[|ops| - 1];
    if IsAnswer(last) then rest + [last] else rest
  }

  /** A finished upload is what its destination answered; an SCP upload worked on the entries it listed. */
  ghost predicate UploadTells(dest: Destination, u: Upload, answer: RunOp) {
    match answer
    case UploadLibrary(outcome) => dest.Library? && u == Upload(outcome, [], [])
    case PrepareFails(e) => dest.Scp? && u == Upload(Some(e), [], [])
    case PrepareScp(entries) => dest.Scp? && u.planned == entries && (u.outcome.Some? ==> u.copies != [])
    case _ => false
  }

  ghost predicate UploadsTell(destinations: seq<Destination>, uploads: seq<Upload>, answers: seq<RunOp>) {
    && |uploads| <= |destinations| && |uploads| <= |answers|
    && forall d :: 0 <= d < |uploads| ==> UploadTells(destinations[d], uploads[d], answers[d])
  }

  lemma UploadsTellNext(destinations: seq<Destination>, uploads: seq<Upload>, answers: seq<RunOp>, u: Upload, answers': seq<RunOp>)
    requires UploadsTell(destinations, uploads, answers) && answers <= answers'
    requires |uploads| < |destinations| && |uploads| < |answers'|
    requires UploadTells(destinations[|uploads|], u, answers'[|uploads|])
    ensures UploadsTell(destinations, uploads + [u], answers')
  {
  }

  predicate InCopies(run: Run) {
    run.phase.Copying? || run.phase.AwaitCopy?
  }

  ghost predicate RunTells(cfg: Config, run: Run, ops: seq<RunOp>) {
    var answers := Answers(ops);
    && Identifiers(ops) == (if run.phase.Identifying? then [] else [run.id])
    && |answers| == |run.uploads| + (if InCopies(run) then 1 else 0)
    && UploadsTell(cfg.destinations, run.uploads, answers)
    && (if InCopies(run) then answers[|run.uploads|] == PrepareScp(run.planned) else run.planned == [])
  }

  lemma OpsAppend(ops: seq<RunOp>, op: RunOp)
    ensures Identifiers(ops + [op]) == Identifiers(ops) + (if op.Identify? then [op.id] else [])
    ensures Answers(ops + [op]) == Answers(ops) + (if IsAnswer(op) then [op] else [])
  {
    assert (ops + [op])[..|ops|] == ops;
  }

  lemma RunTellsAnswer(cfg: Config, w: World, run: Run, op: RunOp, ops: seq<RunOp>)
    requires RunInv(cfg, w.m, run) && RunEnabled(cfg, w.m, run, op) && RunTells(cfg, run, ops) && IsAnswer(op)
    ensures RunTells(cfg, RunNext(cfg, w, run, op), ops + [op])
  {
    OpsAppend(ops, op);
    var answers := Answers(ops) + [op];
    match op
    case UploadLibrary(o) => UploadsTellNext(cfg.destinations, run.uploads, Answers(ops), Upload(o, [], []), answers);
    case PrepareFails(e) => UploadsTellNext(cfg.destinations, run.uploads, Answers(ops), Upload(Some(e), [], []), answers);
    case _ =>
  }

  lemma RunTellsBeginCopy(cfg: Config, w: World, run: Run, ops: seq<RunOp>)
    requires RunInv(cfg, w.m, run) && RunEnabled(cfg, w.m, run, BeginCopy) && RunTells(cfg, run, ops)
    ensures RunTells(cfg, RunNext(cfg, w, run, BeginCopy), ops + [BeginCopy])
  {
    OpsAppend(ops, BeginCopy);
    UploadsTellNext(cfg.destinations, run.uploads, Answers(ops), Upload(None, run.planned, run.copies), Answers(ops));
  }

  lemma RunTellsEndCopy(cfg: Config, w: World, run: Run, ops: seq<RunOp>)
    requires RunInv(cfg, w.m, run) && RunEnabled(cfg, w.m, run, EndCopy) && RunTells(cfg, run, ops)
    ensures RunTells(cfg, RunNext(cfg, w, run, EndCopy), ops + [EndCopy])
  {
    OpsAppend(ops, EndCopy);
    var result := AwaitedResult(w.m, run);
    if ErrorOf(result).Some? {
      var u := Upload(Some(CopyError(result, ErrorOf(result).value)), run.planned, run.copies);
      UploadsTellNext(cfg.destinations, run.uploads, Answers(ops), u, Answers(ops));
    }
  }

  /** The other steps leave uploads and copies alone. */
  lemma RunTellsPlain(cfg: Config, w: World, run: Run, op: RunOp, ops: seq<RunOp>)
    requires RunEnabled(cfg, w.m, run, op) && RunTells(cfg, run, ops) && !IsAnswer(op) && !op.BeginCopy? && !op.EndCopy?
    ensures RunTells(cfg, RunNext(cfg, w, run, op), ops + [op])
  {
    OpsAppend(ops, op);
    var run' := RunNext(cfg, w, run, op);
    assert run'.uploads == run.uploads && run'.planned == run.planned && !InCopies(run) && !InCopies(run');
  }

  lemma RunTellsStep(cfg: Config, w: World, run: Run, op: RunOp, ops: seq<RunOp>)
    requires RunInv(cfg, w.m, run) && RunEnabled(cfg, w.m, run, op) && RunTells(cfg, run, ops)
    ensures RunTells(cfg, RunNext(cfg, w, run, op), ops + [op])
  {
    if IsAnswer(op) {
      RunTellsAnswer(cfg, w, run, op, ops);
    } else if op.BeginCopy? {
      RunTellsBeginCopy(cfg, w, run, ops);
    } else if op.EndCopy? {
      RunTellsEndCopy(cfg, w, run, ops);
    } else {
      RunTellsPlain(cfg, w, run, op, ops);
    }
  }

  ghost predicate RunTellsAt(cfg: Config, w: World, r: nat, ops: seq<RunOp>) {
    if r < |w.runs| then RunTells(cfg, w.runs[r], ops) else ops == []
  }

  lemma RunTellsNext(cfg: Config, w: World, a: Act, r: nat, ops: seq<RunOp>)
    requires WorldInv(cfg, w) && ActEnabled(cfg, w, a) && RunTellsAt(cfg, w, r, ops)
    ensures RunTellsAt(cfg, WorldNext(cfg, w, a), r, ops + RunStep(a, r))
  {
    assert ops + [] == ops;
    if a.OfRun? && a.r == r {
      assert RunInv(cfg, w.m, w.runs[r]);
      RunTellsStep(cfg, w, w.runs[r], a.op, ops);
    }
  }

  /** In every history a run carries the identifier the service gave, and its uploads are, destination by
      destination, what the destinations answered. */
  lemma {:induction false} RunsTell(cfg: Config, ws: seq<World>, acts: seq<Act>, i: nat, r: nat)
    requires IsHistory(cfg, ws, acts) && i < |ws|
    ensures RunTellsAt(cfg, ws[i], r, RunSteps(acts[..i], r))
    decreases i
  {
    if i > 0 {
      RunsTell(cfg, ws, acts, i - 1, r);
      HistoryInv(cfg, ws, acts, i - 1);
      RunStepsNext(acts, i - 1, r);
      RunTellsNext(cfg, ws[i - 1], acts[i - 1], r, RunSteps(acts[..i - 1], r));
    }
  }
}
