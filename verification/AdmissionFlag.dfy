/** When the in-progress flag of executor/executor.go tells whether a backup is in progress. */
module AdmissionFlag {
  import opened Options
  import opened ProcessManager
  import opened MultiUploader
  import opened BackupRuns
  import opened BackupSafety
  import opened BackupTheorems

  /** Some history leads to this world. */
  ghost predicate Reachable(cfg: Config, w: World) {
    exists ws: seq<World>, acts: seq<Act> :: IsHistory(cfg, ws, acts) && ws[|acts|] == w
  }

  lemma ReachInit(cfg: Config)
    ensures Reachable(cfg, InitWorld())
  {
    var ws, acts: seq<Act> := [InitWorld()], [];
    assert IsHistory(cfg, ws, acts) && ws[|acts|] == InitWorld();
  }

  lemma ReachNext(cfg: Config, w: World, a: Act)
    requires Reachable(cfg, w) && ActEnabled(cfg, w, a)
    ensures Reachable(cfg, WorldNext(cfg, w, a))
  {
    var ws: seq<World>, acts: seq<Act> :| IsHistory(cfg, ws, acts) && ws[|acts|] == w;
    var w' := WorldNext(cfg, w, a);
    var ws', acts' := ws + [w'], acts + [a];
    forall i | 0 <= i < |acts'|
      ensures ActEnabled(cfg, ws'[i], acts'[i]) && ws'[i + 1] == WorldNext(cfg, ws'[i], acts'[i])
    {
      if i < |acts| {
        assert ws'[i] == ws[i] && ws'[i + 1] == ws[i + 1] && acts'[i] == acts[i];
      }
    }
    assert IsHistory(cfg, ws', acts') && ws'[|acts'|] == w';
  }

  /** A run is between its admission and `doneBackup`. */
  ghost predicate SomeActive(w: World) {
    exists p :: 0 <= p < |w.runs| && Active(w.runs[p])
  }

  /** In every reachable world the flag is set exactly when some run is active. */
  ghost predicate FlagExact(cfg: Config) {
    forall w :: Reachable(cfg, w) ==> (w.inProgress <==> SomeActive(w))
  }

  // ------------------------------------------------------------------
  // Two overlapping runs
  // ------------------------------------------------------------------

  /** Two runs have been admitted, and the second has done nothing since. */
  ghost predicate Overlapping(cfg: Config, w: World) {
    Reachable(cfg, w) && |w.runs| == 2 && w.runs[1].phase.SourcePending?
  }

  /** Both runs get in when the option is unset. */
  lemma BothAdmitted(cfg: Config) returns (w: World)
    requires !cfg.exitIfInProgress
    ensures Overlapping(cfg, w) && w.runs[0] == NewRun().(phase := SourcePending) && w.m == Init()
  {
    ReachInit(cfg);
    w := Enter(cfg, InitWorld());
    w := Enter(cfg, w);
  }

  /** A firing up to its admission. */
  lemma Enter(cfg: Config, w: World) returns (w': World)
    requires Reachable(cfg, w) && !cfg.exitIfInProgress
    ensures Reachable(cfg, w') && w'.m == w.m && w'.runs == w.runs + [NewRun().(phase := SourcePending)]
  {
    var r, run := |w.runs|, NewRun();
    ReachNext(cfg, w, Fire);
    var w1 := WorldNext(cfg, w, Fire);
    ReachNext(cfg, w1, OfRun(r, Identify("")));
    var w2 := WorldNext(cfg, w1, OfRun(r, Identify("")));
    assert w2.runs == w.runs + [run.(phase := Admitting)];
    ReachNext(cfg, w2, OfRun(r, Admit));
    w' := WorldNext(cfg, w2, OfRun(r, Admit));
  }

  lemma StepFirst(cfg: Config, w: World, op: RunOp) returns (w': World)
    requires Overlapping(cfg, w) && RunEnabled(cfg, w.m, w.runs[0], op)
    ensures Overlapping(cfg, w') && w' == WorldNext(cfg, w, OfRun(0, op))
  {
    ReachNext(cfg, w, OfRun(0, op));
    w' := WorldNext(cfg, w, OfRun(0, op));
  }

  lemma StepManager(cfg: Config, w: World, op: Op) returns (w': World)
    requires Overlapping(cfg, w) && OpEnabled(w.m, 0, op)
    ensures Overlapping(cfg, w') && w' == w.(m := Next(w.m, OfCall(0, op)))
  {
    ReachNext(cfg, w, OfManager(OfCall(0, op)));
    w' := w.(m := Next(w.m, OfCall(0, op)));
  }

  /** The source command of the first run cannot be launched. */
  lemma SourceFails(cfg: Config, w: World) returns (w': World)
    requires Overlapping(cfg, w) && cfg.hasSource && w.m == Init() && w.runs[0] == NewRun().(phase := SourcePending)
    ensures Overlapping(cfg, w') && w'.runs[0].phase.Leaving?
  {
    w' := StepFirst(cfg, w, BeginSource);
    w' := StepManager(cfg, w', Acquire);
    w' := StepManager(cfg, w', Check);
    w' := StepManager(cfg, w', LaunchErr(""));
    w' := StepManager(cfg, w', ReleaseFailed);
    w' := StepFirst(cfg, w', EndSource);
  }

  ghost predicate AllFailed(uploads: seq<Upload>) {
    forall d :: 0 <= d < |uploads| ==> uploads[d].outcome.Some?
  }

  /** Every destination refuses the first run's upload. */
  lemma {:induction false} UploadsFail(cfg: Config, w: World) returns (w': World)
    requires Overlapping(cfg, w) && w.runs[0].phase.Uploading?
    requires |w.runs[0].uploads| <= |cfg.destinations| && AllFailed(w.runs[0].uploads)
    ensures Overlapping(cfg, w') && w'.runs[0].phase.Uploading?
    ensures |w'.runs[0].uploads| == |cfg.destinations| && AllFailed(w'.runs[0].uploads)
    decreases |cfg.destinations| - |w.runs[0].uploads|
  {
    w' := w;
    var d := |w.runs[0].uploads|;
    if d < |cfg.destinations| {
      var e := Error("");
      w' := StepFirst(cfg, w, if cfg.destinations[d].Library? then UploadLibrary(Some(e)) else PrepareFails(e));
      w' := UploadsFail(cfg, w');
    }
  }

  lemma FirstLeaves(cfg: Config, w: World) returns (w': World)
    requires cfg.destinations != [] && Overlapping(cfg, w)
    requires w.m == Init() && w.runs[0] == NewRun().(phase := SourcePending)
    ensures Overlapping(cfg, w') && w'.runs[0].phase.Leaving?
  {
    if cfg.hasSource {
      w' := SourceFails(cfg, w);
    } else {
      w' := StepFirst(cfg, w, BeginSource);
      w' := UploadsFail(cfg, w');
      NilIffAllNil(UploadOutcomes(w'.runs[0].uploads));
      assert UploadOutcomes(w'.runs[0].uploads)[0].Some?;
      w' := StepFirst(cfg, w', JoinErrors);
    }
  }

  /** Without the option, the first of two overlapping runs clears the flag while the second is active,
      whatever the source and cleanup commands and the destinations. */
  lemma FlagMissesOverlap(cfg: Config) returns (w: World)
    requires cfg.destinations != [] && !cfg.exitIfInProgress
    ensures Reachable(cfg, w) && !w.inProgress && |w.runs| == 2 && Active(w.runs[1])
  {
    w := BothAdmitted(cfg);
    w := FirstLeaves(cfg, w);
    w := StepFirst(cfg, w, GiveBack);
  }

  /** For every configuration with a destination: the flag tells in every history whether a run is active
      exactly when `exit_if_in_progress` is set. */
  lemma {:induction false} FlagExactIffOption(cfg: Config)
    requires cfg.destinations != []
    ensures FlagExact(cfg) <==> cfg.exitIfInProgress
  {
    if cfg.exitIfInProgress {
      forall w | Reachable(cfg, w) ensures w.inProgress <==> SomeActive(w) {
        var ws: seq<World>, acts: seq<Act> :| IsHistory(cfg, ws, acts) && ws[|acts|] == w;
        AdmissionExclusion(cfg, ws, acts, |acts|);
      }
    } else {
      var w := FlagMissesOverlap(cfg);
      assert SomeActive(w);
    }
  }

  /** At most one run is active. */
  ghost predicate OneAtMost(w: World) {
    forall p, q :: 0 <= p < |w.runs| && 0 <= q < |w.runs| && Active(w.runs[p]) && Active(w.runs[q]) ==> p == q
  }

  /** Runs exclude one another in every history exactly when the option is set. */
  lemma {:induction false} ExclusionIffOption(cfg: Config)
    ensures (forall w :: Reachable(cfg, w) ==> OneAtMost(w)) <==> cfg.exitIfInProgress
  {
    if cfg.exitIfInProgress {
      forall w | Reachable(cfg, w) ensures OneAtMost(w) {
        var ws: seq<World>, acts: seq<Act> :| IsHistory(cfg, ws, acts) && ws[|acts|] == w;
        AdmissionExclusion(cfg, ws, acts, |acts|);
      }
    } else {
      var w := BothAdmitted(cfg);
      assert Active(w.runs[0]) && Active(w.runs[1]);
    }
  }
}
