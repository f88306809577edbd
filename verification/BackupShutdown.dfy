/** Progress of `Terminate` while backup runs keep firing, running and asking for children. */
module BackupShutdown {
  import opened Options
  import opened Totals
  import opened ProcessManager
  import opened ProcessSafety
  import opened ProcessProgress
  import opened BackupRuns
  import opened BackupSafety
  import opened BackupTheorems

  /** Steps of children, reapers and `Start` calls do shutdown work; firings and the runs' own steps, which
      at most make a new `Start` call, do not. */
  function WorkingAct(a: Act): nat {
    match a
    case OfManager(ma) => Working(ma)
    case _ => 0
  }

  lemma WorldShutdownStep(cfg: Config, w: World, a: Act)
    requires Inv(w.m) && w.m.term.Awaiting? && ActEnabled(cfg, w, a) && WorldNext(cfg, w, a).m.term.Awaiting?
    ensures WorkingAct(a) + Work(WorldNext(cfg, w, a).m) <= Work(w.m)
    ensures WorldNext(cfg, w, a).m.lock == w.m.lock
  {
    match a
    case Fire =>
    case OfManager(ma) => ShutdownStep(w.m, ma);
    case OfRun(r, op) => ShutdownStep(w.m, Begin);
  }

  lemma HistoryStep(cfg: Config, ws: seq<World>, acts: seq<Act>, k: nat)
    requires IsHistory(cfg, ws, acts) && k < |acts| && ws[k].m.term.Awaiting? && ws[k + 1].m.term.Awaiting?
    ensures WorkingAct(acts[k]) + Work(ws[k + 1].m) <= Work(ws[k].m)
    ensures ws[k + 1].m.lock == ws[k].m.lock
  {
    ManagerInv(cfg, ws, acts, k);
    WorldShutdownStep(cfg, ws[k], acts[k]);
  }

  lemma {:induction false} WorkDone(acts: seq<Act>, work: seq<nat>, i: nat, j: nat)
    requires i <= j <= |acts| && |work| == |acts| + 1
    requires forall k :: i <= k < j ==> WorkingAct(acts[k]) + work[k + 1] <= work[k]
    ensures Total(acts[i..j], WorkingAct) + work[j] <= work[i]
    decreases j
  {
    if i < j {
      WorkDone(acts, work, i, j - 1);
      assert acts[i..j] == acts[i..j - 1] + [acts[j - 1]];
      TotalAppend(acts[i..j - 1], acts[j - 1], WorkingAct);
    }
  }

  /** In every history, however runs fire and start calls meanwhile, `Terminate` waits through at most as many
      working steps as there was work left, and keeps the lock. */
  lemma {:induction false} HistoryShutdownBounded(cfg: Config, ws: seq<World>, acts: seq<Act>, i: nat, j: nat)
    requires IsHistory(cfg, ws, acts) && i <= j < |ws|
    requires forall k :: i <= k <= j ==> ws[k].m.term.Awaiting?
    ensures Total(acts[i..j], WorkingAct) + Work(ws[j].m) <= Work(ws[i].m)
    ensures ws[j].m.lock.ByTerminate?
  {
    var work := seq(|ws|, k requires 0 <= k < |ws| => Work(ws[k].m));
    forall k | i <= k < j ensures WorkingAct(acts[k]) + work[k + 1] <= work[k] {
      HistoryStep(cfg, ws, acts, k);
    }
    WorkDone(acts, work, i, j);
    ManagerInv(cfg, ws, acts, j);
  }

  /** The manager's part of a world takes these steps while the runs stand still. */
  ghost predicate Follows(cfg: Config, w: World, run: seq<State>, acts: seq<Action>, ws': seq<World>, acts': seq<Act>) {
    && |ws'| == |run| == |acts| + 1 && |acts'| == |acts|
    && (forall k :: 0 <= k < |run| ==> ws'[k] == w.(m := run[k]))
    && (forall k :: 0 <= k < |acts| ==> acts'[k] == OfManager(acts[k]))
  }

  lemma Extended(cfg: Config, ws: seq<World>, acts: seq<Act>, run: seq<State>, mActs: seq<Action>, more: seq<World>, moreActs: seq<Act>)
    requires IsHistory(cfg, ws, acts) && Drives(run, mActs) && run[0] == ws[|acts|].m
    requires Follows(cfg, ws[|acts|], run, mActs, more, moreActs)
    ensures IsHistory(cfg, ws + more[1..], acts + moreActs)
  {
    var n := |acts|;
    var ws', acts' := ws + more[1..], acts + moreActs;
    assert more[0] == ws[n];
    forall k | 0 <= k < |acts'|
      ensures ActEnabled(cfg, ws'[k], acts'[k]) && ws'[k + 1] == WorldNext(cfg, ws'[k], acts'[k])
    {
      if k >= n {
        assert ws'[k] == more[k - n] && ws'[k + 1] == more[k - n + 1] && acts'[k] == OfManager(mActs[k - n]);
        assert Driving(run[k - n], mActs[k - n]) && Enabled(run[k - n], mActs[k - n]);
      }
    }
  }

  /** From every point of every history at which `Terminate` waits, the manager's own steps and the exits of
      signalled children complete it, within the work left, whatever the runs wait for. */
  lemma {:induction false} HistoryShutdownCompletes(cfg: Config, ws: seq<World>, acts: seq<Act>)
    returns (more: seq<World>, moreActs: seq<Act>)
    requires IsHistory(cfg, ws, acts) && ws[|acts|].m.term.Awaiting?
    ensures IsHistory(cfg, ws + more, acts + moreActs) && |more| == |moreActs| <= Work(ws[|acts|].m) + 2
    ensures more != [] && var last := more[|more| - 1];
            last.m.term.Gone? && last.m.lock.Free? && last == ws[|acts|].(m := last.m)
    ensures forall k :: 0 <= k < |moreActs| ==> moreActs[k].OfManager? && Driving((ws + more)[|acts| + k].m, moreActs[k].a)
  {
    var w := ws[|acts|];
    ManagerInv(cfg, ws, acts, |acts|);
    var run, mActs := ShutdownCompletes(w.m);
    var worlds := seq(|run|, k requires 0 <= k < |run| => w.(m := run[k]));
    moreActs := seq(|mActs|, k requires 0 <= k < |mActs| => OfManager(mActs[k]));
    Extended(cfg, ws, acts, run, mActs, worlds, moreActs);
    more := worlds[1..];
    forall k | 0 <= k < |moreActs| ensures Driving((ws + more)[|acts| + k].m, moreActs[k].a) {
      assert (ws + more)[|acts| + k] == worlds[k];
    }
  }
}
