/** The executor of executor/executor.go as one goroutine sees it: the admission flag, guarded by the
    executor's mutex, and the order of one `Execute`.  The critical sections and the order are the ones
    that the runs of `BackupRuns` take as steps; there they interleave with other runs and `Terminate`. */
module Executor {
  import opened Options
  import opened MultiUploader
  import opened BackupRuns

  /** One command handed to the process manager, and the error of its `Start`. */
  datatype Started = Started(command: string, error: Option<string>)

  /** The process manager's side: it records each command and decides its result freely. */
  class Manager {
    var started: seq<Started>

    constructor ()
      ensures started == []
    {
      started := [];
    }

    method Start(command: string) returns (err: Option<string>)
      modifies this
      ensures started == old(started) + [Started(command, err)]
    {
      err := *;
      started := started + [Started(command, err)];
    }
  }

  class Executor {
    const uploaders: seq<string>
    const sourceFolder: string
    const backupCreatorCmd: string
    const cleanupCmd: string
    const exitIfBackupInProgress: bool
    var backupInProgress: bool

    constructor (uploaders: seq<string>, sourceFolder: string, backupCreatorCmd: string, cleanupCmd: string, exitIfInProgress: bool)
      ensures this.uploaders == uploaders && this.sourceFolder == sourceFolder
      ensures this.backupCreatorCmd == backupCreatorCmd && this.cleanupCmd == cleanupCmd
      ensures exitIfBackupInProgress == exitIfInProgress && !backupInProgress
    {
      this.uploaders, this.sourceFolder := uploaders, sourceFolder;
      this.backupCreatorCmd, this.cleanupCmd := backupCreatorCmd, cleanupCmd;
      exitIfBackupInProgress, backupInProgress := exitIfInProgress, false;
    }

    /** Admitted: the flag is set.  Rejected: the flag was set and stays set. */
    method BackupCanBeStarted() returns (ok: bool)
      modifies this
      ensures ok == Admits(old(backupInProgress), exitIfBackupInProgress)
      ensures backupInProgress == FlagNext(old(backupInProgress), exitIfBackupInProgress, Admit)
      ensures backupInProgress && (!ok ==> old(backupInProgress))
    {
      if backupInProgress && exitIfBackupInProgress {
        return false;
      }
      backupInProgress := true;
      return true;
    }

    method DoneBackup()
      modifies this
      ensures !backupInProgress
      ensures backupInProgress == FlagNext(old(backupInProgress), exitIfBackupInProgress, GiveBack)
    {
      backupInProgress := false;
    }

    /** A command that is not configured is not run and does not fail. */
    method Perform(command: string, manager: Manager) returns (err: Option<string>)
      modifies manager
      ensures manager.started == old(manager.started) + (if command == "" then [] else [Started(command, err)])
      ensures command == "" ==> err.None?
    {
      if command == "" {
        return None;
      }
      err := manager.Start(command);
    }

    /** One backup.  `ran` are the commands it handed to the manager and `tried` its uploads.  Rejected, it does
        nothing and leaves the flag set; admitted, it leaves the flag clear on every path.  The source
        command comes first, the uploads of the folder to every destination only if it did not fail, the
        cleanup last and exactly if it is configured, nothing failed before and every upload returned nil; its
        own failure is not reported.  An error carries the identifier and the message of what failed. */
    method Execute(serviceInstanceID: string, manager: Manager, destinations: Destinations)
      returns (err: Option<InstanceError>, ghost ran: seq<Started>, ghost tried: seq<Attempt>)
      modifies this, manager, destinations
      ensures manager.started == old(manager.started) + ran
      ensures destinations.attempts == old(destinations.attempts) + tried
      ensures !Admits(old(backupInProgress), exitIfBackupInProgress) ==>
                err == Some(InstanceError(REJECTED, serviceInstanceID)) && ran == [] && tried == [] && backupInProgress
      ensures Admits(old(backupInProgress), exitIfBackupInProgress) ==> !backupInProgress && InOneRun(serviceInstanceID, err, ran, tried)
    {
      ran, tried := [], [];
      var admitted := BackupCanBeStarted();
      if !admitted {
        return Some(InstanceError(REJECTED, serviceInstanceID)), ran, tried;
      }
      var failure := Perform(backupCreatorCmd, manager);
      ran := if backupCreatorCmd == "" then [] else [Started(backupCreatorCmd, failure)];
      if failure.None? {
        failure, tried := MultiUploader.Upload(uploaders, sourceFolder, destinations);
      }
      if failure.Some? {
        err := Some(InstanceError(failure.value, serviceInstanceID));
      } else {
        err := None;
        failure := Perform(cleanupCmd, manager);
        ran := ran + if cleanupCmd == "" then [] else [Started(cleanupCmd, failure)];
      }
      DoneBackup();
    }

    /** What an admitted `Execute` does, in terms of the commands run and the uploads tried. */
    ghost predicate InOneRun(id: string, err: Option<InstanceError>, ran: seq<Started>, tried: seq<Attempt>) {
      var n := if backupCreatorCmd == "" then 0 else 1;
      && n <= |ran| <= n + 1
      && (n == 1 ==> ran[0].command == backupCreatorCmd)
      && (|ran| > n ==> ran[n].command == cleanupCmd)
      && (var sourceFailed := n == 1 && ran[0].error.Some?;
          var uploadFailed := exists i :: 0 <= i < |tried| && tried[i].outcome.Some?;
          && (if sourceFailed then tried == [] else InOrder(tried, uploaders, sourceFolder))
          && (|ran| > n <==> cleanupCmd != "" && !sourceFailed && !uploadFailed)
          && (err.Some? <==> sourceFailed || uploadFailed)
          && (err.Some? ==>
                && err.value.instanceId == id
                && Some(err.value.message) == if sourceFailed then ran[0].error else FormattedError(Failures(Outcomes(tried)))))
    }
  }
}
