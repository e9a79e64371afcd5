/**
 * The persistence step of the submit handler: the updated table is written to
 * the local CSV file first and then pushed to the remote repository; a failed
 * push is reported and the local write stays.
 */
module Store {
  import opened Wrappers
  import opened Log
  import Intake

  /** What one press of the submit button ends in. */
  datatype Outcome = Rejected(reason: Intake.Rejection) | Saved(synced: bool)

  /**
   * The two copies of the log file: the local one the app reads, and the one in
   * the remote repository. Either may be absent.
   */
  class LogStore {
    var localFile: Option<Table>
    var remoteFile: Option<Table>

    /**
     * With a single writer the remote copy never runs ahead of the local one:
     * when it exists, it is a prefix of the local table.
     */
    ghost predicate Valid()
      reads this
    {
      remoteFile.Some? ==> localFile.Some? && remoteFile.value <= localFile.value
    }

    /** A deployment starts from a checkout of the repository: both copies agree. */
    constructor Deploy(initial: Option<Table>)
      ensures Valid()
      ensures localFile == initial && remoteFile == initial
    {
      localFile := initial;
      remoteFile := initial;
    }

    /**
     * `save_to_github`: replace the remote file by `t`. The update needs the
     * remote file's current revision, so it fails when the file is absent;
     * `hostAccepts` stands for the outcome of the network call. A failure
     * returns false and leaves the remote copy as it was.
     */
    method Push(t: Table, hostAccepts: bool) returns (ok: bool)
      modifies this`remoteFile
      ensures ok == (hostAccepts && old(remoteFile).Some?)
      ensures remoteFile == if ok then Some(t) else old(remoteFile)
    {
      if hostAccepts && remoteFile.Some? {
        remoteFile := Some(t);
        ok := true;
      } else {
        ok := false;
      }
    }

    /**
     * The submit handler against the stored files: load, validate, append,
     * write the local file, then push. A rejection changes neither file. An
     * accepted submission always reaches the local file; the remote file
     * receives the same table only when the push succeeds.
     */
    method HandleSubmit(sub: Intake.Submission, hostAccepts: bool) returns (outcome: Outcome)
      modifies this
      ensures old(Valid()) ==> Valid()
      ensures Intake.Validate(sub).Some? ==>
        outcome == Rejected(Intake.Validate(sub).value)
        && localFile == old(localFile) && remoteFile == old(remoteFile)
      ensures Intake.Validate(sub).None? ==>
        var updated := Append(Load(old(localFile)), Intake.MakeRecord(sub));
        && outcome == Saved(hostAccepts && old(remoteFile).Some?)
        && localFile == Some(updated)
        && remoteFile == (if outcome.synced then Some(updated) else old(remoteFile))
    {
      var table := Load(localFile);
      match Intake.Submit(table, sub)
      case Failure(e) =>
        outcome := Rejected(e);
      case Success(updated) =>
        AppendKeepsPrefix(table, Intake.MakeRecord(sub));
        localFile := Some(updated);
        var ok := Push(updated, hostAccepts);
        outcome := Saved(ok);
    }
  }

  /**
   * A failed push is made good by the next accepted submission whose push
   * succeeds: the remote copy then holds both new records, in order.
   */
  method SyncCatchesUp(store: LogStore, first: Intake.Submission, second: Intake.Submission)
    requires store.remoteFile.Some?
    requires Intake.Validate(first).None? && Intake.Validate(second).None?
    modifies store
    ensures store.remoteFile == store.localFile
    ensures store.localFile ==
      Some(Load(old(store.localFile)) + [Intake.MakeRecord(first), Intake.MakeRecord(second)])
  {
    ghost var before := Load(store.localFile);
    var o1 := store.HandleSubmit(first, false);
    assert o1 == Saved(false);
    var o2 := store.HandleSubmit(second, true);
    assert o2 == Saved(true);
    assert (before + [Intake.MakeRecord(first)]) + [Intake.MakeRecord(second)]
      == before + [Intake.MakeRecord(first), Intake.MakeRecord(second)];
  }
}
