/** What recovery may bring back. Logs without failed appends give back only what was written;
    a log with one may hold bytes that read as a record nobody appended. */
module WrittenOnly {
  import opened InternalKeys
  import opened Durability
  import opened DurabilityProofs
  import opened DurableWrites
  import opened LogOrder

  /** Every log that this version leaves to replay reads only what was appended to it. */
  ghost predicate ReadsOnlyWritten(db: Db, v: Version) {
    forall n :: n in db.logs && v.logNumber <= n ==> db.logs[n].Genuine(db.env)
  }

  /** It does while none of its appends has failed. */
  lemma UntornIsWritten(db: Db, v: Version)
    requires LogsOk(db) && LogsInOrder(db)
    requires forall n :: n in db.logs && v.logNumber <= n ==> !db.logs[n].Torn()
    ensures ReadsOnlyWritten(db, v)
  {
    forall n | n in db.logs && v.logNumber <= n
      ensures db.logs[n].Genuine(db.env)
    {
      UntornIsFaithful(db, n);
    }
  }

  // ---- One recovery ----

  /** Whatever a crash does, recovery from the version makes up no entry. */
  ghost predicate InventsNothing(db: Db, v: Version) {
    forall step: Step, db': Db, e ::
      step.Recover? && step.version == v && Next(db, step, db') && Contents(db', e) ==> Known(db, e)
  }

  /** Some log to be replayed, not cut off at all, reads the entry. */
  ghost predicate WholeLogsRead(db: Db, v: Version, e: Entry) {
    exists n, r :: n in db.logs && v.logNumber <= n && r in db.env.read(db.logs[n].file) && r.Holds(e)
  }

  /** The best a crash can do to the logs. */
  ghost function WholeLogs(db: Db, v: Version): map<nat, seq<Record>> {
    map n | n in db.logs && n >= v.logNumber :: db.env.read(db.logs[n].file)
  }

  lemma WholeIsReplayed(db: Db, v: Version)
    requires LogsOk(db)
    ensures Replayed(db, v, WholeLogs(db, v))
  {
    forall n | n in db.logs
      ensures db.logs[n].LeavesBehind(db.env, db.env.read(db.logs[n].file))
    {
      var log := db.logs[n];
      assert LogOk(db.env, log) && log.file[..|log.file|] == log.file;
    }
  }

  lemma ReplayedIsInWhole(db: Db, v: Version, kept: map<nat, seq<Record>>, e: Entry)
    requires LogsOk(db) && Replayed(db, v, kept) && InKept(kept, e)
    ensures WholeLogsRead(db, v, e)
  {
    var n, r :| n in kept && r in kept[n] && r.Holds(e);
    ReplayedIsRead(db.env, db.logs[n], kept[n]);
  }

  /** Recovery makes up nothing if, and only if, the logs it replays, read to their ends, hold
      only entries that somebody wrote. */
  lemma InventsNothingIff(db: Db, v: Version)
    requires FilesOk(db) && LogsOk(db) && Candidate(db, v)
    ensures InventsNothing(db, v) <==> forall e :: WholeLogsRead(db, v, e) ==> Known(db, e)
  {
    if forall e :: WholeLogsRead(db, v, e) ==> Known(db, e) {
      forall step: Step, db': Db, e | step.Recover? && step.version == v && Next(db, step, db') && Contents(db', e)
        ensures Known(db, e)
      {
        RecoveredIsKnown(db, step, db', e);
      }
    }
    if InventsNothing(db, v) {
      forall e | WholeLogsRead(db, v, e)
        ensures Known(db, e)
      {
        WholeComesBack(db, v, e);
      }
    }
  }

  lemma RecoveredIsKnown(db: Db, step: Step, db': Db, e: Entry)
    requires FilesOk(db) && LogsOk(db) && step.Recover? && Next(db, step, db') && Contents(db', e)
    requires WholeLogsRead(db, step.version, e) ==> Known(db, e)
    ensures Known(db, e)
  {
    RecoveredContents(db, step, db', e);
    if InKept(step.kept, e) {
      ReplayedIsInWhole(db, step.version, step.kept, e);
    } else {
      CandidateIsKnown(db, step.version, e);
    }
  }

  lemma WholeComesBack(db: Db, v: Version, e: Entry)
    requires FilesOk(db) && LogsOk(db) && Candidate(db, v) && InventsNothing(db, v) && WholeLogsRead(db, v, e)
    ensures Known(db, e)
  {
    WholeIsReplayed(db, v);
    var step, db' := RecoveryIsPossible(db, v, WholeLogs(db, v));
    var n, r :| n in db.logs && v.logNumber <= n && r in db.env.read(db.logs[n].file) && r.Holds(e);
    assert n in step.kept && r in step.kept[n];
    RecoveredContents(db, step, db', e);
  }

  lemma WrittenIsKnown(db: Db, v: Version, e: Entry)
    requires ReadsOnlyWritten(db, v) && WholeLogsRead(db, v, e)
    ensures Known(db, e)
  {
    var n, r :| n in db.logs && v.logNumber <= n && r in db.env.read(db.logs[n].file) && r.Holds(e);
    assert Recorded(db.logs[n], r);
    assert db.logs[n].Holds(e);
  }

  lemma InventedInRun(run: seq<Db>, steps: seq<Step>, i: nat, v: Version, e: Entry)
    requires IsRun(run, steps) && i < |run| && Candidate(run[i], v) && WholeLogsRead(run[i], v, e) && !Known(run[i], e)
    ensures !InventsNothing(run[i], v)
  {
    RunsKeepInv(run, steps, i);
    InventsNothingIff(run[i], v);
  }

  // ---- Runs ----

  /** No two entries anywhere share a number. */
  ghost predicate NumbersDistinct(db: Db) {
    forall x, y :: Known(db, x) && Known(db, y) && x.ikey.sequence == y.ikey.sequence ==> x == y
  }

  lemma NoMoreKeepsDistinct(db: Db, db': Db)
    requires NumbersDistinct(db) && forall e :: Known(db', e) ==> Known(db, e)
    ensures NumbersDistinct(db')
  {
  }

  lemma BeginKeepsDistinct(db: Db, step: Step, db': Db)
    requires NumbersOk(db) && NumbersDistinct(db) && step.Begin? && Next(db, step, db')
    ensures NumbersDistinct(db')
  {
    var r := db'.commit.value.record;
    forall e | Known(db', e)
      ensures (Known(db, e) && e.ikey.sequence <= db.lastSequence) || (r.Holds(e) && e.ikey.sequence > db.lastSequence)
    {
    }
  }

  lemma OtherKnowsNoMore(db: Db, step: Step, db': Db)
    requires FilesOk(db) && JobsOk(db) && Next(db, step, db') && !step.Begin? && !step.Recover?
    ensures forall e :: Known(db', e) ==> Known(db, e)
  {
    if step.SwitchMemtable? {
      SwitchKnowsNoMore(db, step, db');
    } else if Quiet(step) {
      QuietIsSame(db, step, db');
      SameVersionsKnowNoMore(db, db');
    } else if step.BuildOk? {
      BuildOffers(db, step, db');
      OfferKnowsNoMore(db, db', db'.offered.value);
    } else if step.FinishMerge? {
      MergeOffers(db, step, db');
      OfferKnowsNoMore(db, db', db'.offered.value);
    } else if step.InstallOk? {
      InstallKnowsNoMore(db, step, db');
    } else if step.Collect? {
      CollectKeepsFiles(db, step, db');
      CollectKnowsNoMore(db, step, db');
    } else {
      CommitKeepsFiles(db, step, db');
      CommitKnowsNoMore(db, step, db');
    }
  }

  lemma RecoverKnowsNoMore(db: Db, step: Step, db': Db)
    requires FilesOk(db) && LogsOk(db) && step.Recover? && Next(db, step, db') && ReadsOnlyWritten(db, step.version)
    ensures forall e :: Known(db', e) ==> Known(db, e)
  {
    forall e | Known(db', e)
      ensures Known(db, e)
    {
      OnlyTablesKnown(db, step, e);
      if WholeLogsRead(db, step.version, e) {
        WrittenIsKnown(db, step.version, e);
      }
      RecoveredIsKnown(db, step, db', e);
    }
  }

  /** Recoveries that replay only what was written keep numbers distinct, and so does every
      other step. */
  lemma NextKeepsDistinct(db: Db, step: Step, db': Db)
    requires Inv(db) && NumbersDistinct(db) && Next(db, step, db')
    requires step.Recover? ==> ReadsOnlyWritten(db, step.version)
    ensures NumbersDistinct(db')
  {
    if step.Begin? {
      BeginKeepsDistinct(db, step, db');
    } else if step.Recover? {
      RecoverKnowsNoMore(db, step, db');
      NoMoreKeepsDistinct(db, db');
    } else {
      OtherKnowsNoMore(db, step, db');
      NoMoreKeepsDistinct(db, db');
    }
  }

  lemma InitialDistinct(db: Db)
    requires Initial(db)
    ensures NumbersDistinct(db)
  {
    forall e
      ensures !Known(db, e)
    {
      EmptyLogHoldsNothing(e);
    }
  }

  lemma StepKeepsDistinct(run: seq<Db>, steps: seq<Step>, i: nat)
    requires IsRun(run, steps) && i < |steps| && NumbersDistinct(run[i])
    requires steps[i].Recover? ==> ReadsOnlyWritten(run[i], steps[i].version)
    ensures NumbersDistinct(run[i + 1])
  {
    RunsKeepInv(run, steps, i);
    assert StepAt(run, steps, i);
    NextKeepsDistinct(run[i], steps[i], run[i + 1]);
  }

  lemma {:induction false} RunsKeepDistinct(run: seq<Db>, steps: seq<Step>, i: nat)
    requires IsRun(run, steps) && i < |run|
    requires forall j :: 0 <= j < i && steps[j].Recover? ==> ReadsOnlyWritten(run[j], steps[j].version)
    ensures NumbersDistinct(run[i])
  {
    if i == 0 {
      InitialDistinct(run[0]);
    } else {
      RunsKeepDistinct(run, steps, i - 1);
      StepKeepsDistinct(run, steps, i - 1);
    }
  }
}
