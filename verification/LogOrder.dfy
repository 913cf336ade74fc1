/** Sequence numbers grow along each log, from one log to the next, and from the tables of a
    version to the logs it leaves to replay. */
module LogOrder {
  import opened InternalKeys
  import opened Durability
  import opened DurabilityProofs

  ghost predicate Logged(db: Db, n: nat, e: Entry) { n in db.logs && db.logs[n].Holds(e) }

  ghost predicate LogsInOrder(db: Db) {
    && (forall n :: n in db.logs ==> InOrder(db.logs[n].records))
    && (forall n, m, x, y :: n < m && Logged(db, n, x) && Logged(db, m, y) ==> x.ikey.sequence < y.ikey.sequence)
    && (forall n, x :: Logged(db, n, x) ==> 1 <= x.ikey.sequence)
  }

  /** Whatever a version leaves to the logs is newer than its tables. */
  ghost predicate TablesBefore(db: Db, v: Version) {
    forall x, n, y :: InTables(db.tables, v.tables, x) && v.logNumber <= n && Logged(db, n, y)
      ==> x.ikey.sequence < y.ikey.sequence
  }

  ghost predicate ImmBefore(db: Db) {
    forall x, y :: InImm(db, x) && Logged(db, db.logfile, y) ==> x.ikey.sequence < y.ikey.sequence
  }

  /** Before a group is logged, no log holds numbers as large as its own. */
  ghost predicate NotYetLogged(db: Db) {
    db.commit.Some? && db.commit.value.stage.Logging? ==>
      forall n, x :: Logged(db, n, x) ==> x.ikey.sequence <= db.lastSequence
  }

  ghost predicate OrderInv(db: Db) {
    && LogsInOrder(db) && ImmBefore(db) && NotYetLogged(db)
    && forall v :: Candidate(db, v) ==> TablesBefore(db, v)
  }

  // ---- Steps that log nothing ----

  /** Every version stands for one that was there before, with no more entries or logs. */
  ghost predicate NoMore(db: Db, db': Db) {
    && db'.env == db.env && db'.logfile == db.logfile
    && (forall n :: n in db'.logs ==>
          n in db.logs && db'.logs[n].file == db.logs[n].file
          && db'.logs[n].records == db.logs[n].records && db'.logs[n].doubtful == db.logs[n].doubtful)
    && (forall e :: InImm(db', e) ==> InImm(db, e))
    && (forall v :: Candidate(db', v) ==> Within(db, db', v))
  }

  ghost predicate Within(db: Db, db': Db, v: Version) {
    exists w ::
      Candidate(db, w) && w.logNumber <= v.logNumber
      && forall e :: InTables(db'.tables, v.tables, e) ==> InTables(db.tables, w.tables, e)
  }

  lemma NoMoreLogged(db: Db, db': Db, n: nat, e: Entry)
    requires NoMore(db, db') && Logged(db', n, e)
    ensures Logged(db, n, e)
  {
    var r :| Recorded(db'.logs[n], r) && r.Holds(e);
    assert Recorded(db.logs[n], r);
  }

  lemma NoMoreKeepsOrder(db: Db, db': Db)
    requires OrderInv(db) && NoMore(db, db') && NotYetLogged(db')
    ensures OrderInv(db')
  {
    forall n, e | Logged(db', n, e)
      ensures Logged(db, n, e)
    {
      NoMoreLogged(db, db', n, e);
    }
    forall v | Candidate(db', v)
      ensures TablesBefore(db', v)
    {
      var w :| Candidate(db, w) && w.logNumber <= v.logNumber
               && forall e :: InTables(db'.tables, v.tables, e) ==> InTables(db.tables, w.tables, e);
    }
  }

  lemma SameVersionsNoMore(db: Db, db': Db)
    requires SameVersions(db, db')
    ensures NoMore(db, db')
  {
    forall v | Candidate(db', v)
      ensures Within(db, db', v)
    {
      assert Candidate(db, v);
    }
  }

  lemma SameFilesNoMore(db: Db, db': Db)
    requires SameFiles(db, db') && db'.logs.Keys == db.logs.Keys
    requires forall n :: n in db'.logs ==>
               db'.logs[n] == db.logs[n]
               || (n == db.logfile && db'.logs[n] == db.logs[n].(synced := db'.logs[n].synced))
    ensures NoMore(db, db')
  {
    forall v | Candidate(db', v)
      ensures Within(db, db', v)
    {
      assert Candidate(db, v);
    }
  }

  lemma MergeNoMore(db: Db, step: Step, db': Db)
    requires FilesOk(db) && JobsOk(db) && step.FinishMerge? && Next(db, step, db')
    ensures NoMore(db, db')
  {
    MergeOffers(db, step, db');
    forall v | Candidate(db', v)
      ensures Within(db, db', v)
    {
      assert Candidate(db, db.saved);
    }
  }

  lemma InstallNoMore(db: Db, step: Step, db': Db)
    requires JobsOk(db) && step.InstallOk? && Next(db, step, db')
    ensures NoMore(db, db')
  {
    forall v | Candidate(db', v)
      ensures Within(db, db', v)
    {
      assert Candidate(db, db.job.version) && v == db.job.version;
    }
  }

  lemma CollectNoMore(db: Db, step: Step, db': Db)
    requires FilesOk(db) && JobsOk(db) && step.Collect? && Next(db, step, db')
    ensures NoMore(db, db')
  {
    CollectKeepsFiles(db, step, db');
    forall v | Candidate(db', v)
      ensures Within(db, db', v)
    {
      assert Candidate(db, db.saved) && v == db.saved;
    }
  }

  // ---- Logging ----

  lemma OldIsBefore(db: Db, r: Record, q: Record)
    requires db.commit.Some? && r.sequence == db.lastSequence + 1
    requires forall x :: q.Holds(x) ==> x.ikey.sequence <= db.lastSequence
    ensures Before(q, r)
  {
  }

  lemma AppendedInOrder(records: seq<Record>, r: Record)
    requires InOrder(records) && forall q :: q in records ==> Before(q, r)
    ensures InOrder(records + [r])
  {
  }

  /** The records after the append are in order, too. */
  lemma AppendKeepsRecords(db: Db, step: Step, db': Db)
    requires OrderInv(db) && LogsOk(db) && db.logfile in db.logs && db.commit.Some? && CommitStep(db, step, db')
    requires db.commit.value.record.sequence == db.lastSequence + 1 && (step.AppendOk? || step.AppendFails?)
    ensures InOrder(CurrentLog(db').records)
  {
    var log, log', r := CurrentLog(db), CurrentLog(db'), db.commit.value.record;
    if step.AppendOk? && !log.Torn() {
      forall q | q in log.records
        ensures Before(q, r)
      {
        assert forall x :: q.Holds(x) ==> Logged(db, db.logfile, x);
        OldIsBefore(db, r, q);
      }
      AppendedInOrder(log.records, r);
    }
  }

  lemma LoggedOrNew(db: Db, step: Step, db': Db, n: nat, e: Entry)
    requires db.logfile in db.logs && db.commit.Some? && CommitStep(db, step, db')
             && (step.AppendOk? || step.AppendFails?)
    requires Logged(db', n, e)
    ensures Logged(db, n, e) || (n == db.logfile && db.commit.value.record.Holds(e))
  {
    LogKnowsNoMore(db, step, db', n, e);
    var r :| Recorded(db'.logs[n], r) && r.Holds(e);
    assert n != db.logfile ==> Recorded(db.logs[n], r);
    assert n == db.logfile ==> Recorded(db.logs[n], r) || r == db.commit.value.record;
  }

  /** New numbers are above all that tables, the immutable memtable and logs hold. */
  lemma AppendKeepsOrder(db: Db, step: Step, db': Db)
    requires Inv(db) && OrderInv(db) && db.commit.Some? && CommitStep(db, step, db')
             && (step.AppendOk? || step.AppendFails?)
    ensures OrderInv(db')
  {
    CommitGrowsLog(db, step, db');
    AppendKeepsRecords(db, step, db');
    forall n, e | Logged(db', n, e)
      ensures Logged(db, n, e) || (n == db.logfile && e.ikey.sequence > db.lastSequence)
    {
      LoggedOrNew(db, step, db', n, e);
    }
    AppendKeepsLogs(db, db');
    AppendKeepsRest(db, db');
  }

  /** Only the current log got more, and only larger numbers. */
  ghost predicate OnlyLarger(db: Db, db': Db) {
    && db'.env == db.env && db'.logfile == db.logfile && db'.logs.Keys == db.logs.Keys
    && (forall n :: n in db.logs && n != db.logfile ==> db'.logs[n] == db.logs[n])
    && (forall n, e :: Logged(db', n, e) ==> Logged(db, n, e) || (n == db.logfile && e.ikey.sequence > db.lastSequence))
    && (forall n, e :: Logged(db, n, e) ==> e.ikey.sequence <= db.lastSequence)
  }

  lemma AppendKeepsLogs(db: Db, db': Db)
    requires LogsInOrder(db) && OnlyLarger(db, db') && (forall n :: n in db.logs ==> n <= db.logfile)
    requires db.logfile in db.logs ==> InOrder(db'.logs[db.logfile].records)
    ensures LogsInOrder(db')
  {
    forall n, m, x, y | n < m && Logged(db', n, x) && Logged(db', m, y)
      ensures x.ikey.sequence < y.ikey.sequence
    {
      assert n != db.logfile;
    }
  }

  lemma AppendKeepsRest(db: Db, db': Db)
    requires FilesOk(db) && NumbersOk(db) && OrderInv(db) && OnlyLarger(db, db')
    requires db'.tables == db.tables && db'.saved == db.saved && db'.offered == db.offered && db'.imm == db.imm
    ensures ImmBefore(db') && forall v :: Candidate(db', v) ==> TablesBefore(db', v)
  {
    forall v | Candidate(db', v)
      ensures TablesBefore(db', v)
    {
      assert VersionOk(db, v);
      assert TablesBefore(db, v);
    }
  }

  // ---- Switch and flush ----

  lemma SwitchKeepsOrder(db: Db, step: Step, db': Db)
    requires FilesOk(db) && LogsOk(db) && OrderInv(db) && step.SwitchMemtable? && Next(db, step, db')
    ensures OrderInv(db')
  {
    EmptyLogOk(db.env);
    forall n, e | Logged(db', n, e)
      ensures Logged(db, n, e) && n != db'.logfile
    {
      EmptyLogHoldsNothing(e);
    }
    forall v | Candidate(db', v)
      ensures TablesBefore(db', v)
    {
      assert TablesBefore(db, v);
    }
  }

  lemma SameLogged(db: Db, db': Db)
    requires OrderInv(db) && SameMemory(db, db') && db'.imm == db.imm
    ensures LogsInOrder(db') && ImmBefore(db') && NotYetLogged(db')
    ensures forall n, e :: Logged(db', n, e) ==> Logged(db, n, e)
  {
    forall n, e
      ensures Logged(db', n, e) == Logged(db, n, e)
    {
      assert db'.logs == db.logs;
    }
  }

  lemma BuiltBefore(db: Db, db': Db, v: Version)
    requires FilesOk(db) && TablesBefore(db, db.saved) && ImmBefore(db)
             && db.saved.logNumber <= v.logNumber == db.logfile
    requires forall n, e :: Logged(db', n, e) ==> Logged(db, n, e)
    requires forall e :: InTables(db'.tables, v.tables, e) ==> InTables(db.tables, db.saved.tables, e) || InImm(db, e)
    ensures TablesBefore(db', v)
  {
    forall x, n, y | InTables(db'.tables, v.tables, x) && v.logNumber <= n && Logged(db', n, y)
      ensures x.ikey.sequence < y.ikey.sequence
    {
      assert Logged(db, n, y) && n == db.logfile;
    }
  }

  lemma BuildKeepsOrder(db: Db, step: Step, db': Db)
    requires FilesOk(db) && JobsOk(db) && OrderInv(db) && step.BuildOk? && Next(db, step, db')
    ensures OrderInv(db')
  {
    BuildOffers(db, step, db');
    SameLogged(db, db');
    assert TablesBefore(db, db.saved);
    BuiltBefore(db, db', db'.offered.value);
    SavedStaysBefore(db, db');
  }

  lemma SavedStaysBefore(db: Db, db': Db)
    requires TablesBefore(db, db.saved) && db'.saved == db.saved
             && SameEntries(db'.tables, db.saved.tables, db.tables, db.saved.tables)
    requires forall n, e :: Logged(db', n, e) ==> Logged(db, n, e)
    ensures TablesBefore(db', db'.saved)
  {
  }

  lemma RecoverKeepsOrder(db: Db, step: Step, db': Db)
    requires LogsOk(db) && step.Recover? && Next(db, step, db')
    ensures OrderInv(db')
  {
    EmptyLogOk(db.env);
    forall n, e
      ensures !Logged(db', n, e)
    {
      EmptyLogHoldsNothing(e);
    }
  }

  // ---- All steps ----

  lemma BeginKeepsOrder(db: Db, step: Step, db': Db)
    requires NumbersOk(db) && OrderInv(db) && step.Begin? && Next(db, step, db')
    ensures OrderInv(db')
  {
    assert SameFiles(db, db');
    SameFilesNoMore(db, db');
    forall n, x | Logged(db', n, x)
      ensures x.ikey.sequence <= db'.lastSequence
    {
      assert Known(db, x);
    }
    NoMoreKeepsOrder(db, db');
  }

  lemma CommitKeepsOrder(db: Db, step: Step, db': Db)
    requires Inv(db) && OrderInv(db) && db.commit.Some? && CommitStep(db, step, db')
    ensures OrderInv(db')
  {
    CommitKeepsFiles(db, step, db');
    if step.AppendOk? || step.AppendFails? {
      AppendKeepsOrder(db, step, db');
    } else {
      CommitGrowsLog(db, step, db');
      SameFilesNoMore(db, db');
      NoMoreKeepsOrder(db, db');
    }
  }

  lemma NextKeepsOrder(db: Db, step: Step, db': Db)
    requires Inv(db) && OrderInv(db) && Next(db, step, db')
    ensures OrderInv(db')
  {
    if step.Recover? {
      RecoverKeepsOrder(db, step, db');
    } else if step.Begin? {
      BeginKeepsOrder(db, step, db');
    } else if step.SwitchMemtable? {
      SwitchKeepsOrder(db, step, db');
    } else if step.BuildOk? {
      BuildKeepsOrder(db, step, db');
    } else if Quiet(step) || step.FinishMerge? || step.InstallOk? || step.Collect? {
      BackgroundKeepsOrder(db, step, db');
    } else {
      CommitKeepsOrder(db, step, db');
    }
  }

  lemma BackgroundKeepsOrder(db: Db, step: Step, db': Db)
    requires FilesOk(db) && JobsOk(db) && OrderInv(db) && Next(db, step, db')
    requires Quiet(step) || step.FinishMerge? || step.InstallOk? || step.Collect?
    ensures OrderInv(db')
  {
    if Quiet(step) {
      QuietIsSame(db, step, db');
      SameVersionsNoMore(db, db');
    } else if step.FinishMerge? {
      MergeNoMore(db, step, db');
    } else if step.InstallOk? {
      InstallNoMore(db, step, db');
    } else {
      CollectNoMore(db, step, db');
    }
    NoMoreNotYet(db, db');
    NoMoreKeepsOrder(db, db');
  }

  lemma NoMoreNotYet(db: Db, db': Db)
    requires NoMore(db, db') && NotYetLogged(db) && db'.commit == db.commit && db'.lastSequence == db.lastSequence
    ensures NotYetLogged(db')
  {
    forall n, e | Logged(db', n, e)
      ensures Logged(db, n, e)
    {
      NoMoreLogged(db, db', n, e);
    }
  }

  lemma InitialOrder(db: Db)
    requires Initial(db)
    ensures OrderInv(db)
  {
    EmptyLogOk(db.env);
    forall n, e
      ensures !Logged(db, n, e)
    {
      EmptyLogHoldsNothing(e);
    }
  }

  lemma StepKeepsOrder(run: seq<Db>, steps: seq<Step>, i: nat)
    requires IsRun(run, steps) && i < |steps| && OrderInv(run[i])
    ensures OrderInv(run[i + 1])
  {
    RunsKeepInv(run, steps, i);
    assert StepAt(run, steps, i);
    NextKeepsOrder(run[i], steps[i], run[i + 1]);
  }

  /** As long as no append to it has failed, a log reads what was appended, in order. */
  lemma UntornIsFaithful(db: Db, n: nat)
    requires LogsOk(db) && LogsInOrder(db) && n in db.logs && !db.logs[n].Torn()
    ensures db.logs[n].Faithful(db.env)
  {
    assert LogOk(db.env, db.logs[n]);
  }

  lemma {:induction false} RunsKeepOrder(run: seq<Db>, steps: seq<Step>, i: nat)
    requires IsRun(run, steps) && i < |run|
    ensures OrderInv(run[i])
  {
    if i == 0 {
      InitialOrder(run[0]);
    } else {
      RunsKeepOrder(run, steps, i - 1);
      StepKeepsOrder(run, steps, i - 1);
    }
  }
}
