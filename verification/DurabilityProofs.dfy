/** Every step keeps the invariant of Durability, and what follows from it. */
module DurabilityProofs {
  import opened Wrappers
  import opened InternalKeys
  import opened Durability

  // ---- The leader's steps ----

  /** What the leader does leaves files, versions and background jobs alone. */
  ghost predicate SameFiles(db: Db, db': Db) {
    && db'.env == db.env
    && db'.tables == db.tables && db'.saved == db.saved && db'.offered == db.offered
    && db'.imm == db.imm && db'.logfile == db.logfile && db'.nextFile == db.nextFile
    && db'.pinned == db.pinned && db'.pending == db.pending && db'.merging == db.merging && db'.job == db.job
    && db'.lastSequence >= db.lastSequence && (db.bgError ==> db'.bgError)
  }

  lemma SameFilesKept(db: Db, db': Db)
    requires FilesOk(db) && JobsOk(db) && SameFiles(db, db')
    requires db'.logs.Keys == db.logs.Keys
    ensures FilesOk(db') && JobsOk(db')
  {
    assert forall n :: n in db'.logs <==> n in db.logs.Keys;
  }

  lemma CommitKeepsFiles(db: Db, step: Step, db': Db)
    requires FilesOk(db) && JobsOk(db) && db.commit.Some? && CommitStep(db, step, db')
    ensures FilesOk(db') && JobsOk(db') && SameFiles(db, db')
  {
    assert db'.logs.Keys == db.logs.Keys;
    SameFilesKept(db, db');
  }

  /** A log only grows, and what a crash must leave of it too. */
  ghost predicate Grows(env: Env, log: Log, log': Log) {
    && (forall r :: Recorded(log, r) ==> Recorded(log', r))
    && log.Surviving(env) <= log'.Surviving(env)
  }

  lemma LogGrows(env: Env, log: Log, log': Log)
    requires Lawful(env) && log.synced <= |log.file| && log.synced <= log'.synced <= |log'.file|
             && log.file <= log'.file
    requires forall r :: Recorded(log, r) ==> Recorded(log', r)
    ensures Grows(env, log, log')
  {
    var a, b := log.file[..log.synced], log'.file[..log'.synced];
    assert b[..log.synced] == a;
  }

  lemma GrowsHolds(env: Env, log: Log, log': Log, e: Entry)
    requires Grows(env, log, log')
    ensures log.Holds(e) ==> log'.Holds(e)
    ensures log.Keeps(env, e) ==> log'.Keeps(env, e)
  {
    if r :| r in log.Surviving(env) && r.Holds(e) {
      assert r in log'.Surviving(env);
    }
  }

  /** What an append without failure leaves is read back: there is nothing to assume. */
  lemma UntornAppend(env: Env, log: Log, r: Record)
    requires Lawful(env) && LogOk(env, log) && !log.Torn() && env.fits(r)
    ensures LogOk(env, log.Append(env, r))
  {
    var log' := log.Append(env, r);
    assert log'.records[..|log.records|] == log.records;
    assert log'.file == Image(env, log'.records);
  }

  lemma CommitGrowsLog(db: Db, step: Step, db': Db)
    requires LogsOk(db) && db.logfile in db.logs && db.commit.Some? && db.env.fits(db.commit.value.record)
             && CommitStep(db, step, db')
    ensures Grows(db.env, CurrentLog(db), CurrentLog(db')) && LogOk(db.env, CurrentLog(db'))
    ensures db'.env == db.env && db'.logs.Keys == db.logs.Keys
    ensures forall n :: n in db.logs && n != db.logfile ==> db'.logs[n] == db.logs[n]
  {
    var log, log' := CurrentLog(db), CurrentLog(db');
    if step.AppendOk? && !log.Torn() {
      UntornAppend(db.env, log, db.commit.value.record);
    }
    LogGrows(db.env, log, log');
  }

  lemma OlderLogsStay(db: Db, db': Db, e: Entry)
    requires SameFiles(db, db')
             && (forall n :: n in db.logs && n != db.logfile ==> n in db'.logs && db'.logs[n] == db.logs[n])
    ensures InOlderLog(db, e) ==> InOlderLog(db', e)
  {
  }

  lemma CommitKeepsLogs(db: Db, step: Step, db': Db)
    requires FilesOk(db) && LogsOk(db) && CommitOk(db) && db.commit.Some? && CommitStep(db, step, db')
             && SameFiles(db, db')
    ensures LogsOk(db')
  {
    CommitGrowsLog(db, step, db');
    forall e | InImm(db', e)
      ensures InOlderLog(db', e)
    {
      OlderLogsStay(db, db', e);
    }
    forall e | e in db'.mem
      ensures CurrentLog(db').Holds(e)
    {
      InsertedIsLogged(db, step, db', e);
      GrowsHolds(db.env, CurrentLog(db), CurrentLog(db'), e);
    }
  }

  lemma InsertedIsLogged(db: Db, step: Step, db': Db, e: Entry)
    requires CommitOk(db) && db.commit.Some? && CommitStep(db, step, db') && e in db'.mem
    requires e in db.mem ==> CurrentLog(db).Holds(e)
    ensures CurrentLog(db).Holds(e)
  {
    if step.InsertOne? && e !in db.mem {
      assert db.commit.value.record.Holds(e);
    }
  }

  lemma CommitKeepsSettled(db: Db, step: Step, db': Db)
    requires db.logfile in db.logs && Settled(db) && db.commit.Some? && CommitStep(db, step, db')
    requires db.commit.value.record.sequence == db.lastSequence + 1
    ensures Settled(db')
  {
    forall n, r, e | n in db'.logs && Recorded(db'.logs[n], r) && r.Holds(e)
      ensures e.ikey.sequence <= db'.lastSequence
              || (db'.commit.Some? && r == db'.commit.value.record && n == db'.logfile)
    {
      assert Recorded(db.logs[n], r) || r == db.commit.value.record;
    }
  }

  /** After a sync of a log without failed appends, the record is in what survives. */
  lemma SyncedIsRead(env: Env, log: Log, r: Record)
    requires Lawful(env) && LogOk(env, log) && !log.Torn() && r in log.records
    ensures r in log.(synced := |log.file|).Surviving(env)
  {
    assert log.file[..|log.file|] == log.file;
  }

  lemma LogStepKeepsCommit(db: Db, step: Step, db': Db)
    requires db.logfile in db.logs && LogsOk(db) && CommitOk(db) && db.commit.Some? && CommitStep(db, step, db')
    requires step.AppendOk? || step.AppendFails? || step.SyncOk? || step.SyncFails?
    ensures CommitOk(db')
  {
    var log, log', r := CurrentLog(db), CurrentLog(db'), db.commit.value.record;
    CommitKeepsSettled(db, step, db');
    if step.AppendOk? {
      assert log.Torn() ==> log'.doubtful[|log.doubtful|] == r;
      assert !log.Torn() ==> log'.records[|log.records|] == r;
    } else if step.SyncOk? && db.commit.value.stage.safe {
      SyncedIsRead(db.env, log, r);
    }
  }

  lemma InsertedOneMore(db: Db, c: Commit, k: nat, safe: bool, db': Db)
    requires Inserted(db, c, k, safe) && k < |c.record.ops| && c.record.sequence == db.lastSequence + 1
    requires db' == db.(mem := db.mem + {c.record.At(k)}, commit := db'.commit)
    ensures Inserted(db', c.(stage := Inserting(k + 1, safe)), k + 1, safe)
  {
  }

  lemma GroupEnds(db: Db, c: Commit, db': Db)
    requires c.stage.Over? && (if c.stage.ok then MemUpTo(db, |c.record.ops|) else MemUpTo(db, 0))
    requires db'.mem == db.mem && db'.lastSequence == db.lastSequence + |c.record.ops|
    ensures MemUpTo(db', 0)
  {
  }

  lemma InsertKeepsCommit(db: Db, step: Step, db': Db)
    requires CommitOk(db) && db.commit.Some? && CommitStep(db, step, db') && Settled(db')
    requires step.InsertOne? || step.InsertDone? || step.End?
    ensures CommitOk(db')
  {
    var c := db.commit.value;
    if step.InsertOne? {
      InsertedOneMore(db, c, c.stage.next, c.stage.safe, db');
    } else if step.End? {
      GroupEnds(db, c, db');
    }
  }

  /** No step but Begin makes an entry known. */
  lemma CommitKnowsNoMore(db: Db, step: Step, db': Db)
    requires db.logfile in db.logs && db.commit.Some? && CommitStep(db, step, db') && SameFiles(db, db')
    ensures forall e :: Known(db', e) ==> Known(db, e)
  {
    forall e | Known(db', e)
      ensures Known(db, e)
    {
      if e in db'.mem && e !in db.mem {
        assert db.commit.value.record.Holds(e);
      } else if n :| n in db'.logs && db'.logs[n].Holds(e) {
        LogKnowsNoMore(db, step, db', n, e);
      }
    }
  }

  lemma LogKnowsNoMore(db: Db, step: Step, db': Db, n: nat, e: Entry)
    requires db.logfile in db.logs && db.commit.Some? && CommitStep(db, step, db')
    requires n in db'.logs && db'.logs[n].Holds(e)
    ensures n in db.logs && (db.logs[n].Holds(e) || db.commit.value.record.Holds(e))
  {
    var r :| Recorded(db'.logs[n], r) && r.Holds(e);
  }

  lemma CommitKeepsNumbers(db: Db, step: Step, db': Db)
    requires FilesOk(db) && NumbersOk(db) && db.commit.Some? && CommitStep(db, step, db') && SameFiles(db, db')
    ensures NumbersOk(db')
  {
    CommitKnowsNoMore(db, step, db');
  }

  lemma CommitKeepsBacking(db: Db, step: Step, db': Db, v: Version, e: Entry)
    requires FilesOk(db) && LogsOk(db) && db.commit.Some? && db.env.fits(db.commit.value.record)
             && CommitStep(db, step, db') && SameFiles(db, db')
    requires Backed(db, v, e)
    ensures Backed(db', v, e)
  {
    CommitGrowsLog(db, step, db');
    GrowsHolds(db.env, CurrentLog(db), CurrentLog(db'), e);
  }

  /** The end of a synced commit: its entries are in the memtable and in the synced log. */
  lemma CommitIsBacked(db: Db, v: Version, e: Entry)
    requires CommitOk(db) && db.commit.Some?
    requires var c := db.commit.value;
             c.stage.Over? && c.stage.ok && c.record in CurrentLog(db).Surviving(db.env) && e in c.record.Entries()
    ensures Backed(db, v, e)
  {
    var r := db.commit.value.record;
    var k :| 0 <= k < |r.ops| && e == r.At(k);
    assert r.Holds(e);
  }

  lemma CommitKeepsPromises(db: Db, step: Step, db': Db)
    requires FilesOk(db) && LogsOk(db) && CommitOk(db) && PromisesOk(db)
    requires db.commit.Some? && CommitStep(db, step, db') && SameFiles(db, db')
    ensures PromisesOk(db')
  {
    forall e, v | e in db'.promised && Candidate(db', v)
      ensures Backed(db', v, e)
    {
      if e !in db.promised {
        CommitIsBacked(db, v, e);
      }
      CommitKeepsBacking(db, step, db', v, e);
    }
  }

  lemma CommitKeepsInv(db: Db, step: Step, db': Db)
    requires Inv(db) && db.commit.Some? && CommitStep(db, step, db')
    ensures Inv(db')
  {
    CommitKeepsFiles(db, step, db');
    CommitKeepsLogs(db, step, db');
    if step.InsertOne? || step.InsertDone? || step.End? {
      CommitKeepsSettled(db, step, db');
      InsertKeepsCommit(db, step, db');
    } else {
      LogStepKeepsCommit(db, step, db');
    }
    CommitKeepsNumbers(db, step, db');
    CommitKeepsPromises(db, step, db');
  }

  /** The group's numbers are above all numbers met so far. */
  lemma BeginKeepsNumbers(db: Db, step: Step, db': Db)
    requires NumbersOk(db) && step.Begin? && Next(db, step, db')
    ensures NumbersOk(db')
    ensures forall e :: Known(db, e) ==> e.ikey.sequence < db'.commit.value.record.sequence
  {
    var r := db'.commit.value.record;
    forall e | Known(db', e)
      ensures Known(db, e) || r.Holds(e)
    {
    }
  }

  lemma SameBacking(db: Db, db': Db)
    requires PromisesOk(db) && SameFiles(db, db') && db'.mem == db.mem && db'.logs == db.logs
             && db'.promised == db.promised
    ensures PromisesOk(db')
  {
    forall e, v | e in db'.promised && Candidate(db', v)
      ensures Backed(db', v, e)
    {
      assert Backed(db, v, e);
    }
  }

  lemma SameLogs(db: Db, db': Db)
    requires LogsOk(db) && SameFiles(db, db') && db'.mem == db.mem && db'.logs == db.logs
    ensures LogsOk(db')
  {
    assert forall e :: InOlderLog(db, e) ==> InOlderLog(db', e);
  }

  lemma RecordsAreKnown(db: Db, db': Db)
    requires NumbersOk(db) && db.commit.None? && db'.logs == db.logs && db'.lastSequence == db.lastSequence
    ensures Settled(db')
  {
    forall n, r, e | n in db.logs && Recorded(db.logs[n], r) && r.Holds(e)
      ensures e.ikey.sequence <= db.lastSequence
    {
      assert db.logs[n].Holds(e);
      assert Known(db, e);
    }
  }

  lemma BeginKeepsInv(db: Db, step: Step, db': Db)
    requires Inv(db) && step.Begin? && Next(db, step, db')
    ensures Inv(db')
  {
    SameFilesKept(db, db');
    SameLogs(db, db');
    BeginKeepsNumbers(db, step, db');
    RecordsAreKnown(db, db');
    SameBacking(db, db');
  }

  // ---- Switching the memtable ----

  lemma SwitchKeepsFiles(db: Db, step: Step, db': Db)
    requires FilesOk(db) && JobsOk(db) && step.SwitchMemtable? && Next(db, step, db')
    ensures FilesOk(db') && JobsOk(db')
  {
  }

  lemma EmptyLogOk(env: Env)
    requires Lawful(env)
    ensures LogOk(env, EMPTY_LOG)
  {
    assert env.read(Image(env, [])) == [];
  }

  lemma SwitchKeepsLogs(db: Db, step: Step, db': Db)
    requires FilesOk(db) && LogsOk(db) && step.SwitchMemtable? && Next(db, step, db')
    ensures LogsOk(db')
  {
    EmptyLogOk(db.env);
    forall e | InImm(db', e)
      ensures InOlderLog(db', e)
    {
      assert db'.logs[db.logfile].Holds(e);
    }
  }

  lemma SwitchKnowsNoMore(db: Db, step: Step, db': Db)
    requires FilesOk(db) && step.SwitchMemtable? && Next(db, step, db')
    ensures forall e :: Known(db', e) ==> Known(db, e)
  {
    forall e | Known(db', e)
      ensures Known(db, e)
    {
      if n :| n in db'.logs && db'.logs[n].Holds(e) {
        assert n in db.logs && db.logs[n].Holds(e);
      }
    }
  }

  lemma SwitchKeepsNumbers(db: Db, step: Step, db': Db)
    requires FilesOk(db) && CommitOk(db) && NumbersOk(db) && step.SwitchMemtable? && Next(db, step, db')
    ensures CommitOk(db') && NumbersOk(db')
  {
    SwitchKnowsNoMore(db, step, db');
  }

  lemma SwitchKeepsPromises(db: Db, step: Step, db': Db)
    requires FilesOk(db) && PromisesOk(db) && step.SwitchMemtable? && Next(db, step, db')
    ensures PromisesOk(db')
  {
    forall e, v | e in db'.promised && Candidate(db', v)
      ensures Backed(db', v, e)
    {
      assert Backed(db, v, e);
      assert e in db.mem ==> InImm(db', e) && db'.logs[db.logfile] == CurrentLog(db);
    }
  }

  lemma SwitchKeepsInv(db: Db, step: Step, db': Db)
    requires Inv(db) && step.SwitchMemtable? && Next(db, step, db')
    ensures Inv(db')
  {
    SwitchKeepsFiles(db, step, db');
    SwitchKeepsLogs(db, step, db');
    SwitchKeepsNumbers(db, step, db');
    SwitchKeepsPromises(db, step, db');
  }

  // ---- Background jobs ----

  /** Adding tables whose numbers no version uses changes no version's contents. */
  lemma OtherTables(tables: map<nat, set<Entry>>, tables': map<nat, set<Entry>>, numbers: set<nat>)
    requires forall n :: n in numbers ==> n in tables && n in tables' && tables'[n] == tables[n]
    ensures SameEntries(tables', numbers, tables, numbers)
  {
    forall e
      ensures InTables(tables', numbers, e) <==> InTables(tables, numbers, e)
    {
      if n :| n in numbers && n in tables && e in tables[n] {
        assert e in tables'[n];
      }
      if n :| n in numbers && n in tables' && e in tables'[n] {
        assert e in tables[n];
      }
    }
  }

  /** Memory and logs stay as they are. */
  ghost predicate SameMemory(db: Db, db': Db) {
    && db'.env == db.env && db'.logs == db.logs && db'.mem == db.mem && db'.logfile == db.logfile
    && db'.lastSequence == db.lastSequence && db'.commit == db.commit && db'.promised == db.promised
  }

  /** What readers and recovery see stays the same, version by version. */
  ghost predicate SameVersions(db: Db, db': Db) {
    && SameMemory(db, db') && db'.imm == db.imm && db'.saved == db.saved && db'.offered == db.offered
    && SameEntries(db'.tables, db.saved.tables, db.tables, db.saved.tables)
    && (db.offered.Some? ==> SameEntries(db'.tables, db.offered.value.tables, db.tables, db.offered.value.tables))
  }

  /** Commit state depends on memory and logs only; logs may lose members. */
  lemma SameCommit(db: Db, db': Db)
    requires CommitOk(db) && db'.env == db.env && db'.mem == db.mem && db'.logfile == db.logfile
             && db'.lastSequence == db.lastSequence && db'.commit == db.commit
    requires CurrentLog(db') == CurrentLog(db)
    requires forall n :: n in db'.logs ==> n in db.logs && db'.logs[n] == db.logs[n]
    ensures CommitOk(db')
  {
    assert Settled(db) ==> Settled(db');
  }

  lemma SameVersionsLogs(db: Db, db': Db)
    requires LogsOk(db) && SameVersions(db, db')
    ensures LogsOk(db')
  {
    assert forall e :: InOlderLog(db, e) ==> InOlderLog(db', e);
  }

  lemma SameVersionsKnowNoMore(db: Db, db': Db)
    requires SameVersions(db, db')
    ensures forall e :: Known(db', e) ==> Known(db, e)
  {
  }

  lemma SameVersionsKeep(db: Db, db': Db)
    requires NumbersOk(db) && PromisesOk(db) && SameVersions(db, db')
    ensures NumbersOk(db') && PromisesOk(db')
  {
    SameVersionsKnowNoMore(db, db');
    forall e, v | e in db'.promised && Candidate(db', v)
      ensures Backed(db', v, e)
    {
      assert Backed(db, v, e);
    }
  }

  /** Steps that reserve or free file numbers, pin versions or record an error. */
  ghost predicate Quiet(step: Step) {
    step.StartFlush? || step.BuildFails? || step.InstallFails? || step.StartMerge? || step.OpenOutput?
      || step.MergeFails? || step.Pin? || step.Unpin?
  }

  /** A version that is pinned is the current one, and no number still to be written to is in it. */
  lemma PinKeepsFiles(db: Db, step: Step, db': Db)
    requires FilesOk(db) && JobsOk(db) && (step.Pin? || step.Unpin?) && Next(db, step, db')
    ensures FilesOk(db') && JobsOk(db') && SameVersions(db, db')
  {
    assert forall p :: p in db'.pinned ==> p in db.pinned || p == db.saved.tables;
    assert forall n :: Reserved(db, n) ==> Reserved(db', n);
  }

  lemma QuietKeepsFiles(db: Db, step: Step, db': Db)
    requires FilesOk(db) && JobsOk(db) && Quiet(step) && Next(db, step, db')
    ensures FilesOk(db')
  {
    if step.Pin? || step.Unpin? {
      PinKeepsFiles(db, step, db');
    } else {
      assert db'.tables == db.tables && db'.logs == db.logs;
    }
  }

  lemma QuietKeepsJobs(db: Db, step: Step, db': Db)
    requires FilesOk(db) && JobsOk(db) && Quiet(step) && Next(db, step, db')
    ensures JobsOk(db')
  {
    if step.Pin? || step.Unpin? {
      PinKeepsFiles(db, step, db');
    } else {
      OtherQuietKeepsJobs(db, step, db');
    }
  }

  lemma OtherQuietKeepsJobs(db: Db, step: Step, db': Db)
    requires FilesOk(db) && JobsOk(db) && Quiet(step) && !step.Pin? && !step.Unpin? && Next(db, step, db')
    ensures JobsOk(db')
  {
    assert db'.pinned == db.pinned;
  }

  lemma QuietIsSame(db: Db, step: Step, db': Db)
    requires Quiet(step) && Next(db, step, db')
    ensures SameVersions(db, db')
  {
  }

  lemma QuietKeepsInv(db: Db, step: Step, db': Db)
    requires Inv(db) && Quiet(step) && Next(db, step, db')
    ensures Inv(db')
  {
    QuietKeepsFiles(db, step, db');
    QuietKeepsJobs(db, step, db');
    QuietIsSame(db, step, db');
    SameVersionsLogs(db, db');
    SameCommit(db, db');
    SameVersionsKeep(db, db');
  }

  /** A version is offered: its tables are written, those of other versions untouched. */
  ghost predicate Offers(db: Db, db': Db, v: Version) {
    && SameMemory(db, db') && db'.imm == db.imm && db'.saved == db.saved && db.offered.None? && db'.offered == Some(v)
    && SameEntries(db'.tables, db.saved.tables, db.tables, db.saved.tables)
    && forall e :: InTables(db.tables, db.saved.tables, e) ==> InTables(db'.tables, v.tables, e)
  }

  lemma OfferKeepsPromises(db: Db, db': Db, v: Version)
    requires PromisesOk(db) && Offers(db, db', v)
    requires forall e :: InImm(db, e) ==> InTables(db'.tables, v.tables, e) || v.logNumber == db.saved.logNumber
    ensures PromisesOk(db')
  {
    forall e, w | e in db'.promised && Candidate(db', w)
      ensures Backed(db', w, e)
    {
      assert Backed(db, db.saved, e);
    }
  }

  lemma OfferKeepsLogs(db: Db, db': Db, v: Version)
    requires LogsOk(db) && CommitOk(db) && Offers(db, db', v)
    ensures LogsOk(db') && CommitOk(db')
  {
    assert forall e :: InOlderLog(db, e) ==> InOlderLog(db', e);
  }

  lemma OfferKnowsNoMore(db: Db, db': Db, v: Version)
    requires Offers(db, db', v)
    requires forall e :: InTables(db'.tables, v.tables, e) ==> InTables(db.tables, db.saved.tables, e) || InImm(db, e)
    ensures forall e :: Known(db', e) ==> Known(db, e)
  {
  }

  lemma OfferKeepsNumbers(db: Db, db': Db, v: Version)
    requires NumbersOk(db) && Offers(db, db', v)
    requires forall e :: InTables(db'.tables, v.tables, e) ==> InTables(db.tables, db.saved.tables, e) || InImm(db, e)
    ensures NumbersOk(db')
  {
    OfferKnowsNoMore(db, db', v);
  }

  lemma BuildOffers(db: Db, step: Step, db': Db)
    requires FilesOk(db) && JobsOk(db) && step.BuildOk? && Next(db, step, db')
    ensures Offers(db, db', db'.offered.value)
    ensures OfferedOk(db', db'.offered.value, true)
  {
    var n, v := db.job.number, db'.offered.value;
    OtherTables(db.tables, db'.tables, db.saved.tables);
    forall e
      ensures InTables(db'.tables, v.tables, e) <==> InTables(db.tables, db.saved.tables, e) || e in db.imm.value
    {
      if k :| k in v.tables && k in db'.tables && e in db'.tables[k] {
        assert k != n ==> e in db.tables[k];
      }
      if k :| k in db.saved.tables && k in db.tables && e in db.tables[k] {
        assert e in db'.tables[k] && k in v.tables;
      }
      if e in db.imm.value {
        assert e in db'.tables[n] && n in v.tables;
      }
    }
  }

  lemma BuildKeepsFiles(db: Db, step: Step, db': Db)
    requires FilesOk(db) && JobsOk(db) && NumbersOk(db) && step.BuildOk? && Next(db, step, db')
    requires Offers(db, db', db'.offered.value) && OfferedOk(db', db'.offered.value, true)
    ensures FilesOk(db') && JobsOk(db')
  {
    assert VersionOk(db', db'.saved);
    assert forall e :: e in db.imm.value ==> InImm(db, e);
    assert VersionOk(db', db'.offered.value);
  }

  lemma BuildKeepsInv(db: Db, step: Step, db': Db)
    requires Inv(db) && step.BuildOk? && Next(db, step, db')
    ensures Inv(db')
  {
    var v := db'.offered.value;
    BuildOffers(db, step, db');
    BuildKeepsFiles(db, step, db');
    OfferKeepsLogs(db, db', v);
    OfferKeepsNumbers(db, db', v);
    OfferKeepsPromises(db, db', v);
  }

  lemma MergeOffers(db: Db, step: Step, db': Db)
    requires FilesOk(db) && JobsOk(db) && step.FinishMerge? && Next(db, step, db')
    ensures Offers(db, db', db'.offered.value)
    ensures OfferedOk(db', db'.offered.value, false)
  {
    var m, v := db.merging.value, db'.offered.value;
    OtherTables(db.tables, db'.tables, db.saved.tables);
    forall e
      ensures InTables(db'.tables, v.tables, e) <==> InTables(db.tables, db.saved.tables, e)
    {
      MergedEntries(db, step.contents, db'.tables, v.tables, e);
    }
  }

  lemma MergedEntries(db: Db, contents: map<nat, set<Entry>>, tables': map<nat, set<Entry>>, numbers: set<nat>,
                      e: Entry)
    requires FilesOk(db) && db.merging.Some? && contents.Keys == db.merging.value.outputs
             && tables' == db.tables + contents
    requires forall n :: n in contents ==> n !in db.saved.tables
    requires db.merging.value.inputs <= db.saved.tables
    requires SameEntries(contents, db.merging.value.outputs, db.tables, db.merging.value.inputs)
    requires numbers == db.saved.tables - db.merging.value.inputs + db.merging.value.outputs
    ensures InTables(tables', numbers, e) <==> InTables(db.tables, db.saved.tables, e)
  {
    var m := db.merging.value;
    if k :| k in numbers && k in tables' && e in tables'[k] {
      if k in m.outputs {
        assert InTables(contents, m.outputs, e);
        var i :| i in m.inputs && i in db.tables && e in db.tables[i];
        assert i in db.saved.tables;
      } else {
        assert e in db.tables[k] && k in db.saved.tables;
      }
    }
    if k :| k in db.saved.tables && k in db.tables && e in db.tables[k] {
      if k in m.inputs {
        assert InTables(db.tables, m.inputs, e);
        var i :| i in m.outputs && i in contents && e in contents[i];
        assert i in numbers && e in tables'[i];
      } else {
        assert k in numbers && e in tables'[k];
      }
    }
  }

  lemma MergeKeepsFiles(db: Db, step: Step, db': Db)
    requires FilesOk(db) && JobsOk(db) && step.FinishMerge? && Next(db, step, db')
    requires Offers(db, db', db'.offered.value) && OfferedOk(db', db'.offered.value, false)
    ensures FilesOk(db') && JobsOk(db')
  {
    assert VersionOk(db', db'.saved);
    assert VersionOk(db', db'.offered.value);
  }

  lemma MergeKeepsInv(db: Db, step: Step, db': Db)
    requires Inv(db) && step.FinishMerge? && Next(db, step, db')
    ensures Inv(db')
  {
    var v := db'.offered.value;
    MergeOffers(db, step, db');
    MergeKeepsFiles(db, step, db');
    OfferKeepsLogs(db, db', v);
    OfferKeepsNumbers(db, db', v);
    OfferKeepsPromises(db, db', v);
  }

  lemma InstallKeepsFiles(db: Db, step: Step, db': Db)
    requires FilesOk(db) && JobsOk(db) && step.InstallOk? && Next(db, step, db')
    ensures FilesOk(db') && JobsOk(db')
  {
  }

  lemma SameOlderLogs(db: Db, db': Db, e: Entry)
    requires db'.logs == db.logs && db'.logfile == db.logfile && db'.saved.logNumber == db.saved.logNumber
    ensures InOlderLog(db, e) ==> InOlderLog(db', e)
  {
  }

  lemma InstallKeepsLogs(db: Db, step: Step, db': Db)
    requires JobsOk(db) && LogsOk(db) && step.InstallOk? && Next(db, step, db')
    ensures LogsOk(db')
  {
    forall e | InImm(db', e)
      ensures InOlderLog(db', e)
    {
      assert InImm(db, e);
      SameOlderLogs(db, db', e);
    }
  }

  lemma InstallKnowsNoMore(db: Db, step: Step, db': Db)
    requires JobsOk(db) && step.InstallOk? && Next(db, step, db')
    ensures forall e :: Known(db', e) ==> Known(db, e)
  {
  }

  lemma InstallKeepsNumbers(db: Db, step: Step, db': Db)
    requires JobsOk(db) && NumbersOk(db) && step.InstallOk? && Next(db, step, db')
    ensures NumbersOk(db')
  {
    InstallKnowsNoMore(db, step, db');
  }

  lemma InstallKeepsPromises(db: Db, step: Step, db': Db)
    requires JobsOk(db) && PromisesOk(db) && step.InstallOk? && Next(db, step, db')
    ensures PromisesOk(db')
  {
    var v := db.job.version;
    forall e | e in db'.promised
      ensures Backed(db', v, e)
    {
      assert Backed(db, v, e);
    }
  }

  lemma InstallKeepsInv(db: Db, step: Step, db': Db)
    requires Inv(db) && step.InstallOk? && Next(db, step, db')
    ensures Inv(db')
  {
    InstallKeepsFiles(db, step, db');
    InstallKeepsLogs(db, step, db');
    SameCommit(db, db');
    InstallKeepsNumbers(db, step, db');
    InstallKeepsPromises(db, step, db');
  }

  // ---- Garbage collection ----

  /** No file that a version, a reader, a running job or a replay needs is removed. */
  lemma CollectKeepsFiles(db: Db, step: Step, db': Db)
    requires FilesOk(db) && JobsOk(db) && step.Collect? && Next(db, step, db')
    ensures FilesOk(db') && JobsOk(db')
    ensures SameEntries(db'.tables, db.saved.tables, db.tables, db.saved.tables)
  {
    assert db.offered.None?;
    assert forall n :: n in db.saved.tables ==> LiveTable(db, n);
    OtherTables(db.tables, db'.tables, db.saved.tables);
    assert forall p, n :: p in db.pinned && n in p ==> LiveTable(db, n);
  }

  ghost predicate NeededLogsStay(db: Db, db': Db) {
    forall n :: n in db.logs && n >= db.saved.logNumber ==> n in db'.logs && db'.logs[n] == db.logs[n]
  }

  lemma CollectKeepsLogs(db: Db, step: Step, db': Db)
    requires FilesOk(db) && LogsOk(db) && step.Collect? && Next(db, step, db')
    ensures LogsOk(db')
    ensures NeededLogsStay(db, db')
  {
    forall e | InImm(db', e)
      ensures InOlderLog(db', e)
    {
      assert InImm(db, e);
      var n :| n in db.logs && db.saved.logNumber <= n < db.logfile && db.logs[n].Holds(e);
      assert n in db'.logs && db'.logs[n].Holds(e);
    }
  }

  lemma CollectKnowsNoMore(db: Db, step: Step, db': Db)
    requires JobsOk(db) && step.Collect? && Next(db, step, db')
    requires SameEntries(db'.tables, db.saved.tables, db.tables, db.saved.tables)
    ensures forall e :: Known(db', e) ==> Known(db, e)
  {
    assert db.offered.None?;
  }

  lemma CollectKeepsNumbers(db: Db, step: Step, db': Db)
    requires JobsOk(db) && NumbersOk(db) && step.Collect? && Next(db, step, db')
    requires SameEntries(db'.tables, db.saved.tables, db.tables, db.saved.tables)
    ensures NumbersOk(db')
  {
    CollectKnowsNoMore(db, step, db');
  }

  lemma CollectKeepsPromises(db: Db, step: Step, db': Db)
    requires FilesOk(db) && JobsOk(db) && PromisesOk(db) && step.Collect? && Next(db, step, db')
    requires SameEntries(db'.tables, db.saved.tables, db.tables, db.saved.tables) && NeededLogsStay(db, db')
    ensures PromisesOk(db')
  {
    forall e, v | e in db'.promised && Candidate(db', v)
      ensures Backed(db', v, e)
    {
      assert Backed(db, v, e);
      if n :| n in db.logs && v.logNumber <= n < db.logfile && db.logs[n].Keeps(db.env, e) {
        assert n in db'.logs && db'.logs[n].Keeps(db.env, e);
      }
    }
  }

  lemma CollectKeepsInv(db: Db, step: Step, db': Db)
    requires Inv(db) && step.Collect? && Next(db, step, db')
    ensures Inv(db')
  {
    CollectKeepsFiles(db, step, db');
    CollectKeepsLogs(db, step, db');
    SameCommit(db, db');
    CollectKeepsNumbers(db, step, db');
    CollectKeepsPromises(db, step, db');
  }

  // ---- Crash and recovery ----

  /** What a crash must leave of a log comes back. */
  lemma KeptIsReplayed(env: Env, log: Log, kept: seq<Record>, e: Entry)
    requires Lawful(env) && LogOk(env, log) && log.Keeps(env, e) && log.LeavesBehind(env, kept)
    ensures exists r :: r in kept && r.Holds(e)
  {
    var c :| log.synced <= c <= |log.file| && kept == env.read(log.file[..c]);
    var r :| r in log.Surviving(env) && r.Holds(e);
    assert log.file[..c][..log.synced] == log.file[..log.synced];
    assert log.Surviving(env) <= kept;
  }

  /** Cutting a log off adds nothing to what is read of it. */
  lemma ReplayedIsRead(env: Env, log: Log, kept: seq<Record>)
    requires Lawful(env) && log.LeavesBehind(env, kept)
    ensures kept <= env.read(log.file)
  {
    var c :| log.synced <= c <= |log.file| && kept == env.read(log.file[..c]);
  }

  /** After recovery the store holds the tables of the version and what was replayed. */
  lemma RecoveredContents(db: Db, step: Step, db': Db, e: Entry)
    requires FilesOk(db) && step.Recover? && Next(db, step, db')
    ensures InTables(db'.tables, db'.saved.tables, e)
            <==> InTables(db.tables, step.version.tables, e) || InKept(step.kept, e)
    ensures Contents(db', e) <==> InTables(db.tables, step.version.tables, e) || InKept(step.kept, e)
  {
    var v := step.version;
    if n :| n in db'.saved.tables && n in db'.tables && e in db'.tables[n] {
      if n in step.made {
        assert InTables(step.made, step.made.Keys, e);
      } else {
        assert n in v.tables && e in db.tables[n];
      }
    }
    if n :| n in v.tables && n in db.tables && e in db.tables[n] {
      assert n < v.nextFile && n in db'.saved.tables && e in db'.tables[n];
    }
    if InKept(step.kept, e) {
      var n :| n in step.made.Keys && n in step.made && e in step.made[n];
      assert n in db'.saved.tables && e in db'.tables[n];
    }
  }

  lemma EmptyLogHoldsNothing(e: Entry)
    ensures !EMPTY_LOG.Holds(e)
  {
  }

  /** Whatever is replayed, the last number covers it. */
  lemma LastCoversReplay(v: Version, kept: map<nat, seq<Record>>, last: nat, e: Entry)
    requires LastRecovered(v, kept, last) && InKept(kept, e)
    ensures e.ikey.sequence <= last
  {
    var n, r :| n in kept && r in kept[n] && r.Holds(e);
  }

  lemma OnlyTablesKnown(db: Db, step: Step, e: Entry)
    requires step.Recover? && Known(Opened(db, step), e)
    ensures InTables(Opened(db, step).tables, Opened(db, step).saved.tables, e)
  {
    EmptyLogHoldsNothing(e);
  }

  lemma CandidateIsKnown(db: Db, v: Version, e: Entry)
    requires FilesOk(db) && Candidate(db, v) && InTables(db.tables, v.tables, e)
    ensures Known(db, e) && e.ikey.sequence <= v.lastSequence
  {
  }

  lemma RecoveredVersionOk(db: Db, step: Step, db': Db)
    requires FilesOk(db) && step.Recover? && Next(db, step, db')
    ensures VersionOk(db', db'.saved)
  {
    var v := db'.saved;
    forall n | n in v.tables
      ensures n in db'.tables && n < v.nextFile
    {
      assert n in step.version.tables || n in step.made;
    }
    RecoveredNumbers(db, step, db');
  }

  lemma RecoverKeepsFiles(db: Db, step: Step, db': Db)
    requires FilesOk(db) && step.Recover? && Next(db, step, db')
    ensures FilesOk(db') && JobsOk(db')
  {
    RecoveredVersionOk(db, step, db');
  }

  lemma RecoveredNumbers(db: Db, step: Step, db': Db)
    requires FilesOk(db) && step.Recover? && Next(db, step, db')
    ensures forall e :: InTables(db'.tables, db'.saved.tables, e) ==> e.ikey.sequence <= step.last
  {
    forall e | InTables(db'.tables, db'.saved.tables, e)
      ensures e.ikey.sequence <= step.last
    {
      RecoveredContents(db, step, db', e);
      if InKept(step.kept, e) {
        LastCoversReplay(step.version, step.kept, step.last, e);
      } else {
        CandidateIsKnown(db, step.version, e);
      }
    }
  }

  lemma RecoverKeepsLogs(db: Db, step: Step, db': Db)
    requires LogsOk(db) && step.Recover? && Next(db, step, db')
    ensures LogsOk(db') && CommitOk(db')
  {
    EmptyLogOk(db.env);
  }

  lemma RecoverKeepsNumbers(db: Db, step: Step, db': Db)
    requires FilesOk(db) && step.Recover? && Next(db, step, db')
    ensures NumbersOk(db')
  {
    RecoveredNumbers(db, step, db');
    forall e | Known(db', e)
      ensures e.ikey.sequence <= step.last
    {
      OnlyTablesKnown(db, step, e);
    }
  }

  /** An entry in a table of the version, or in the synced part of a log it asks for, is back
      after recovery. */
  ghost predicate Recoverable(db: Db, v: Version, e: Entry) {
    || InTables(db.tables, v.tables, e)
    || exists n :: n in db.logs && v.logNumber <= n && db.logs[n].Keeps(db.env, e)
  }

  lemma RecoverableComesBack(db: Db, step: Step, db': Db, e: Entry)
    requires FilesOk(db) && LogsOk(db) && step.Recover? && Next(db, step, db') && Recoverable(db, step.version, e)
    ensures InTables(db'.tables, db'.saved.tables, e)
  {
    RecoveredContents(db, step, db', e);
    if n :| n in db.logs && step.version.logNumber <= n && db.logs[n].Keeps(db.env, e) {
      KeptIsReplayed(db.env, db.logs[n], step.kept[n], e);
      assert n in step.kept;
    }
  }

  lemma BackedIsRecoverable(db: Db, v: Version, e: Entry)
    requires FilesOk(db) && Candidate(db, v) && Backed(db, v, e)
    ensures Recoverable(db, v, e)
  {
  }

  lemma RecoverKeepsPromises(db: Db, step: Step, db': Db)
    requires FilesOk(db) && LogsOk(db) && PromisesOk(db) && step.Recover? && Next(db, step, db')
    ensures PromisesOk(db')
  {
    forall e, w | e in db'.promised && Candidate(db', w)
      ensures Backed(db', w, e)
    {
      BackedIsRecoverable(db, step.version, e);
      RecoverableComesBack(db, step, db', e);
    }
  }

  lemma RecoverKeepsInv(db: Db, step: Step, db': Db)
    requires Inv(db) && step.Recover? && Next(db, step, db')
    ensures Inv(db')
  {
    RecoverKeepsFiles(db, step, db');
    RecoverKeepsLogs(db, step, db');
    RecoverKeepsNumbers(db, step, db');
    RecoverKeepsPromises(db, step, db');
  }

  // ---- Runs ----

  lemma WriterKeepsInv(db: Db, step: Step, db': Db)
    requires Inv(db) && Next(db, step, db')
             && (step.Begin? || step.SwitchMemtable? || (db.commit.Some? && CommitStep(db, step, db')))
    ensures Inv(db')
  {
    if step.Begin? {
      BeginKeepsInv(db, step, db');
    } else if step.SwitchMemtable? {
      SwitchKeepsInv(db, step, db');
    } else {
      CommitKeepsInv(db, step, db');
    }
  }

  lemma BackgroundKeepsInv(db: Db, step: Step, db': Db)
    requires Inv(db) && Next(db, step, db') && (step.BuildOk? || step.InstallOk? || step.FinishMerge? || step.Collect?)
    ensures Inv(db')
  {
    if step.BuildOk? {
      BuildKeepsInv(db, step, db');
    } else if step.InstallOk? {
      InstallKeepsInv(db, step, db');
    } else if step.FinishMerge? {
      MergeKeepsInv(db, step, db');
    } else {
      CollectKeepsInv(db, step, db');
    }
  }

  lemma NextKeepsInv(db: Db, step: Step, db': Db)
    requires Inv(db) && Next(db, step, db')
    ensures Inv(db')
  {
    if step.Recover? {
      RecoverKeepsInv(db, step, db');
    } else if Quiet(step) {
      QuietKeepsInv(db, step, db');
    } else if step.BuildOk? || step.InstallOk? || step.FinishMerge? || step.Collect? {
      BackgroundKeepsInv(db, step, db');
    } else {
      WriterKeepsInv(db, step, db');
    }
  }

  ghost predicate StepAt(run: seq<Db>, steps: seq<Step>, i: nat) {
    i < |steps| && i + 1 < |run| && Next(run[i], steps[i], run[i + 1])
  }

  ghost predicate IsRun(run: seq<Db>, steps: seq<Step>) {
    && |run| == |steps| + 1
    && Initial(run[0])
    && forall i :: 0 <= i < |steps| ==> StepAt(run, steps, i)
  }

  lemma {:induction false} RunsKeepInv(run: seq<Db>, steps: seq<Step>, i: nat)
    requires IsRun(run, steps) && i < |run|
    ensures Inv(run[i])
  {
    if i == 0 {
      InitialInv(run[0]);
    } else {
      RunsKeepInv(run, steps, i - 1);
      assert StepAt(run, steps, i - 1);
      NextKeepsInv(run[i - 1], steps[i - 1], run[i]);
    }
  }
}
