/** What the durability protocol gives its callers: synced writes survive crashes, groups of
    writes become visible at once, and exactly which entries every crash must leave. */
module DurableWrites {
  import opened InternalKeys
  import opened Durability
  import opened DurabilityProofs

  // ---- Synced writes ----

  lemma {:induction false} PromisesAreKept(run: seq<Db>, steps: seq<Step>, i: nat, j: nat)
    requires IsRun(run, steps) && i <= j < |run|
    ensures run[i].promised <= run[j].promised
    decreases j - i
  {
    if i < j {
      PromisesAreKept(run, steps, i, j - 1);
      assert StepAt(run, steps, j - 1);
      PromisedOnce(run[j - 1], steps[j - 1], run[j]);
    }
  }

  lemma PromisedOnce(db: Db, step: Step, db': Db)
    requires Next(db, step, db')
    ensures db.promised <= db'.promised
  {
  }

  /** The leader's record can be read from the part of the log that no crash touches. */
  ghost predicate ReadBack(db: Db) {
    db.commit.Some? && db.commit.value.record in CurrentLog(db).Surviving(db.env)
  }

  /** Once a synced write has returned OK and its log reads it back, its entries are part of the
      store in every later state of every run, across any number of crashes, flushes,
      compactions and deletions. */
  lemma SyncedWritesSurvive(run: seq<Db>, steps: seq<Step>, i: nat, j: nat)
    requires IsRun(run, steps) && i < j < |run|
    requires steps[i] == End && ReadBack(run[i])
    requires var c := run[i].commit.value; c.stage.Over? && c.stage.ok && c.sync
    ensures forall e :: run[i].commit.value.record.Holds(e) ==> Contents(run[j], e)
  {
    var r := run[i].commit.value.record;
    assert StepAt(run, steps, i);
    PromisesAreKept(run, steps, i + 1, j);
    RunsKeepInv(run, steps, j);
    forall e | r.Holds(e)
      ensures Contents(run[j], e)
    {
      assert e in r.Entries();
      PromiseIsContents(run[j], e);
    }
  }

  /** It does whenever no append to the log had failed before. */
  lemma SafeIsReadBack(db: Db)
    requires CommitOk(db) && db.commit.Some?
    requires var c := db.commit.value; c.stage.Over? && c.stage.ok && c.sync && c.stage.safe
    ensures ReadBack(db)
  {
  }

  lemma PromiseIsContents(db: Db, e: Entry)
    requires PromisesOk(db) && e in db.promised
    ensures Contents(db, e)
  {
    assert Backed(db, db.saved, e);
  }

  // ---- Visibility ----

  ghost predicate Readable(db: Db, e: Entry) {
    Contents(db, e) && e.ikey.sequence <= db.lastSequence
  }

  /** Readers use LastSequence: they see all operations of a group or none, and nothing the
      background thread does. */
  lemma GroupsAppearAtOnce(db: Db, step: Step, db': Db, e: Entry)
    requires Inv(db) && Next(db, step, db') && !step.Recover?
    ensures Readable(db', e) <==>
              Readable(db, e)
              || (step.End? && db.commit.value.stage.ok && db.commit.value.record.Holds(e))
  {
    if step.End? {
      EndShowsGroup(db, step, db', e);
    } else if step.BuildOk? || step.FinishMerge? || step.InstallOk? || step.Collect? {
      BackgroundShowsSame(db, step, db', e);
    } else {
      OtherStepsShowSame(db, step, db', e);
    }
  }

  lemma BackgroundShowsSame(db: Db, step: Step, db': Db, e: Entry)
    requires FilesOk(db) && JobsOk(db) && Next(db, step, db')
    requires step.BuildOk? || step.FinishMerge? || step.InstallOk? || step.Collect?
    ensures Readable(db', e) <==> Readable(db, e)
  {
    if step.BuildOk? {
      BuildOffers(db, step, db');
    } else if step.FinishMerge? {
      MergeOffers(db, step, db');
    } else if step.InstallOk? {
      InstallShowsSame(db, step, db', e);
    } else {
      CollectKeepsFiles(db, step, db');
    }
  }

  /** Only the group being inserted has numbers above LastSequence. */
  lemma NewIsInGroup(db: Db, e: Entry)
    requires FilesOk(db) && LogsOk(db) && Settled(db) && NumbersOk(db) && db.commit.Some?
    requires Contents(db, e) && e.ikey.sequence > db.lastSequence
    ensures e in db.mem && db.commit.value.record.Holds(e)
  {
    assert CurrentLog(db).Holds(e);
    var r :| Recorded(CurrentLog(db), r) && r.Holds(e);
  }

  lemma EndShowsGroup(db: Db, step: Step, db': Db, e: Entry)
    requires FilesOk(db) && LogsOk(db) && CommitOk(db) && NumbersOk(db) && step.End? && Next(db, step, db')
    ensures Readable(db', e) <==> Readable(db, e) || (db.commit.value.stage.ok && db.commit.value.record.Holds(e))
  {
    var c := db.commit.value;
    var r := c.record;
    if Contents(db, e) && e.ikey.sequence > db.lastSequence {
      NewIsInGroup(db, e);
    }
    if c.stage.ok && r.Holds(e) {
      assert e == r.At(e.ikey.sequence - r.sequence);
    }
  }

  lemma InstallShowsSame(db: Db, step: Step, db': Db, e: Entry)
    requires JobsOk(db) && step.InstallOk? && Next(db, step, db')
    ensures Readable(db', e) <==> Readable(db, e)
  {
    assert Contents(db', e) <==> Contents(db, e);
  }

  lemma OtherStepsShowSame(db: Db, step: Step, db': Db, e: Entry)
    requires CommitOk(db) && Next(db, step, db')
    requires !step.End? && !step.BuildOk? && !step.FinishMerge? && !step.InstallOk? && !step.Collect? && !step.Recover?
    ensures Readable(db', e) <==> Readable(db, e)
  {
    if step.InsertOne? {
      InsertShowsSame(db, step, db', e);
    } else if step.SwitchMemtable? {
      SwitchShowsSame(db, step, db', e);
    } else {
      assert db'.tables == db.tables && db'.saved == db.saved && db'.lastSequence == db.lastSequence;
      assert db'.mem == db.mem && db'.imm == db.imm;
    }
  }

  lemma InsertShowsSame(db: Db, step: Step, db': Db, e: Entry)
    requires CommitOk(db) && step.InsertOne? && Next(db, step, db')
    ensures Readable(db', e) <==> Readable(db, e)
  {
  }

  lemma SwitchShowsSame(db: Db, step: Step, db': Db, e: Entry)
    requires step.SwitchMemtable? && Next(db, step, db')
    ensures Readable(db', e) <==> Readable(db, e)
  {
  }

  // ---- What every crash leaves ----

  /** The worst a crash can do to the logs. */
  ghost function WorstLogs(db: Db, v: Version): map<nat, seq<Record>> {
    map n | n in db.logs && n >= v.logNumber :: db.logs[n].Surviving(db.env)
  }

  ghost function EntriesOf(kept: map<nat, seq<Record>>): set<Entry> {
    set n, r, e | n in kept && r in kept[n] && e in r.Entries() :: e
  }

  lemma EntriesOfKept(kept: map<nat, seq<Record>>, e: Entry)
    ensures e in EntriesOf(kept) <==> InKept(kept, e)
  {
    if InKept(kept, e) {
      var n, r :| n in kept && r in kept[n] && r.Holds(e);
      assert e == r.At(e.ikey.sequence - r.sequence);
      assert e in r.Entries();
    }
    if e in EntriesOf(kept) {
      var n, r :| n in kept && r in kept[n] && e in r.Entries();
      assert r.Holds(e);
    }
  }

  /** The largest last number among finitely many records. */
  lemma {:induction false} LastAmong(v: Version, kept: map<nat, seq<Record>>, records: set<Record>) returns (last: nat)
    requires forall r :: r in records ==> exists n :: n in kept && r in kept[n]
    ensures v.lastSequence <= last && forall r :: r in records ==> r.sequence + |r.ops| - 1 <= last
    ensures last == v.lastSequence || exists n, r :: n in kept && r in kept[n] && r.sequence + |r.ops| - 1 == last
    decreases records
  {
    if records == {} {
      return v.lastSequence;
    }
    var r :| r in records;
    last := LastAmong(v, kept, records - {r});
    if last < r.sequence + |r.ops| - 1 {
      last := r.sequence + |r.ops| - 1;
    }
  }

  lemma SomeLastRecovered(v: Version, kept: map<nat, seq<Record>>) returns (last: nat)
    ensures LastRecovered(v, kept, last)
  {
    var records := set n, r | n in kept && r in kept[n] :: r;
    last := LastAmong(v, kept, records);
    assert forall n, r :: n in kept && r in kept[n] ==> r in records;
  }

  lemma WorstIsReplayed(db: Db, v: Version)
    requires LogsOk(db)
    ensures Replayed(db, v, WorstLogs(db, v))
  {
    forall n | n in db.logs
      ensures db.logs[n].LeavesBehind(db.env, db.logs[n].Surviving(db.env))
    {
      assert LogOk(db.env, db.logs[n]);
    }
  }

  /** Recovery always succeeds: whatever version the manifest holds, its tables are there, and
      whatever a crash leaves of the logs leads to a state. */
  lemma RecoveryIsPossible(db: Db, v: Version, kept: map<nat, seq<Record>>) returns (step: Step, db': Db)
    requires FilesOk(db) && Candidate(db, v) && Replayed(db, v, kept)
    ensures step.Recover? && Next(db, step, db') && step.version == v && step.kept == kept
  {
    var last := SomeLastRecovered(v, kept);
    var made := MadeFrom(kept, v.nextFile + 1);
    step := Recover(v, kept, made, last, db.nextFile + 2);
    db' := Opened(db, step);
    NumbersAreFree(db, v, step);
  }

  lemma NumbersAreFree(db: Db, v: Version, step: Step)
    requires FilesOk(db) && Candidate(db, v) && step.Recover? && step.log == db.nextFile + 2
    requires Replayed(db, v, step.kept) && step.made.Keys == {v.nextFile + 1}
    ensures v.tables <= db.tables.Keys && v.nextFile < step.log && forall n :: n in step.kept ==> n < step.log
    ensures forall n :: n in step.made ==> v.nextFile < n < step.log
  {
  }

  lemma MadeFrom(kept: map<nat, seq<Record>>, number: nat) returns (made: map<nat, set<Entry>>)
    ensures made.Keys == {number} && forall e :: InTables(made, made.Keys, e) <==> InKept(kept, e)
  {
    made := map[number := EntriesOf(kept)];
    forall e
      ensures InTables(made, made.Keys, e) <==> InKept(kept, e)
    {
      EntriesOfKept(kept, e);
      assert number in made.Keys && number in made;
    }
  }

  lemma WorstLogsKeepOnly(db: Db, v: Version, e: Entry)
    requires LogsOk(db) && InKept(WorstLogs(db, v), e)
    ensures Recoverable(db, v, e)
  {
    var n, r :| n in WorstLogs(db, v) && r in WorstLogs(db, v)[n] && r.Holds(e);
    assert db.logs[n].Keeps(db.env, e);
  }

  /** Every crash, whatever it does to unsynced bytes and to a manifest record on its way,
      leaves an entry in the store. */
  ghost predicate SurvivesEveryCrash(db: Db, e: Entry) {
    forall step: Step, db': Db :: step.Recover? && Next(db, step, db') ==> Contents(db', e)
  }

  /** Exactly the entries in tables or in synced log records of every version the manifest
      may hold survive every crash. */
  lemma SurvivesIff(db: Db, e: Entry)
    requires Inv(db)
    ensures SurvivesEveryCrash(db, e) <==> forall v :: Candidate(db, v) ==> Recoverable(db, v, e)
  {
    if forall v :: Candidate(db, v) ==> Recoverable(db, v, e) {
      RecoverableSurvives(db, e);
    }
    if SurvivesEveryCrash(db, e) {
      forall v | Candidate(db, v)
        ensures Recoverable(db, v, e)
      {
        SurvivorIsRecoverable(db, v, e);
      }
    }
  }

  lemma RecoverableSurvives(db: Db, e: Entry)
    requires FilesOk(db) && LogsOk(db) && forall v :: Candidate(db, v) ==> Recoverable(db, v, e)
    ensures SurvivesEveryCrash(db, e)
  {
    forall step: Step, db': Db | step.Recover? && Next(db, step, db')
      ensures Contents(db', e)
    {
      RecoverableComesBack(db, step, db', e);
    }
  }

  lemma SurvivorIsRecoverable(db: Db, v: Version, e: Entry)
    requires FilesOk(db) && LogsOk(db) && Candidate(db, v) && SurvivesEveryCrash(db, e)
    ensures Recoverable(db, v, e)
  {
    WorstIsReplayed(db, v);
    var step, db' := RecoveryIsPossible(db, v, WorstLogs(db, v));
    RecoveredContents(db, step, db', e);
    if InKept(step.kept, e) {
      WorstLogsKeepOnly(db, v, e);
    }
  }

  /** Some log that every recovery from this version replays reads the entry, in its synced part. */
  ghost predicate Replays(db: Db, v: Version, e: Entry) {
    exists n :: n in db.logs && v.logNumber <= n && db.logs[n].Keeps(db.env, e)
  }

  /** When a synced write returns OK, its entries survive every crash from then on if, and only
      if, the logs read them back, whichever version the manifest holds. */
  lemma SyncedWriteSurvivesIff(db: Db, step: Step, db': Db, e: Entry)
    requires Inv(db) && step.End? && Next(db, step, db')
    requires var c := db.commit.value; c.stage.ok && c.sync && c.record.Holds(e)
    ensures SurvivesEveryCrash(db', e) <==> forall v :: Candidate(db, v) ==> Replays(db, v, e)
  {
    CommitKeepsInv(db, step, db');
    SurvivesIff(db', e);
    forall v | Candidate(db, v)
      ensures Recoverable(db', v, e) <==> Replays(db, v, e)
    {
      assert VersionOk(db, v);
    }
  }

  /** They do if the record can be read from the log it was written to. */
  lemma ReadBackIsReplayed(db: Db, v: Version, e: Entry)
    requires FilesOk(db) && Candidate(db, v) && ReadBack(db) && db.commit.value.record.Holds(e)
    ensures Replays(db, v, e)
  {
    assert CurrentLog(db).Keeps(db.env, e);
  }

  /** While logs read only what was appended, that is the only way. */
  lemma ReplayedIsReadBack(db: Db, e: Entry)
    requires FilesOk(db) && LogsOk(db) && CommitOk(db) && db.commit.Some? && db.commit.value.record.Holds(e)
    requires forall n :: n in db.logs && db.saved.logNumber <= n ==> db.logs[n].Genuine(db.env)
    requires Replays(db, db.saved, e)
    ensures ReadBack(db)
  {
    var n :| n in db.logs && db.saved.logNumber <= n && db.logs[n].Keeps(db.env, e);
    var r :| r in db.logs[n].Surviving(db.env) && r.Holds(e);
    assert db.logs[n].file[..db.logs[n].synced] <= db.logs[n].file;
    assert Recorded(db.logs[n], r);
  }

  /** The same at any point of a run. */
  lemma EndDecidesInRun(run: seq<Db>, steps: seq<Step>, i: nat, e: Entry)
    requires IsRun(run, steps) && i < |steps| && steps[i] == End && run[i].commit.Some?
    requires var c := run[i].commit.value; c.stage.Over? && c.stage.ok && c.sync && c.record.Holds(e)
    ensures SurvivesEveryCrash(run[i + 1], e) <==> forall v :: Candidate(run[i], v) ==> Replays(run[i], v, e)
  {
    RunsKeepInv(run, steps, i);
    assert StepAt(run, steps, i);
    SyncedWriteSurvivesIff(run[i], End, run[i + 1], e);
  }
}
