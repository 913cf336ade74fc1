/** Logs, tables, the manifest and their garbage collection: which files a crash may find,
    what recovery makes of them, and which writes it must bring back (db/db_impl.cc,
    db/version_set.cc).

    A table stands for all entries merged into it; which of these a compaction may leave
    out is the subject of CompactionReads. */
module Durability {
  import opened Wrappers
  import opened InternalKeys
  import opened LogFormat

  datatype Op = Op(user: UserKey, kind: Kind, value: string)

  /** A write batch with its sequence number, as logged: operation i has number sequence + i. */
  datatype Record = Record(sequence: nat, ops: seq<Op>)
  {
    function At(i: nat): Entry
      requires i < |ops|
    {
      Entry(InternalKey(ops[i].user, sequence + i, ops[i].kind), ops[i].value)
    }

    predicate Holds(e: Entry) {
      sequence <= e.ikey.sequence < sequence + |ops| && e == At(e.ikey.sequence - sequence)
    }

    function Entries(): set<Entry> { set i | 0 <= i < |ops| :: At(i) }
  }

  /** How log files are written and read: which records the format has room for, what recovery
      makes of a file, the bytes one record appends when the writer believes to be at an offset,
      and what a failing append may leave, with the offset the writer then believes to be at.
      LogMedium derives all of it from a batch format and the log writer and reader. */
  datatype Env = Env(
    fits: Record -> bool,
    read: seq<Byte> -> seq<Record>,
    write: (nat, Record) -> seq<Byte>,
    torn: (nat, Record, seq<Byte>, nat) -> bool)

  /** The file of a fresh log after appending some records. */
  function Image(env: Env, records: seq<Record>): seq<Byte> {
    if records == [] then []
    else
      var n := |records| - 1;
      var file := Image(env, records[..n]);
      file + env.write(|file|, records[n])
  }

  ghost predicate RecordsFit(env: Env, records: seq<Record>) { forall r :: r in records ==> env.fits(r) }

  /** A file cut off reads as a prefix of its records, and what was appended is read. */
  ghost predicate Lawful(env: Env) {
    && (forall file: seq<Byte>, c: nat :: c <= |file| ==> env.read(file[..c]) <= env.read(file))
    && (forall records :: RecordsFit(env, records) ==> env.read(Image(env, records)) == records)
  }

  /** A log file: its bytes, the offset its writer believes to be at, how many bytes are known
      to be on disk, and which records were appended; those from a failed append on are doubtful. */
  datatype Log = Log(records: seq<Record>, doubtful: seq<Record>, file: seq<Byte>, offset: nat, synced: nat)
  {
    predicate Torn() { doubtful != [] }

    ghost predicate Holds(e: Entry) {
      exists r :: Recorded(this, r) && r.Holds(e)
    }

    /** The records a crash must leave: those in the synced part of the file. */
    ghost function Surviving(env: Env): seq<Record> {
      if synced <= |file| then env.read(file[..synced]) else []
    }

    ghost predicate Keeps(env: Env, e: Entry) {
      exists r :: r in Surviving(env) && r.Holds(e)
    }

    /** log::Writer::AddRecord, once it has returned OK. */
    function Append(env: Env, r: Record): Log {
      var bytes := env.write(offset, r);
      Grown(r, bytes, offset + |bytes|, Torn())
    }

    function Grown(r: Record, bytes: seq<Byte>, offset': nat, doubt: bool): Log {
      Log(if doubt then records else records + [r], if doubt then doubtful + [r] else doubtful, file + bytes, offset',
        synced)
    }

    /** What a crash may leave to be read: the file, cut off anywhere behind its synced part. */
    ghost predicate LeavesBehind(env: Env, kept: seq<Record>) {
      exists c :: synced <= c <= |file| && kept == env.read(file[..c])
    }

    /** Only what was appended is read. So it is as long as no append has failed; after that, it
        is a matter of the bytes (TornReads). */
    ghost predicate Genuine(env: Env) {
      forall r :: r in env.read(file) ==> Recorded(this, r)
    }

    /** ...and in the order in which it was appended. */
    ghost predicate Faithful(env: Env) { Genuine(env) && InOrder(env.read(file)) }
  }

  /** One record's numbers all come before the other's. */
  ghost predicate Before(a: Record, b: Record) {
    forall x, y :: a.Holds(x) && b.Holds(y) ==> x.ikey.sequence < y.ikey.sequence
  }

  ghost predicate InOrder(records: seq<Record>) {
    forall i, j :: 0 <= i < j < |records| ==> Before(records[i], records[j])
  }

  ghost predicate Recorded(log: Log, r: Record) { r in log.records || r in log.doubtful }

  ghost predicate LogOk(env: Env, log: Log) {
    && log.synced <= |log.file|
    && (!log.Torn() ==> log.file == Image(env, log.records) && log.offset == |log.file| && RecordsFit(env, log.records))
  }

  /** What one state of the manifest says. */
  datatype Version = Version(tables: set<nat>, logNumber: nat, lastSequence: nat, nextFile: nat)

  /** How far the leader has got with its group. `safe`: no append to the log had failed. */
  datatype Stage =
    | Logging
    | Syncing(safe: bool)
    | Inserting(next: nat, safe: bool)
    | Over(ok: bool, syncError: bool, safe: bool)

  datatype Commit = Commit(record: Record, sync: bool, stage: Stage)

  /** A running compaction. */
  datatype Merge = Merge(inputs: set<nat>, outputs: set<nat>)

  /** What the one background thread is doing while the mutex may be free. */
  datatype Job = Free | Building(number: nat) | Installing(version: Version, flush: bool)

  /** Files: logs and tables. The manifest: the version known to be on disk, and one that
      has been written but not seen to be synced. Memory: the rest. `promised` collects the
      entries of synced writes that returned OK and can be read from the log. */
  datatype Db = Db(
    env: Env,
    logs: map<nat, Log>,
    tables: map<nat, set<Entry>>,
    saved: Version,
    offered: Option<Version>,
    mem: set<Entry>,
    imm: Option<set<Entry>>,
    logfile: nat,
    nextFile: nat,
    lastSequence: nat,
    commit: Option<Commit>,
    pinned: multiset<set<nat>>,
    pending: set<nat>,
    merging: Option<Merge>,
    job: Job,
    bgError: bool,
    promised: set<Entry>)

  const EMPTY_LOG := Log([], [], [], 0, 0)

  ghost predicate InTables(tables: map<nat, set<Entry>>, numbers: set<nat>, e: Entry) {
    exists n :: n in numbers && n in tables && e in tables[n]
  }

  ghost predicate InImm(db: Db, e: Entry) { db.imm.Some? && e in db.imm.value }

  /** What reads see: memtables and the current version. */
  ghost predicate Contents(db: Db, e: Entry) {
    e in db.mem || InImm(db, e) || InTables(db.tables, db.saved.tables, e)
  }

  /** The versions recovery may find. */
  ghost predicate Candidate(db: Db, v: Version) { v == db.saved || db.offered == Some(v) }

  // ---- Steps ----

  datatype Step =
    | Begin(ops: seq<Op>, sync: bool)
    | AppendOk | AppendFails(bytes: seq<Byte>, offset: nat) | SyncOk | SyncFails | InsertOne | InsertDone | End
    | SwitchMemtable
    | StartFlush | BuildOk | BuildFails | InstallOk | InstallFails
    | StartMerge(inputs: set<nat>) | OpenOutput | FinishMerge(contents: map<nat, set<Entry>>) | MergeFails
    | Pin | Unpin(tables: set<nat>)
    | Collect(logs: set<nat>, tables: set<nat>)
    | Recover(version: Version, kept: map<nat, seq<Record>>, made: map<nat, set<Entry>>, last: nat, log: nat)

  function CurrentLog(db: Db): Log
  {
    if db.logfile in db.logs then db.logs[db.logfile] else EMPTY_LOG
  }

  function WithLog(db: Db, log: Log, stage: Stage): Db
    requires db.commit.Some?
  {
    db.(logs := db.logs[db.logfile := log], commit := Some(db.commit.value.(stage := stage)))
  }

  /** The unlocked part of DBImpl::Write, and its end. */
  ghost predicate CommitStep(db: Db, step: Step, db': Db)
    requires db.commit.Some?
  {
    var c := db.commit.value;
    var log := CurrentLog(db);
    match step
    case AppendOk =>
      && c.stage.Logging?
      && db' == WithLog(db, log.Append(db.env, c.record),
                        if c.sync then Syncing(!log.Torn()) else Inserting(0, !log.Torn()))
    case AppendFails(bytes, offset) =>
      && c.stage.Logging? && db.env.torn(log.offset, c.record, bytes, offset)
      && db' == WithLog(db, log.Grown(c.record, bytes, offset, true), Over(false, false, false))
    case SyncOk =>
      c.stage.Syncing? && db' == WithLog(db, log.(synced := |log.file|), Inserting(0, c.stage.safe))
    case SyncFails =>
      c.stage.Syncing? && db' == db.(commit := Some(c.(stage := Over(false, true, false))))
    case InsertOne =>
      && c.stage.Inserting? && c.stage.next < |c.record.ops|
      && db' == db.(mem := db.mem + {c.record.At(c.stage.next)},
                    commit := Some(c.(stage := Inserting(c.stage.next + 1, c.stage.safe))))
    case InsertDone =>
      && c.stage.Inserting? && c.stage.next == |c.record.ops|
      && db' == db.(commit := Some(c.(stage := Over(true, false, c.stage.safe))))
    case End =>
      && c.stage.Over?
      && var kept := c.stage.ok && c.sync && c.record in log.Surviving(db.env);
         db' == db.(lastSequence := db.lastSequence + |c.record.ops|, commit := None,
                    bgError := db.bgError || c.stage.syncError,
                    promised := db.promised + if kept then c.record.Entries() else {})
    case _ => false
  }

  /** edit.SetLastSequence and edit.SetNextFile in LogAndApply. */
  function Edit(db: Db, tables: set<nat>, logNumber: nat): Version {
    Version(tables, logNumber, db.lastSequence, db.nextFile)
  }

  function Offer(db: Db, v: Version, flush: bool): Db { db.(offered := Some(v), job := Installing(v, flush)) }

  /** CompactMemTable, cut where it releases the mutex. An empty memtable gives no table. The
      number leaves pending_outputs_ before the new version is installed. */
  ghost predicate FlushStep(db: Db, step: Step, db': Db) {
    match step
    case StartFlush =>
      && db.imm.Some? && db.job.Free? && (!db.bgError || db.merging.Some?) && db.offered.None?
      && db' == db.(job := Building(db.nextFile), pending := db.pending + {db.nextFile}, nextFile := db.nextFile + 1)
    case BuildOk =>
      && db.imm.Some? && db.job.Building?
      && var n := db.job.number;
         var added := if db.imm.value == {} then {} else {n};
         var built := db.(pending := db.pending - {n}, tables := if db.imm.value == {} then db.tables
           else db.tables[n := db.imm.value]);
         db' == Offer(built, Edit(built, db.saved.tables + added, db.logfile), true)
    case BuildFails =>
      && db.job.Building?
      && db' == db.(job := Free, pending := db.pending - {db.job.number}, bgError := true)
    case InstallOk =>
      && db.job.Installing?
      && var installed := db.(saved := db.job.version, offered := None, job := Free);
         if db.job.flush then db' == installed.(imm := None)
         else
           && db.merging.Some?
           && db' == installed.(merging := None, pending := db.pending - db.merging.value.outputs)
    case InstallFails =>
      && db.job.Installing?
      && if db.job.flush then db' == db.(job := Free, bgError := true)
         else
           && db.merging.Some?
           && db' == db.(job := Free, bgError := true, merging := None,
              pending := db.pending - db.merging.value.outputs)
    case _ => false
  }

  ghost predicate SameEntries(a: map<nat, set<Entry>>, as_: set<nat>, b: map<nat, set<Entry>>, bs: set<nat>) {
    forall e :: InTables(a, as_, e) <==> InTables(b, bs, e)
  }

  /** DoCompactionWork and InstallCompactionResults; a flush may run in between, and an error
      of a writer does not stop a compaction under way. */
  ghost predicate MergeStep(db: Db, step: Step, db': Db) {
    match step
    case StartMerge(inputs) =>
      && db.merging.None? && db.job.Free? && !db.bgError && inputs <= db.saved.tables
      && db' == db.(merging := Some(Merge(inputs, {})))
    case OpenOutput =>
      && db.merging.Some? && db.job.Free?
      && var m := db.merging.value;
         db' == db.(merging := Some(m.(outputs := m.outputs + {db.nextFile})), pending := db.pending + {db.nextFile},
           nextFile := db.nextFile + 1)
    case FinishMerge(contents) =>
      && db.merging.Some? && db.job.Free? && db.offered.None?
      && var m := db.merging.value;
         && contents.Keys == m.outputs
         && SameEntries(contents, m.outputs, db.tables, m.inputs)
         && var written := db.(tables := db.tables + contents);
            db' == Offer(written, Edit(written, db.saved.tables - m.inputs + m.outputs, db.saved.logNumber), false)
    case MergeFails =>
      && db.merging.Some? && db.job.Free?
      && db' == db.(merging := None, pending := db.pending - db.merging.value.outputs, bgError := true)
    case _ => false
  }

  /** The files DeleteObsoleteFiles keeps. */
  ghost predicate LiveTable(db: Db, n: nat) {
    n in db.pending || n in db.saved.tables || exists p :: p in db.pinned && n in p
  }

  /** DeleteObsoleteFiles; it may delete only some of the files it could. The background
      thread calls it between its jobs. */
  ghost predicate CollectStep(db: Db, logs: set<nat>, tables: set<nat>, db': Db) {
    && db.job.Free? && !db.bgError
    && (forall n :: n in logs ==> n < db.saved.logNumber)
    && (forall n :: n in tables ==> !LiveTable(db, n))
    && db' == db.(logs := db.logs - logs, tables := db.tables - tables)
  }

  ghost predicate InKept(kept: map<nat, seq<Record>>, e: Entry) {
    exists n, r :: n in kept && r in kept[n] && r.Holds(e)
  }

  /** The logs that recovery replays, as the crash left them. */
  ghost predicate Replayed(db: Db, v: Version, kept: map<nat, seq<Record>>) {
    && (forall n :: n in kept <==> n in db.logs && n >= v.logNumber)
    && (forall n :: n in kept ==> db.logs[n].LeavesBehind(db.env, kept[n]))
  }

  /** max_sequence in Recover and RecoverLogFile. */
  ghost predicate LastRecovered(v: Version, kept: map<nat, seq<Record>>, last: nat) {
    && v.lastSequence <= last
    && (forall n, r :: n in kept && r in kept[n] ==> r.sequence + |r.ops| - 1 <= last)
    && (last == v.lastSequence || exists n, r :: n in kept && r in kept[n] && r.sequence + |r.ops| - 1 == last)
  }

  /** The state after DB::Open. The replayed logs are obsolete; no later recovery reads them. */
  function Opened(db: Db, step: Step): Db
    requires step.Recover?
  {
    Db(db.env, map[step.log := EMPTY_LOG],
       db.tables + step.made,
       Version(step.version.tables + step.made.Keys, step.log, step.last, step.log + 1), None,
       {}, None, step.log, step.log + 1, step.last, None, multiset{}, {}, None, Free, false, db.promised)
  }

  /** A crash and DB::Open: read some candidate version, replay the logs it asks for into new
      tables, start a new log, and save all this as the new version. */
  ghost predicate RecoverStep(db: Db, step: Step, db': Db)
    requires step.Recover?
  {
    var v, log := step.version, step.log;
    && Candidate(db, v) && v.tables <= db.tables.Keys
    && Replayed(db, v, step.kept) && LastRecovered(v, step.kept, step.last)
    && v.nextFile < log && (forall n :: n in step.kept ==> n < log)
    && (forall n :: n in step.made ==> v.nextFile < n < log)
    && (forall e :: InTables(step.made, step.made.Keys, e) <==> InKept(step.kept, e))
    && db' == Opened(db, step)
  }

  ghost predicate Next(db: Db, step: Step, db': Db) {
    match step
    case Begin(ops, sync) =>
      && db.commit.None? && !db.bgError && db.env.fits(Record(db.lastSequence + 1, ops))
      && db' == db.(commit := Some(Commit(Record(db.lastSequence + 1, ops), sync, Logging)))
    case SwitchMemtable =>
      && db.commit.None? && !db.bgError && db.imm.None?
      && db' == db.(imm := Some(db.mem), mem := {}, logfile := db.nextFile, nextFile := db.nextFile + 1,
                    logs := db.logs[db.nextFile := EMPTY_LOG])
    case Pin => db' == db.(pinned := db.pinned + multiset{db.saved.tables})
    case Unpin(tables) => db' == db.(pinned := db.pinned - multiset{tables})
    case Collect(logs, tables) => CollectStep(db, logs, tables, db')
    case Recover(_, _, _, _, _) => RecoverStep(db, step, db')
    case AppendOk | AppendFails(_, _) | SyncOk | SyncFails | InsertOne | InsertDone | End =>
      db.commit.Some? && CommitStep(db, step, db')
    case StartFlush | BuildOk | BuildFails | InstallOk | InstallFails => FlushStep(db, step, db')
    case StartMerge(_) | OpenOutput | FinishMerge(_) | MergeFails => MergeStep(db, step, db')
  }

  /** A new database: NewDB writes a manifest with log 0 and next file 2; opening it starts
      the first log. */
  ghost predicate Initial(db: Db) {
    && db.logfile in db.logs && db.logs == map[db.logfile := EMPTY_LOG]
    && db.tables == map[]
    && db.saved == Version({}, db.logfile, 0, db.nextFile)
    && db.logfile < db.nextFile
    && Lawful(db.env)
    && db == Db(db.env, db.logs, db.tables, db.saved, None, {}, None, db.logfile, db.nextFile, 0, None, multiset{}, {},
       None, Free, false, {})
  }

  // ---- The invariant ----

  ghost predicate VersionOk(db: Db, v: Version) {
    && v.tables <= db.tables.Keys
    && (forall n :: n in v.tables ==> n < v.nextFile)
    && v.nextFile <= db.nextFile && v.logNumber <= db.logfile
    && v.lastSequence <= db.lastSequence
    && (forall e :: InTables(db.tables, v.tables, e) ==> e.ikey.sequence <= v.lastSequence)
  }

  /** Every file a version, a reader or a log replay may ask for exists, and numbers still to
      be written to are used for nothing else. */
  ghost predicate FilesOk(db: Db) {
    && VersionOk(db, db.saved)
    && (db.offered.Some? ==> VersionOk(db, db.offered.value))
    && db.logfile in db.logs && db.logfile < db.nextFile
    && (forall n :: n in db.logs ==> n <= db.logfile)
    && (forall p, n :: p in db.pinned && n in p ==> n in db.tables && n < db.nextFile)
    && (forall n :: n in db.pending ==> n < db.nextFile)
  }

  /** A number that a table is being written to. */
  ghost predicate Reserved(db: Db, n: nat) {
    && n in db.pending
    && n !in db.saved.tables
    && (db.offered.Some? ==> n !in db.offered.value.tables)
    && forall p :: p in db.pinned ==> n !in p
  }

  /** The version being installed holds the same entries, in a flush those of imm_ too. */
  ghost predicate OfferedOk(db: Db, v: Version, flush: bool) {
    if flush then
      && db.imm.Some? && v.logNumber == db.logfile && db.saved.tables <= v.tables
      && forall e :: InTables(db.tables, v.tables, e) <==> InTables(db.tables, db.saved.tables, e) || e in db.imm.value
    else
      && db.merging.Some? && v.logNumber == db.saved.logNumber
      && SameEntries(db.tables, v.tables, db.tables, db.saved.tables)
  }

  ghost predicate MergingOk(db: Db) {
    db.merging.Some? ==>
      && db.merging.value.inputs <= db.saved.tables
      && (!(db.job.Installing? && !db.job.flush) ==> forall n :: n in db.merging.value.outputs ==> Reserved(db, n))
  }

  ghost predicate JobsOk(db: Db) {
    && MergingOk(db)
    && (db.job.Building? ==>
          && db.imm.Some? && db.offered.None? && Reserved(db, db.job.number)
          && (db.merging.Some? ==> db.job.number !in db.merging.value.outputs))
    && (db.job.Installing? ==> db.offered == Some(db.job.version) && OfferedOk(db, db.job.version, db.job.flush))
    && (db.offered.Some? ==> db.job.Installing? || db.bgError)
  }

  /** Some log still to be replayed, older than the current one, holds the entry. */
  ghost predicate InOlderLog(db: Db, e: Entry) {
    exists n :: n in db.logs && db.saved.logNumber <= n < db.logfile && db.logs[n].Holds(e)
  }

  ghost predicate LogsOk(db: Db) {
    && Lawful(db.env)
    && (forall n :: n in db.logs ==> LogOk(db.env, db.logs[n]))
    && (forall e :: e in db.mem ==> CurrentLog(db).Holds(e))
    && (forall e :: InImm(db, e) ==> InOlderLog(db, e))
  }

  /** Memtable entries are numbered up to LastSequence + k. */
  ghost predicate MemUpTo(db: Db, k: nat) {
    forall e :: e in db.mem ==> e.ikey.sequence <= db.lastSequence + k
  }

  /** Records hold numbers up to LastSequence, but for the one being written. */
  ghost predicate Settled(db: Db) {
    forall n, r, e :: n in db.logs && Recorded(db.logs[n], r) && r.Holds(e) ==>
      e.ikey.sequence <= db.lastSequence || (db.commit.Some? && r == db.commit.value.record && n == db.logfile)
  }

  ghost predicate Inserted(db: Db, c: Commit, k: nat, safe: bool) {
    && k <= |c.record.ops| && MemUpTo(db, k)
    && (forall j :: 0 <= j < k ==> c.record.At(j) in db.mem)
    && Recorded(CurrentLog(db), c.record)
    && (safe && c.sync ==> c.record in CurrentLog(db).Surviving(db.env))
  }

  ghost predicate StageOk(db: Db, c: Commit) {
    var log := CurrentLog(db);
    match c.stage
    case Logging => MemUpTo(db, 0)
    case Syncing(safe) =>
      && MemUpTo(db, 0) && c.sync && Recorded(log, c.record)
      && (safe ==> !log.Torn() && c.record in log.records)
    case Inserting(k, safe) => Inserted(db, c, k, safe)
    case Over(ok, _, safe) => if ok then Inserted(db, c, |c.record.ops|, safe) else MemUpTo(db, 0)
  }

  ghost predicate CommitOk(db: Db) {
    && Settled(db)
    && match db.commit
       case None => MemUpTo(db, 0)
       case Some(c) => c.record.sequence == db.lastSequence + 1 && db.env.fits(c.record) && StageOk(db, c)
  }

  /** The last number given out. */
  function Horizon(db: Db): nat {
    db.lastSequence + if db.commit.Some? then |db.commit.value.record.ops| else 0
  }

  /** The entry is somewhere a reader or a recovery may meet it. */
  ghost predicate Known(db: Db, e: Entry) {
    || e in db.mem || InImm(db, e)
    || InTables(db.tables, db.saved.tables, e)
    || (db.offered.Some? && InTables(db.tables, db.offered.value.tables, e))
    || (exists n :: n in db.logs && db.logs[n].Holds(e))
    || (db.commit.Some? && db.commit.value.record.Holds(e))
  }

  ghost predicate NumbersOk(db: Db) {
    && (forall e :: Known(db, e) ==> e.ikey.sequence <= Horizon(db))
    && (forall e :: InImm(db, e) ==> e.ikey.sequence <= db.lastSequence)
  }

  /** Recovery from version v brings the entry back: from a table, or from the synced part
      of a log it replays. */
  ghost predicate Backed(db: Db, v: Version, e: Entry) {
    || InTables(db.tables, v.tables, e)
    || (e in db.mem && CurrentLog(db).Keeps(db.env, e))
    || (InImm(db, e) && exists n :: n in db.logs && v.logNumber <= n < db.logfile && db.logs[n].Keeps(db.env, e))
  }

  ghost predicate PromisesOk(db: Db) {
    forall e, v :: e in db.promised && Candidate(db, v) ==> Backed(db, v, e)
  }

  ghost predicate Inv(db: Db) {
    && FilesOk(db) && JobsOk(db) && LogsOk(db) && CommitOk(db) && NumbersOk(db) && PromisesOk(db)
  }

  lemma InitialInv(db: Db)
    requires Initial(db)
    ensures Inv(db)
  {
    assert forall n :: n in db.logs ==> db.logs[n] == EMPTY_LOG;
  }
}
