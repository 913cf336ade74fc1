/** What recovery and garbage collection do, as steps of the durability protocol: DB::Open and
    DeleteObsoleteFiles of db/db_impl.cc. */
module RecoverySteps {
  import opened InternalKeys
  import opened TableFiles
  import opened CompactionWork
  import opened LogFormat
  import opened LogPrefixes
  import opened LogMedium
  import opened Durability
  import opened Recovery

  // ---- A crash, and opening the database again ----

  /** What a crash leaves in the directory: the tables, and every log cut off somewhere behind
      its synced part. */
  ghost predicate Leaves(db: Db, listing: seq<FileName>, content: map<nat, seq<Byte>>) {
    && Distinct(listing)
    && (forall n: nat :: FileName(TableFile, n) in listing <==> n in db.tables)
    && (forall n: nat :: FileName(LogFile, n) in listing <==> n in db.logs)
    && (forall n :: n in db.logs ==> n in content && LeftOf(db.logs[n], content[n]))
  }

  ghost predicate LeftOf(log: Log, file: seq<Byte>) {
    exists c :: log.synced <= c <= |log.file| && file == log.file[..c]
  }

  /** The logs to replay, in order, as the crash left them. */
  ghost predicate Available(db: Db, v: Version, content: map<nat, seq<Byte>>, logs: seq<nat>) {
    && Increasing(logs)
    && (forall n :: n in db.logs ==> n in content && LeftOf(db.logs[n], content[n]))
    && (forall n: nat :: n in logs <==> n in db.logs && n >= v.logNumber)
  }

  /** What recovery has when it is done: every record that can be read from the logs, replayed
      in order, and the largest number. */
  ghost predicate Finished(sum: Checksum, codec: BatchCodec, db: Db, v: Version, content: map<nat, seq<Byte>>,
                           logs: seq<nat>, p: Progress, last: nat, log: nat) {
    && Available(db, v, content, logs) && p.Holding([]) && p.first == v.nextFile + 1 && p.nextFile <= log
    && p.records == AllRecords(sum, codec, logs, content)
    && last == if v.lastSequence < p.maxSequence then p.maxSequence else v.lastSequence
  }

  /** What replay reads from each log. */
  ghost function KeptOf(db: Db, v: Version, content: map<nat, seq<Byte>>): map<nat, seq<Record>>
    requires forall n :: n in db.logs ==> n in content
  {
    map n | n in db.logs && n >= v.logNumber :: db.env.read(content[n])
  }

  lemma CutsAreReplayed(db: Db, v: Version, content: map<nat, seq<Byte>>)
    requires forall n :: n in db.logs ==> n in content && LeftOf(db.logs[n], content[n])
    ensures Replayed(db, v, KeptOf(db, v, content))
  {
    forall n | n in db.logs && n >= v.logNumber
      ensures db.logs[n].LeavesBehind(db.env, KeptOf(db, v, content)[n])
    {
      assert LeftOf(db.logs[n], content[n]);
    }
  }

  /** The records of the logs are those that replay met. */
  lemma {:induction false} FirstRecordsMember(sum: Checksum, codec: BatchCodec, logs: seq<nat>,
      content: map<nat, seq<Byte>>, k: nat, r: Record)
    requires k <= |logs| && forall n :: n in logs ==> n in content
    ensures r in FirstRecords(sum, codec, logs, content, k) <==> InFirst(sum, codec, logs, content, k, r)
  {
    if k > 0 {
      FirstRecordsMember(sum, codec, logs, content, k - 1, r);
      NextRecords(sum, codec, logs, content, k - 1);
      InOneMore(sum, codec, logs, content, k - 1, r);
    } else {
      NoRecords(sum, codec, logs, content);
    }
  }

  /** The record can be read from one of the first k logs. */
  ghost predicate InFirst(sum: Checksum, codec: BatchCodec, logs: seq<nat>, content: map<nat, seq<Byte>>, k: nat,
                          r: Record)
    requires k <= |logs| && forall n :: n in logs ==> n in content
  {
    exists i :: 0 <= i < k && r in Understood(codec, Records(sum, content[logs[i]]))
  }

  lemma InOneMore(sum: Checksum, codec: BatchCodec, logs: seq<nat>, content: map<nat, seq<Byte>>, k: nat, r: Record)
    requires k < |logs| && forall n :: n in logs ==> n in content
    ensures InFirst(sum, codec, logs, content, k + 1, r)
            <==> InFirst(sum, codec, logs, content, k, r) || r in Understood(codec, Records(sum, content[logs[k]]))
  {
  }

  lemma KeptMember(sum: Checksum, codec: BatchCodec, db: Db, v: Version, content: map<nat, seq<Byte>>, logs: seq<nat>,
                   r: Record)
    requires db.env == LogEnv(sum, codec) && forall n :: n in db.logs ==> n in content
    requires forall n: nat :: n in logs <==> n in db.logs && n >= v.logNumber
    ensures var kept := KeptOf(db, v, content);
            r in AllRecords(sum, codec, logs, content) <==> exists n :: n in kept && r in kept[n]
  {
    NoRecords(sum, codec, logs, content);
    FirstRecordsMember(sum, codec, logs, content, |logs|, r);
    SameKept(sum, codec, db, v, content, logs, r);
  }

  lemma SameKept(sum: Checksum, codec: BatchCodec, db: Db, v: Version, content: map<nat, seq<Byte>>, logs: seq<nat>,
                 r: Record)
    requires db.env == LogEnv(sum, codec) && forall n :: n in db.logs ==> n in content
    requires forall n: nat :: n in logs <==> n in db.logs && n >= v.logNumber
    ensures var kept := KeptOf(db, v, content);
            (exists i :: 0 <= i < |logs| && r in Understood(codec, Records(sum, content[logs[i]])))
              <==> (exists n :: n in kept && r in kept[n])
  {
    var kept := KeptOf(db, v, content);
    if n :| n in kept && r in kept[n] {
      assert n in logs;
      var i :| 0 <= i < |logs| && logs[i] == n;
    }
    if i :| 0 <= i < |logs| && r in Understood(codec, Records(sum, content[logs[i]])) {
      assert logs[i] in logs;
      assert r in kept[logs[i]];
    }
  }

  ghost predicate SameMembers(part: seq<Entry>, f: File) { Elements(part) == Elements(f.entries) }

  lemma FileHolds(part: seq<Entry>, f: File)
    requires FileOf(part, f)
    ensures SameMembers(part, f)
  {
  }

  ghost predicate InSome(files: seq<File>, e: Entry) {
    exists f :: f in files && e in f.entries
  }

  lemma InSomeOne(files: seq<File>, f: File, e: Entry)
    ensures InSome(files + [f], e) <==> InSome(files, e) || e in f.entries
  {
    assert forall g :: g in files + [f] <==> g in files || g == f;
  }

  lemma FlattenNext(parts: seq<seq<Entry>>, k: nat)
    requires k < |parts|
    ensures Flatten(parts[..k + 1]) == Flatten(parts[..k]) + parts[k]
  {
    assert parts[..k + 1][..k] == parts[..k];
  }

  ghost function FirstFiles(files: seq<File>, k: nat): seq<File>
    requires k <= |files|
  {
    files[..k]
  }

  lemma NextFile(files: seq<File>, k: nat)
    requires k < |files|
    ensures FirstFiles(files, k + 1) == FirstFiles(files, k) + [files[k]]
  {
  }

  lemma {:induction false} SplitMembers(parts: seq<seq<Entry>>, files: seq<File>, k: nat, e: Entry)
    requires k <= |parts| == |files| && forall i :: 0 <= i < k ==> SameMembers(parts[i], files[i])
    ensures e in Flatten(parts[..k]) <==> InSome(FirstFiles(files, k), e)
  {
    if k > 0 {
      SplitMembers(parts, files, k - 1, e);
      FlattenNext(parts, k - 1);
      NextFile(files, k - 1);
      OneMorePart(Flatten(parts[..k - 1]), parts[k - 1], FirstFiles(files, k - 1), files[k - 1], e);
    }
  }

  lemma OneMorePart(es: seq<Entry>, part: seq<Entry>, files: seq<File>, f: File, e: Entry)
    requires SameMembers(part, f) && (e in es <==> InSome(files, e))
    ensures e in es + part <==> InSome(files + [f], e)
  {
    assert e in part <==> e in Elements(f.entries);
    InSomeOne(files, f, e);
  }

  lemma SplitHolds(es: seq<Entry>, parts: seq<seq<Entry>>, files: seq<File>, e: Entry)
    requires SplitInto(es, parts, files)
    ensures e in es <==> InSome(files, e)
  {
    forall i | 0 <= i < |files|
      ensures SameMembers(parts[i], files[i])
    {
      FileHolds(parts[i], files[i]);
    }
    SplitMembers(parts, files, |files|, e);
    assert parts[..|files|] == parts && files[..|files|] == files;
  }

  lemma InSomeTable(files: seq<File>, made: map<nat, set<Entry>>, e: Entry)
    requires NumbersAscend(files) && made == TablesOf(files)
    ensures InTables(made, made.Keys, e) <==> InSome(files, e)
  {
    if f :| f in files && e in f.entries {
      assert e in made[f.number];
    }
    if n :| n in made && e in made[n] {
      var f :| f in files && f.number == n;
    }
  }

  /** The new tables hold exactly what was replayed. */
  lemma TablesHoldRecords(p: Progress, e: Entry)
    requires p.Holding([])
    ensures InTables(TablesOf(p.files), TablesOf(p.files).Keys, e) <==> HeldBy(p.records, e)
  {
    AllListedHolds(p.records, e);
    assert Flatten(p.parts) + [] == Flatten(p.parts);
    SplitHolds(Flatten(p.parts), p.parts, p.files, e);
    InSomeTable(p.files, TablesOf(p.files), e);
  }

  /** The records met are those that the step replays. */
  ghost predicate SameRecords(kept: map<nat, seq<Record>>, records: seq<Record>) {
    forall r :: r in records <==> exists n :: n in kept && r in kept[n]
  }

  /** The step of the durability protocol that recovery ends in. */
  ghost predicate EndsIn(v: Version, p: Progress, last: nat, log: nat, step: Step) {
    && step.Recover? && step.version == v && step.last == last && step.log == log
    && NumbersAscend(p.files) && step.made == TablesOf(p.files) && SameRecords(step.kept, p.records)
  }

  lemma LastIsRecovered(v: Version, kept: map<nat, seq<Record>>, records: seq<Record>, m: nat, last: nat)
    requires LargestLast(records, m) && SameRecords(kept, records)
    requires last == if v.lastSequence < m then m else v.lastSequence
    ensures LastRecovered(v, kept, last)
  {
    if last != v.lastSequence {
      var r :| r in records && r.sequence + |r.ops| - 1 == m;
      var n :| n in kept && r in kept[n];
    }
    forall n, r | n in kept && r in kept[n]
      ensures r.sequence + |r.ops| - 1 <= last
    {
      assert r in records;
    }
  }

  lemma HeldIsKept(kept: map<nat, seq<Record>>, records: seq<Record>, e: Entry)
    requires SameRecords(kept, records)
    ensures HeldBy(records, e) <==> InKept(kept, e)
  {
    if InKept(kept, e) {
      var n, r :| n in kept && r in kept[n] && r.Holds(e);
      assert r in records;
    }
    if HeldBy(records, e) {
      var r :| r in records && r.Holds(e);
      var n :| n in kept && r in kept[n];
    }
  }

  lemma NumbersFit(v: Version, files: seq<File>, next: nat, made: map<nat, set<Entry>>, log: nat)
    requires NumberedFrom(files, v.nextFile + 1, next) && next <= log && made == TablesOf(files)
    ensures v.nextFile < log && forall n :: n in made ==> v.nextFile < n < log
  {
  }

  lemma KeptIsRecords(sum: Checksum, codec: BatchCodec, db: Db, v: Version, content: map<nat, seq<Byte>>,
                      logs: seq<nat>)
    requires db.env == LogEnv(sum, codec) && Available(db, v, content, logs)
    ensures SameRecords(KeptOf(db, v, content), AllRecords(sum, codec, logs, content))
  {
    forall r
      ensures r in AllRecords(sum, codec, logs, content)
              <==> exists n :: n in KeptOf(db, v, content) && r in KeptOf(db, v, content)[n]
    {
      KeptMember(sum, codec, db, v, content, logs, r);
    }
  }

  /** Recovery ends in a step of the durability protocol: its guards are what the loops do. */
  lemma RecoveryIsStep(sum: Checksum, codec: BatchCodec, db: Db, v: Version, content: map<nat, seq<Byte>>,
                       logs: seq<nat>, p: Progress, last: nat, log: nat)
      returns (step: Step)
    requires FilesOk(db) && Candidate(db, v) && db.env == LogEnv(sum, codec)
    requires Finished(sum, codec, db, v, content, logs, p, last, log) && forall n :: n in logs ==> n < log
    ensures EndsIn(v, p, last, log, step) && Next(db, step, Opened(db, step))
  {
    var kept := KeptOf(db, v, content);
    CutsAreReplayed(db, v, content);
    KeptIsRecords(sum, codec, db, v, content, logs);
    assert forall n: nat :: n in kept ==> n in logs;
    step := GuardsHold(db, v, kept, p, last, log);
  }

  lemma GuardsHold(db: Db, v: Version, kept: map<nat, seq<Record>>, p: Progress, last: nat, log: nat)
      returns (step: Step)
    requires FilesOk(db) && Candidate(db, v) && Replayed(db, v, kept)
    requires p.Holding([]) && p.first == v.nextFile + 1 && p.nextFile <= log && forall n :: n in kept ==> n < log
    requires SameRecords(kept, p.records)
    requires last == if v.lastSequence < p.maxSequence then p.maxSequence else v.lastSequence
    ensures EndsIn(v, p, last, log, step) && Next(db, step, Opened(db, step))
  {
    var made := TablesOf(p.files);
    LastIsRecovered(v, kept, p.records, p.maxSequence, last);
    forall e
      ensures InTables(made, made.Keys, e) <==> InKept(kept, e)
    {
      TablesHoldRecords(p, e);
      HeldIsKept(kept, p.records, e);
    }
    NumbersFit(v, p.files, p.nextFile, made, log);
    step := Durability.Recover(v, kept, made, last, log);
    GuardsMakeStep(db, v, kept, made, last, log);
  }

  lemma GuardsMakeStep(db: Db, v: Version, kept: map<nat, seq<Record>>, made: map<nat, set<Entry>>, last: nat, log: nat)
    requires FilesOk(db) && Candidate(db, v) && Replayed(db, v, kept) && LastRecovered(v, kept, last)
    requires v.nextFile < log && forall n :: n in kept ==> n < log
    requires forall n :: n in made ==> v.nextFile < n < log
    requires forall e :: InTables(made, made.Keys, e) <==> InKept(kept, e)
    ensures var step := Durability.Recover(v, kept, made, last, log); Next(db, step, Opened(db, step))
  {
  }

  lemma TablesAreListed(db: Db, v: Version, listing: seq<FileName>, content: map<nat, seq<Byte>>)
    requires FilesOk(db) && Candidate(db, v) && Leaves(db, listing, content)
    ensures forall n :: n in v.tables ==> exists f :: f in listing && f.number == n
  {
    forall n | n in v.tables
      ensures exists f :: f in listing && f.number == n
    {
      assert FileName(TableFile, n) in listing;
    }
  }

  /** DB::Open after a crash: recovery, and the number of a new log. */
  method Open(sum: Checksum, codec: BatchCodec, full: seq<Entry> -> bool, sizeOf: seq<Entry> -> nat,
              v: Version, listing: seq<FileName>, content: map<nat, seq<Byte>>, ghost db: Db)
      returns (ok: bool, files: seq<File>, last: nat, log: nat, ghost logs: seq<nat>, ghost p: Progress,
        ghost step: Step)
    requires FilesOk(db) && Candidate(db, v) && db.env == LogEnv(sum, codec) && Leaves(db, listing, content)
    ensures ok && p.files == files && Finished(sum, codec, db, v, content, logs, p, last, log)
    ensures EndsIn(v, p, last, log, step) && Next(db, step, Opened(db, step))
  {
    var replay := new Replay(sum, codec, full, sizeOf, v);
    var sorted;
    ok, last, sorted := replay.Recover(v, listing, content);
    TablesAreListed(db, v, listing, content);
    logs, files, p := sorted, replay.files, replay.State();
    log := replay.NewFileNumber();
    step := RecoveryIsStep(sum, codec, db, v, content, logs, p, last, log);
  }

  // ---- Garbage collection ----

  /** AddLiveFiles: the tables of every version still referenced. */
  method AddLiveFiles(versions: seq<set<nat>>, pending: set<nat>) returns (live: set<nat>)
    ensures forall n :: n in live <==> InUse(pending, versions, n)
  {
    live := pending;
    for i := 0 to |versions|
      invariant forall n :: n in live <==> n in pending || exists j :: 0 <= j < i && n in versions[j]
    {
      live := live + versions[i];
    }
    assert forall v :: v in versions ==> exists j :: 0 <= j < |versions| && versions[j] == v;
  }

  /** A table being written, or one of a version that the version set still refers to. */
  ghost predicate InUse(pending: set<nat>, versions: seq<set<nat>>, n: nat) {
    n in pending || exists v :: v in versions && n in v
  }

  ghost predicate Stays(listing: seq<FileName>, deleted: seq<FileName>, f: FileName) {
    f in listing && f !in deleted
  }

  /** Which files of the directory stay, kind by kind. */
  ghost predicate OnlyNeededStay(bgError: bool, pending: set<nat>, versions: seq<set<nat>>, logNumber: nat,
                                 prevLogNumber: nat, manifest: nat, listing: seq<FileName>, deleted: seq<FileName>) {
    && (forall f :: f in listing && (f.kind.CurrentFile? || f.kind.DBLockFile? || f.kind.InfoLogFile?) ==>
          Stays(listing, deleted, f))
    && (forall n: nat :: FileName(DescriptorFile, n) in listing ==>
          (Stays(listing, deleted, FileName(DescriptorFile, n)) <==> bgError || manifest <= n))
    && (forall n: nat :: FileName(LogFile, n) in listing ==>
          (Stays(listing, deleted, FileName(LogFile, n)) <==> bgError || logNumber <= n || n == prevLogNumber))
    && (forall n: nat :: FileName(TableFile, n) in listing ==>
          (Stays(listing, deleted, FileName(TableFile, n)) <==> bgError || InUse(pending, versions, n)))
    && (forall n: nat :: FileName(TempFile, n) in listing ==>
          (Stays(listing, deleted, FileName(TempFile, n)) <==> bgError || InUse(pending, versions, n)))
  }

  method DeleteObsoleteFiles(bgError: bool, pending: set<nat>, versions: seq<set<nat>>, logNumber: nat,
                             prevLogNumber: nat, manifest: nat, listing: seq<FileName>)
      returns (deleted: seq<FileName>)
    ensures forall f :: f in deleted ==> f in listing
    ensures OnlyNeededStay(bgError, pending, versions, logNumber, prevLogNumber, manifest, listing, deleted)
  {
    deleted := [];
    if bgError {
      return;
    }
    var live := AddLiveFiles(versions, pending);
    for i := 0 to |listing|
      invariant forall f :: f in deleted <==> f in listing[..i] && !Keeps(f, live, logNumber, prevLogNumber, manifest)
    {
      assert listing[..i + 1] == listing[..i] + [listing[i]];
      if !Keeps(listing[i], live, logNumber, prevLogNumber, manifest) {
        deleted := deleted + [listing[i]];
      }
    }
    assert listing[..|listing|] == listing;
  }

  /** The switch: `keep`. */
  predicate Keeps(f: FileName, live: set<nat>, logNumber: nat, prevLogNumber: nat, manifest: nat) {
    match f.kind
    case LogFile => f.number >= logNumber || f.number == prevLogNumber
    case DescriptorFile => f.number >= manifest
    case TableFile => f.number in live
    case TempFile => f.number in live
    case CurrentFile => true
    case DBLockFile => true
    case InfoLogFile => true
  }

  ghost function Numbers(files: seq<FileName>, kind: FileKind): set<nat> {
    set f | f in files && f.kind == kind :: f.number
  }

  /** The version set refers to the current version, those that readers hold, and no others. */
  ghost predicate Refers(versions: seq<set<nat>>, db: Db) {
    forall p: set<nat> :: p in versions <==> p == db.saved.tables || p in db.pinned
  }

  function Collected(db: Db, logs: set<nat>, tables: set<nat>): Db {
    db.(logs := db.logs - logs, tables := db.tables - tables)
  }

  /** What it deletes may be deleted: a step of the durability protocol, or none at all after a
      background error. */
  lemma CollectionIsStep(db: Db, versions: seq<set<nat>>, prevLogNumber: nat, manifest: nat, listing: seq<FileName>,
                         deleted: seq<FileName>)
    requires db.job.Free? && Refers(versions, db) && forall f :: f in deleted ==> f in listing
    requires OnlyNeededStay(db.bgError, db.pending, versions, db.saved.logNumber, prevLogNumber, manifest, listing,
                            deleted)
    ensures var logs, tables := Numbers(deleted, LogFile), Numbers(deleted, TableFile);
            var db' := Collected(db, logs, tables);
            if db.bgError then db' == db else Next(db, Collect(logs, tables), db')
  {
    var logs, tables := Numbers(deleted, LogFile), Numbers(deleted, TableFile);
    forall n | n in logs
      ensures !db.bgError && n < db.saved.logNumber
    {
      assert FileName(LogFile, n) in deleted && !Stays(listing, deleted, FileName(LogFile, n));
    }
    forall n | n in tables
      ensures !db.bgError && !LiveTable(db, n)
    {
      assert FileName(TableFile, n) in deleted && !Stays(listing, deleted, FileName(TableFile, n));
    }
    if db.bgError {
      assert db.logs - {} == db.logs && db.tables - {} == db.tables;
    }
  }

  /** The directory afterwards is that of the protocol's state, so that a crash finds all that
      recovery asks for: CURRENT, the manifest in use, and exactly the logs and tables in use. */
  lemma CollectionLeavesStore(db: Db, versions: seq<set<nat>>, prevLogNumber: nat, manifest: nat,
                              listing: seq<FileName>, content: map<nat, seq<Byte>>, deleted: seq<FileName>,
                              left: seq<FileName>)
    requires Leaves(db, listing, content) && (forall f :: f in deleted ==> f in listing)
    requires OnlyNeededStay(db.bgError, db.pending, versions, db.saved.logNumber, prevLogNumber, manifest, listing,
                            deleted)
    requires Distinct(left) && forall f :: f in left <==> Stays(listing, deleted, f)
    ensures var db' := Collected(db, Numbers(deleted, LogFile), Numbers(deleted, TableFile));
            && Leaves(db', left, content)
            && (!db.bgError ==> forall n: nat :: n in db'.logs ==> db.saved.logNumber <= n || n == prevLogNumber)
            && (!db.bgError ==> forall n: nat :: n in db'.tables ==> InUse(db.pending, versions, n))
    ensures forall f :: f in listing && (f.kind.CurrentFile? || f == FileName(DescriptorFile, manifest)) ==> f in left
  {
    var logs, tables := Numbers(deleted, LogFile), Numbers(deleted, TableFile);
    forall n: nat
      ensures n in logs <==> FileName(LogFile, n) in deleted
      ensures n in tables <==> FileName(TableFile, n) in deleted
    {
      assert FileName(LogFile, n).number == n && FileName(TableFile, n).number == n;
    }
    forall n: nat
      ensures n in db.logs - logs <==> Stays(listing, deleted, FileName(LogFile, n))
      ensures n in db.tables - tables <==> Stays(listing, deleted, FileName(TableFile, n))
    {
    }
  }
}
