/** The store that opening the database after a crash finds: in order, and answering reads from
    exactly the writes that survived. */
module ReopenedStores {
  import opened Wrappers
  import opened InternalKeys
  import opened TableFiles
  import opened CompactionWork
  import opened Store
  import opened StoreReads
  import opened StoreDisks
  import opened RecoveredStores
  import opened LogFormat
  import opened LogPrefixes
  import opened LogMedium
  import opened Recovery
  import opened RecoverySteps
  import D = Durability
  import P = DurabilityProofs
  import O = LogOrder
  import VersionEdits

  // ---- Replay meets the writes in order ----

  lemma InOrderAppends(a: seq<D.Record>, b: seq<D.Record>)
    requires D.InOrder(a) && D.InOrder(b) && forall q, r :: q in a && r in b ==> D.Before(q, r)
    ensures D.InOrder(a + b)
  {
    var all := a + b;
    forall i, j | 0 <= i < j < |all|
      ensures D.Before(all[i], all[j])
    {
      if i < |a| <= j {
        assert all[i] in a && all[j] in b;
      }
    }
  }

  lemma ListedAscends(r: D.Record)
    ensures Ascending(Listed(r))
  {
  }

  lemma AscendsAppends(a: seq<Entry>, b: seq<Entry>)
    requires Ascending(a) && Ascending(b)
    requires forall x, y :: x in a && y in b ==> x.ikey.sequence < y.ikey.sequence
    ensures Ascending(a + b)
  {
  }

  lemma {:induction false} OrderAscends(records: seq<D.Record>)
    requires D.InOrder(records)
    ensures Ascending(AllListed(records))
  {
    if records != [] {
      var n := |records| - 1;
      OrderAscends(records[..n]);
      ListedAscends(records[n]);
      forall x, y | x in AllListed(records[..n]) && y in Listed(records[n])
        ensures x.ikey.sequence < y.ikey.sequence
      {
        AllListedHolds(records[..n], x);
        ListedHolds(records[n], y);
        var q :| q in records[..n] && q.Holds(x);
        var i :| 0 <= i < n && records[i] == q;
        assert D.Before(records[i], records[n]);
      }
      AscendsAppends(AllListed(records[..n]), Listed(records[n]));
    }
  }

  /** What is read of a log that was cut off. */
  lemma CutReadsInOrder(db: D.Db, n: nat, file: seq<Byte>)
    requires D.LogsOk(db) && n in db.logs && db.logs[n].Faithful(db.env) && LeftOf(db.logs[n], file)
    ensures D.InOrder(db.env.read(file)) && forall r, e :: r in db.env.read(file) && r.Holds(e) ==> O.Logged(db, n, e)
  {
    var log := db.logs[n];
    P.ReplayedIsRead(db.env, log, db.env.read(file));
    forall r, e | r in db.env.read(file) && r.Holds(e)
      ensures O.Logged(db, n, e)
    {
      assert D.Recorded(log, r);
    }
  }

  /** Every log that this version leaves to replay reads what was appended to it, in order. */
  ghost predicate Clean(db: D.Db, v: D.Version) {
    O.OrderInv(db) && forall n :: n in db.logs && v.logNumber <= n ==> db.logs[n].Faithful(db.env)
  }

  /** A record replayed from one of the first k logs. */
  lemma FirstRecordsLogged(sum: Checksum, codec: BatchCodec, db: D.Db, v: D.Version, content: map<nat, seq<Byte>>,
                           logs: seq<nat>, k: nat, r: D.Record)
      returns (i: nat)
    requires D.LogsOk(db) && Clean(db, v) && db.env == LogEnv(sum, codec) && Available(db, v, content, logs)
             && k <= |logs|
    requires r in FirstRecords(sum, codec, logs, content, k)
    ensures i < k && forall e :: r.Holds(e) ==> O.Logged(db, logs[i], e)
  {
    FirstRecordsMember(sum, codec, logs, content, k, r);
    i :| 0 <= i < k && r in Understood(codec, Records(sum, content[logs[i]]));
    assert logs[i] in logs;
    CutReadsInOrder(db, logs[i], content[logs[i]]);
  }

  lemma NextLogIsLater(sum: Checksum, codec: BatchCodec, db: D.Db, v: D.Version, content: map<nat, seq<Byte>>,
                       logs: seq<nat>, k: nat, q: D.Record, r: D.Record)
    requires D.LogsOk(db) && Clean(db, v) && db.env == LogEnv(sum, codec) && Available(db, v, content, logs)
             && k < |logs|
    requires q in FirstRecords(sum, codec, logs, content, k) && forall e :: r.Holds(e) ==> O.Logged(db, logs[k], e)
    ensures D.Before(q, r)
  {
    var i := FirstRecordsLogged(sum, codec, db, v, content, logs, k, q);
    assert logs[i] < logs[k];
  }

  lemma {:induction false} ReplayInOrder(sum: Checksum, codec: BatchCodec, db: D.Db, v: D.Version,
                                         content: map<nat, seq<Byte>>, logs: seq<nat>, k: nat)
    requires D.LogsOk(db) && Clean(db, v) && db.env == LogEnv(sum, codec) && Available(db, v, content, logs)
             && k <= |logs|
    ensures D.InOrder(FirstRecords(sum, codec, logs, content, k))
  {
    if k == 0 {
      NoRecords(sum, codec, logs, content);
    } else {
      var n := k - 1;
      ReplayInOrder(sum, codec, db, v, content, logs, n);
      NextRecords(sum, codec, logs, content, n);
      NextInOrder(sum, codec, db, v, content, logs, n, FirstRecords(sum, codec, logs, content, n),
        Understood(codec, Records(sum, content[logs[n]])));
    }
  }

  lemma NextInOrder(sum: Checksum, codec: BatchCodec, db: D.Db, v: D.Version, content: map<nat, seq<Byte>>,
                    logs: seq<nat>, n: nat, some: seq<D.Record>, more: seq<D.Record>)
    requires D.LogsOk(db) && Clean(db, v) && db.env == LogEnv(sum, codec) && Available(db, v, content, logs)
             && n < |logs|
    requires some == FirstRecords(sum, codec, logs, content, n) && D.InOrder(some)
             && more == Understood(codec, Records(sum, content[logs[n]]))
    ensures D.InOrder(some + more)
  {
    assert logs[n] in logs;
    CutReadsInOrder(db, logs[n], content[logs[n]]);
    forall q, r | q in some && r in more
      ensures D.Before(q, r)
    {
      NextLogIsLater(sum, codec, db, v, content, logs, n, q, r);
    }
    InOrderAppends(some, more);
  }

  lemma ReplayedIsNewer(sum: Checksum, codec: BatchCodec, db: D.Db, v: D.Version, content: map<nat, seq<Byte>>,
                        logs: seq<nat>, r: D.Record, x: Entry, y: Entry)
    requires D.LogsOk(db) && Clean(db, v) && D.Candidate(db, v) && db.env == LogEnv(sum, codec)
             && Available(db, v, content, logs)
    requires r in FirstRecords(sum, codec, logs, content, |logs|) && r.Holds(y) && D.InTables(db.tables, v.tables, x)
    ensures x.ikey.sequence < y.ikey.sequence
  {
    var i := FirstRecordsLogged(sum, codec, db, v, content, logs, |logs|, r);
    assert logs[i] in logs;
    LoggedIsNewer(db, v, logs[i], x, y);
  }

  lemma LoggedIsNewer(db: D.Db, v: D.Version, n: nat, x: Entry, y: Entry)
    requires Clean(db, v) && D.Candidate(db, v) && v.logNumber <= n && O.Logged(db, n, y)
             && D.InTables(db.tables, v.tables, x)
    ensures x.ikey.sequence < y.ikey.sequence
  {
    assert O.TablesBefore(db, v);
  }

  /** Every entry of a list is newer than all tables of the version. */
  ghost predicate NewerThanTables(db: D.Db, v: D.Version, es: seq<Entry>) {
    forall x, y :: y in es && D.InTables(db.tables, v.tables, x) ==> x.ikey.sequence < y.ikey.sequence
  }

  lemma HeldIsNewer(db: D.Db, v: D.Version, records: seq<D.Record>)
    requires forall r, x, y :: r in records && r.Holds(y) && D.InTables(db.tables, v.tables, x) ==>
               x.ikey.sequence < y.ikey.sequence
    ensures NewerThanTables(db, v, AllListed(records))
  {
    forall x, y | y in AllListed(records) && D.InTables(db.tables, v.tables, x)
      ensures x.ikey.sequence < y.ikey.sequence
    {
      AllListedHolds(records, y);
    }
  }

  /** The replayed writes come in order, and all of them are newer than the version's tables. */
  lemma ReplayedAreNewer(sum: Checksum, codec: BatchCodec, db: D.Db, v: D.Version, content: map<nat, seq<Byte>>,
                         logs: seq<nat>)
    requires D.LogsOk(db) && Clean(db, v) && D.Candidate(db, v) && db.env == LogEnv(sum, codec)
             && Available(db, v, content, logs)
    ensures Ascending(AllListed(AllRecords(sum, codec, logs, content)))
    ensures NewerThanTables(db, v, AllListed(AllRecords(sum, codec, logs, content)))
  {
    NoRecords(sum, codec, logs, content);
    ReplayInOrder(sum, codec, db, v, content, logs, |logs|);
    OrderAscends(AllRecords(sum, codec, logs, content));
    forall r, x, y | r in AllRecords(sum, codec, logs, content) && r.Holds(y) && D.InTables(db.tables, v.tables, x)
      ensures x.ikey.sequence < y.ikey.sequence
    {
      ReplayedIsNewer(sum, codec, db, v, content, logs, r, x, y);
    }
    HeldIsNewer(db, v, AllRecords(sum, codec, logs, content));
  }

  // ---- The store after opening ----

  /** A store without memtables, whose writes are what the version's tables hold. */
  ghost predicate StoreOf(db: D.Db, v: D.Version, st: Store) {
    && Inv(st) && ReadsAgree(st) && st.mem == [] && st.imm == None
    && st.snapshots == [] && (forall e :: e in st.history <==> D.InTables(db.tables, v.tables, e))
    && st.lastSequence == LastOf(st.history) && st.nextFile <= v.nextFile + 1
  }

  /** The store with the recovered files on level 0. */
  function ReopenedStore(st: Store, files: seq<File>, es: seq<Entry>, last: nat, log: nat): Store
    requires |st.levels| == NUM_LEVELS
  {
    st.(levels := PlacedAll(st.levels, files), lastSequence := last, nextFile := log + 1, history := st.history + es)
  }

  lemma ReplayedIsWritable(db: D.Db, v: D.Version, st: Store, es: seq<Entry>, last: nat)
    requires StoreOf(db, v, st) && Ascending(es) && NewerThanTables(db, v, es)
    requires (forall e :: e in es ==> 1 <= e.ikey.sequence <= last) && last < MAX_SEQUENCE
    ensures Writable(st.lastSequence, es)
  {
    if st.history != [] {
      assert st.history[|st.history| - 1] in st.history;
    }
  }

  lemma LastStepLeads(st: Store, steps: seq<Step>, cur: Store, goal: Store) returns (steps': seq<Step>)
    requires Leads(st, steps, cur) && AllReplay(steps)
    requires cur.lastSequence <= goal.lastSequence < MAX_SEQUENCE && cur.nextFile <= goal.nextFile
    requires goal == cur.(lastSequence := goal.lastSequence, nextFile := goal.nextFile)
    ensures Leads(st, steps', goal) && AllReplay(steps')
  {
    var skip := UseUp(goal.lastSequence - cur.lastSequence, goal.nextFile - cur.nextFile);
    LeadsOn(st, steps, cur, skip, goal);
    steps' := steps + [skip];
  }

  lemma AllParts(p: Progress)
    requires p.Holding([])
    ensures |p.parts| == |p.files| && p.parts[..|p.files|] == p.parts && p.files[..|p.files|] == p.files
    ensures forall i :: 0 <= i < |p.files| ==> HasPart(p.parts, p.files, i)
    ensures Flatten(p.parts) == AllListed(p.records)
    ensures NumbersAscend(p.files) && NumberAfter(p.first, p.files) <= p.nextFile
  {
    assert Flatten(p.parts) + [] == Flatten(p.parts);
    if p.files != [] {
      assert p.files[|p.files| - 1] in p.files;
    }
  }

  /** From the store on disk, recovery leads to the reopened store. */
  lemma RecoveryLeads(st: Store, p: Progress, last: nat, log: nat, es: seq<Entry>) returns (steps: seq<Step>)
    requires |st.levels| == NUM_LEVELS && st.mem == [] && st.imm == None
    requires p.Holding([]) && es == AllListed(p.records) && st.nextFile <= p.first && p.nextFile <= log
    requires Writable(st.lastSequence, es) && LastAfter(st.lastSequence, es) <= last < MAX_SEQUENCE
    ensures Leads(st, steps, ReopenedStore(st, p.files, es, last, log)) && AllReplay(steps)
  {
    AllParts(p);
    var cur := AfterFiles(st, p.parts, p.files, |p.files|);
    steps := FilesLead(st, p.parts, p.files, |p.files|, cur);
    NumberAfterGrows(st.nextFile, p.first, p.files);
    steps := LastStepLeads(st, steps, cur, ReopenedStore(st, p.files, es, last, log));
  }

  lemma NumberAfterGrows(a: nat, b: nat, files: seq<File>)
    requires a <= b
    ensures NumberAfter(a, files) <= NumberAfter(b, files)
  {
  }

  lemma ReplayedNumbers(sum: Checksum, codec: BatchCodec, db: D.Db, v: D.Version, content: map<nat, seq<Byte>>,
                        logs: seq<nat>, m: nat)
    requires D.LogsOk(db) && Clean(db, v) && db.env == LogEnv(sum, codec) && Available(db, v, content, logs)
    requires LargestLast(AllRecords(sum, codec, logs, content), m)
    ensures forall e :: e in AllListed(AllRecords(sum, codec, logs, content)) ==> 1 <= e.ikey.sequence <= m
  {
    NoRecords(sum, codec, logs, content);
    forall e | e in AllListed(AllRecords(sum, codec, logs, content))
      ensures 1 <= e.ikey.sequence <= m
    {
      AllListedHolds(AllRecords(sum, codec, logs, content), e);
      var r :| r in AllRecords(sum, codec, logs, content) && r.Holds(e);
      var i := FirstRecordsLogged(sum, codec, db, v, content, logs, |logs|, r);
    }
  }

  lemma LastIsLater(db: D.Db, v: D.Version, st: Store, es: seq<Entry>, last: nat)
    requires D.VersionOk(db, v) && StoreOf(db, v, st) && v.lastSequence <= last
    requires forall e :: e in es ==> e.ikey.sequence <= last
    ensures LastAfter(st.lastSequence, es) <= last
  {
    if es != [] {
      assert es[|es| - 1] in es;
    } else if st.history != [] {
      assert st.history[|st.history| - 1] in st.history;
    }
  }

  /** The writes of the reopened store are the entries that the durability protocol has after
      its recovery step. */
  lemma HistoryIsContents(db: D.Db, step: D.Step, db': D.Db, st: Store, records: seq<D.Record>, e: Entry)
    requires D.FilesOk(db) && step.Recover? && D.Next(db, step, db') && StoreOf(db, step.version, st)
    requires SameRecords(step.kept, records)
    ensures e in st.history + AllListed(records) <==> D.Contents(db', e)
  {
    P.RecoveredContents(db, step, db', e);
    AllListedHolds(records, e);
    HeldIsKept(step.kept, records, e);
  }

  lemma EntriesFit(db: D.Db, v: D.Version, st: Store, es: seq<Entry>, m: nat, last: nat)
    requires D.VersionOk(db, v) && StoreOf(db, v, st) && Ascending(es) && NewerThanTables(db, v, es)
    requires (forall e :: e in es ==> 1 <= e.ikey.sequence <= m) && m <= last < MAX_SEQUENCE && v.lastSequence <= last
    ensures Writable(st.lastSequence, es) && LastAfter(st.lastSequence, es) <= last
  {
    ReplayedIsWritable(db, v, st, es, last);
    LastIsLater(db, v, st, es, last);
  }

  lemma VersionInRun(run: seq<D.Db>, dbSteps: seq<D.Step>, i: nat, v: D.Version)
    requires P.IsRun(run, dbSteps) && i < |run| && D.Candidate(run[i], v)
    ensures D.VersionOk(run[i], v)
  {
    P.RunsKeepInv(run, dbSteps, i);
  }

  lemma UntornIsClean(db: D.Db, v: D.Version)
    requires D.LogsOk(db) && O.OrderInv(db)
    requires forall n :: n in db.logs && v.logNumber <= n && db.logs[n].Torn() ==> db.logs[n].Faithful(db.env)
    ensures Clean(db, v)
  {
    forall n | n in db.logs && v.logNumber <= n && !db.logs[n].Torn()
      ensures db.logs[n].Faithful(db.env)
    {
      O.UntornIsFaithful(db, n);
    }
  }

  lemma ReplayedInRun(run: seq<D.Db>, dbSteps: seq<D.Step>, i: nat, sum: Checksum, codec: BatchCodec, v: D.Version,
                      content: map<nat, seq<Byte>>, logs: seq<nat>, m: nat)
    requires Reached(run, dbSteps, i, v, sum, codec) && Available(run[i], v, content, logs)
    requires LargestLast(AllRecords(sum, codec, logs, content), m)
    ensures var es := AllListed(AllRecords(sum, codec, logs, content));
            Ascending(es) && NewerThanTables(run[i], v, es) && forall e :: e in es ==> 1 <= e.ikey.sequence <= m
  {
    P.RunsKeepInv(run, dbSteps, i);
    O.RunsKeepOrder(run, dbSteps, i);
    UntornIsClean(run[i], v);
    ReplayedNumbers(sum, codec, run[i], v, content, logs, m);
    ReplayedAreNewer(sum, codec, run[i], v, content, logs);
  }

  lemma FitsInRun(run: seq<D.Db>, dbSteps: seq<D.Step>, i: nat, sum: Checksum, codec: BatchCodec, v: D.Version,
                  content: map<nat, seq<Byte>>, logs: seq<nat>,
                  p: Progress, last: nat, log: nat, st: Store, es: seq<Entry>)
    requires Reached(run, dbSteps, i, v, sum, codec) && StoreOf(run[i], v, st)
    requires Finished(sum, codec, run[i], v, content, logs, p, last, log) && last < MAX_SEQUENCE
             && es == AllListed(p.records)
    ensures Writable(st.lastSequence, es) && LastAfter(st.lastSequence, es) <= last
  {
    VersionInRun(run, dbSteps, i, v);
    ReplayedInRun(run, dbSteps, i, sum, codec, v, content, logs, p.maxSequence);
    EntriesFit(run[i], v, st, es, p.maxSequence, last);
  }

  /** The step that the durability protocol takes, and the steps that the store on disk takes,
      to a store whose writes are exactly what is left. */
  ghost predicate Reopened(db: D.Db, v: D.Version, st: Store, files: seq<File>, last: nat, step: D.Step,
                           steps: seq<Step>, st': Store) {
    && step.Recover? && step.version == v && D.Next(db, step, D.Opened(db, step))
    && Leads(st, steps, st') && AllReplay(steps)
    && |st.levels| == NUM_LEVELS && st'.levels == PlacedAll(st.levels, files) && st'.lastSequence == last
       && st'.snapshots == []
    && forall e :: e in st'.history <==> D.Contents(D.Opened(db, step), e)
  }

  /** The reopened store is in order, and answers every read from the writes that are left. */
  lemma ReopenedAnswers(db: D.Db, v: D.Version, st: Store, files: seq<File>, last: nat, step: D.Step, steps: seq<Step>,
                        st': Store)
    requires StoreOf(db, v, st) && Reopened(db, v, st, files, last, step, steps, st')
    ensures Inv(st') && ReadsAgree(st')
    ensures forall user, s :: last <= s ==> View(Contents(st'), user, s) == View(Elements(st'.history), user, s)
    ensures forall e :: e in Elements(st'.history) <==> D.Contents(D.Opened(db, step), e)
  {
    LeadsKeepReads(st, steps, st');
  }

  /** A store in a run, without its memtables, is the store of a version with the same writes. */
  lemma DiskIsStoreOf(db: D.Db, v: D.Version, st: Store)
    requires Inv(st) && DiskInv(st) && st.nextFile <= v.nextFile + 1
    requires forall e :: e in Flushed(st) <==> D.InTables(db.tables, v.tables, e)
    ensures StoreOf(db, v, Disk(st))
  {
    DiskIsStore(st);
  }

  /** A state of a run of the durability protocol over real log bytes, and a version that a
      crash may leave in the manifest. Logs with failed appends must read only what was appended. */
  ghost predicate Reached(run: seq<D.Db>, dbSteps: seq<D.Step>, i: nat, v: D.Version, sum: Checksum,
                          codec: BatchCodec) {
    && P.IsRun(run, dbSteps) && i < |run| && D.Candidate(run[i], v) && run[i].env == LogEnv(sum, codec)
    && forall n :: n in run[i].logs && v.logNumber <= n && run[i].logs[n].Torn() ==> run[i].logs[n].Faithful(run[i].env)
  }

  /** Crash and recovery, seen as operation of the store: the version on disk goes on by
      replayed writes, switches and flushes only. */
  lemma OpeningInRun(run: seq<D.Db>, dbSteps: seq<D.Step>, i: nat, sum: Checksum, codec: BatchCodec, v: D.Version,
                     content: map<nat, seq<Byte>>, logs: seq<nat>,
                     p: Progress, last: nat, log: nat, st: Store, step: D.Step)
      returns (steps: seq<Step>, st': Store)
    requires Reached(run, dbSteps, i, v, sum, codec) && StoreOf(run[i], v, st)
    requires Finished(sum, codec, run[i], v, content, logs, p, last, log) && last < MAX_SEQUENCE
    requires EndsIn(v, p, last, log, step) && D.Next(run[i], step, D.Opened(run[i], step))
    ensures Reopened(run[i], v, st, p.files, last, step, steps, st')
  {
    var es := AllListed(p.records);
    FitsInRun(run, dbSteps, i, sum, codec, v, content, logs, p, last, log, st, es);
    st' := ReopenedStore(st, p.files, es, last, log);
    steps := RecoveryLeads(st, p, last, log, es);
    FilesInRun(run, dbSteps, i);
    OpenedHistory(run[i], step, st, st', p.records);
  }

  lemma FilesInRun(run: seq<D.Db>, dbSteps: seq<D.Step>, i: nat)
    requires P.IsRun(run, dbSteps) && i < |run|
    ensures D.FilesOk(run[i])
  {
    P.RunsKeepInv(run, dbSteps, i);
  }

  /** DB::Open after a crash at any point of any run. */
  method Reopen(sum: Checksum, codec: BatchCodec, full: seq<Entry> -> bool, sizeOf: seq<Entry> -> nat,
                v: D.Version, listing: seq<FileName>, content: map<nat, seq<Byte>>,
                ghost run: seq<D.Db>, ghost dbSteps: seq<D.Step>, ghost i: nat, ghost st: Store)
      returns (files: seq<File>, last: nat, log: nat, ghost step: D.Step, ghost steps: seq<Step>, ghost st': Store)
    requires Reached(run, dbSteps, i, v, sum, codec) && Leaves(run[i], listing, content) && StoreOf(run[i], v, st)
    ensures last < MAX_SEQUENCE ==> Reopened(run[i], v, st, files, last, step, steps, st')
  {
    FilesInRun(run, dbSteps, i);
    var ok;
    ghost var logs, p;
    ok, files, last, log, logs, p, step := Open(sum, codec, full, sizeOf, v, listing, content, run[i]);
    steps, st' := [], st;
    if last < MAX_SEQUENCE {
      steps, st' := OpeningInRun(run, dbSteps, i, sum, codec, v, content, logs, p, last, log, st, step);
    }
  }

  lemma OpenedHistory(db: D.Db, step: D.Step, st: Store, st': Store, records: seq<D.Record>)
    requires D.FilesOk(db) && step.Recover? && D.Next(db, step, D.Opened(db, step)) && StoreOf(db, step.version, st)
    requires SameRecords(step.kept, records) && st'.history == st.history + AllListed(records)
    ensures forall e :: e in st'.history <==> D.Contents(D.Opened(db, step), e)
  {
    forall e
      ensures e in st'.history <==> D.Contents(D.Opened(db, step), e)
    {
      HistoryIsContents(db, step, D.Opened(db, step), st, records, e);
    }
  }

  /** Placing the files one by one is the one edit that LogAndApply saves. */
  lemma {:induction false} PlacedAllIsOneEdit(levels: seq<seq<File>>, files: seq<File>)
    requires |levels| == NUM_LEVELS
    ensures PlacedAll(levels, files) == levels[0 := VersionEdits.Edited(levels[0], {}, files)]
    decreases |files|
  {
    if files == [] {
      WithoutNone(levels[0]);
    } else {
      var n := |files| - 1;
      PlacedAllIsOneEdit(levels, files[..n]);
      PlacedOnTop(levels, files[..n], files[n], files);
    }
  }

  lemma PlacedOnTop(levels: seq<seq<File>>, files: seq<File>, f: File, all: seq<File>)
    requires |levels| == NUM_LEVELS && all == files + [f]
             && PlacedAll(levels, files) == levels[0 := VersionEdits.Edited(levels[0], {}, files)]
    ensures PlacedAll(levels, all) == levels[0 := VersionEdits.Edited(levels[0], {}, all)]
  {
    OneMoreEdit(levels[0], files, f);
    assert all[..|all| - 1] == files;
  }

  lemma OneMoreEdit(base: seq<File>, files: seq<File>, f: File)
    ensures VersionEdits.Edited(VersionEdits.Edited(base, {}, files), {}, [f]) == VersionEdits.Edited(base, {},
            files + [f])
  {
    var edited := VersionEdits.Edited(base, {}, files);
    WithoutNone(edited);
    assert (files + [f])[..|files|] == files && [f][..0] == [];
    assert VersionEdits.InsertFiles(edited, [f]) == VersionEdits.InsertFile(VersionEdits.InsertFiles(edited, []), f);
  }

  lemma {:induction false} WithoutNone(files: seq<File>)
    ensures VersionEdits.Without(files, {}) == files
    decreases |files|
  {
    if files != [] {
      var n := |files| - 1;
      WithoutNone(files[..n]);
      assert files[..n] + [files[n]] == files;
    }
  }
}
