/** DBImpl::Recover and RecoverLogFile of db/db_impl.cc, over the log files' bytes. */
module Recovery {
  import opened Wrappers
  import opened InternalKeys
  import opened TableFiles
  import opened CompactionWork
  import opened LogFormat
  import LogReader
  import opened LogPrefixes
  import opened LogMedium
  import opened Durability
  import Store

  // ---- What a log's records put into memtables ----

  function Listed(r: Record): (es: seq<Entry>)
    ensures |es| == |r.ops| && forall i :: 0 <= i < |es| ==> es[i] == r.At(i)
  {
    seq(|r.ops|, i requires 0 <= i < |r.ops| => r.At(i))
  }

  lemma ListedHolds(r: Record, e: Entry)
    ensures e in Listed(r) <==> r.Holds(e)
  {
    if r.Holds(e) {
      assert Listed(r)[e.ikey.sequence - r.sequence] == e;
    }
  }

  /** Every entry of the records, in the order of the log. */
  function AllListed(records: seq<Record>): seq<Entry> {
    if records == [] then [] else AllListed(records[..|records| - 1]) + Listed(records[|records| - 1])
  }

  ghost predicate HeldBy(records: seq<Record>, e: Entry) {
    exists r :: r in records && r.Holds(e)
  }

  lemma {:induction false} AllListedHolds(records: seq<Record>, e: Entry)
    ensures e in AllListed(records) <==> HeldBy(records, e)
  {
    if records != [] {
      var n := |records| - 1;
      AllListedHolds(records[..n], e);
      ListedHolds(records[n], e);
      assert records == records[..n] + [records[n]];
      if r :| r in records && r.Holds(e) {
        assert r in records[..n] || r == records[n];
      }
    }
  }

  lemma AllListedOne(records: seq<Record>, r: Record)
    ensures AllListed(records + [r]) == AllListed(records) + Listed(r)
  {
    assert (records + [r])[..|records|] == records;
  }

  /** The largest last number among the records, or 0. */
  ghost predicate LargestLast(records: seq<Record>, m: nat) {
    && (forall r :: r in records ==> r.sequence + |r.ops| - 1 <= m)
    && (m == 0 || exists r :: r in records && r.sequence + |r.ops| - 1 == m)
  }

  lemma LargestLastOne(records: seq<Record>, r: Record, m: nat, m': nat)
    requires LargestLast(records, m)
    requires var last := r.sequence + |r.ops| - 1; if last > m then m' == last else m' == m
    ensures LargestLast(records + [r], m')
  {
    var more := records + [r];
    assert more[|records|] == r;
    assert forall x :: x in more ==> x in records || x == r;
    assert forall x :: x in records ==> x in more;
  }

  predicate NumbersAscend(files: seq<File>) {
    forall i, j :: 0 <= i < j < |files| ==> files[i].number < files[j].number
  }

  ghost predicate NumberedFrom(files: seq<File>, first: nat, next: nat) {
    NumbersAscend(files) && first <= next && forall f :: f in files ==> first <= f.number < next
  }

  /** The new files as tables of the durability protocol. */
  ghost function TablesOf(files: seq<File>): (made: map<nat, set<Entry>>)
    requires NumbersAscend(files)
    ensures forall n :: n in made <==> exists f :: f in files && f.number == n
    ensures forall f :: f in files ==> f.number in made && made[f.number] == Elements(f.entries)
  {
    map f | f in files :: f.number := Elements(f.entries)
  }

  /** The files hold consecutive parts of a list of entries, each part sorted into a table. */
  ghost predicate SplitInto(es: seq<Entry>, parts: seq<seq<Entry>>, files: seq<File>) {
    && |parts| == |files| && Flatten(parts) == es
    && forall i :: 0 <= i < |files| ==> FileOf(parts[i], files[i])
  }

  /** The table of a memtable into which the entries were inserted in this order. */
  ghost predicate FileOf(part: seq<Entry>, f: File) {
    part != [] && f == Store.TableFile(f.number, f.size, MemtableOf(part))
  }

  function MemtableOf(es: seq<Entry>): (t: seq<Entry>)
    ensures Elements(t) == Elements(es) && |t| == |es|
  {
    if es == [] then [] else
      var rest := MemtableOf(es[..|es| - 1]);
      InsertedElements(rest, es[|es| - 1]);
      LastElement(es);
      Store.InsertEntry(rest, es[|es| - 1])
  }

  lemma LastElement(es: seq<Entry>)
    requires es != []
    ensures Elements(es) == Elements(es[..|es| - 1]) + {es[|es| - 1]}
  {
    assert es == es[..|es| - 1] + [es[|es| - 1]];
  }

  lemma InsertedElements(t: seq<Entry>, e: Entry)
    ensures Elements(Store.InsertEntry(t, e)) == Elements(t) + {e} && |Store.InsertEntry(t, e)| == |t| + 1
  {
    var i := SeekIndex(t, e.ikey);
    assert t == t[..i] + t[i..];
  }

  lemma MemtableOfOne(es: seq<Entry>, e: Entry)
    ensures MemtableOf(es + [e]) == Store.InsertEntry(MemtableOf(es), e)
  {
    assert (es + [e])[..|es|] == es;
  }

  lemma SplitMore(es: seq<Entry>, parts: seq<seq<Entry>>, files: seq<File>, part: seq<Entry>, f: File)
    requires SplitInto(es, parts, files) && FileOf(part, f)
    ensures SplitInto(es + part, parts + [part], files + [f])
  {
    assert (parts + [part])[..|parts|] == parts;
  }

  lemma NumberedMore(files: seq<File>, first: nat, f: File)
    requires NumberedFrom(files, first, f.number)
    ensures NumberedFrom(files + [f], first, f.number + 1)
  {
  }

  /** How far a recovery has got: its next file number, the files it has made, the largest
      sequence number, the records it has read, and how their entries were split into files. */
  datatype Progress = Progress(
    first: nat, nextFile: nat, files: seq<File>, maxSequence: nat, records: seq<Record>, parts: seq<seq<Entry>>)
  {
    /** The files hold the records' entries, but for those in the memtable. */
    ghost predicate Holding(es: seq<Entry>) {
      && NumberedFrom(files, first, nextFile) && SplitInto(Flatten(parts), parts, files)
      && Flatten(parts) + es == AllListed(records)
      && LargestLast(records, maxSequence)
    }
  }

  lemma FileIsWritten(p: Progress, es: seq<Entry>, f: File, p': Progress)
    requires p.Holding(es) && FileOf(es, f) && f.number == p.nextFile
    requires p' == p.(nextFile := p.nextFile + 1, files := p.files + [f], parts := p.parts + [es])
    ensures p'.Holding([])
  {
    SplitMore(Flatten(p.parts), p.parts, p.files, es, f);
    NumberedMore(p.files, p.first, f);
    assert Flatten(p'.parts) + [] == Flatten(p.parts) + es;
  }

  lemma RecordIsRead(p: Progress, es: seq<Entry>, r: Record, m: nat, p': Progress)
    requires p.Holding(es) && p' == p.(records := p.records + [r], maxSequence := m)
    requires var last := r.sequence + |r.ops| - 1; if last > p.maxSequence then m == last else m == p.maxSequence
    ensures p'.Holding(es + Listed(r))
  {
    AllListedOne(p.records, r);
    LargestLastOne(p.records, r, p.maxSequence, m);
    Together(Flatten(p.parts), es, Listed(r));
  }

  lemma Together(a: seq<Entry>, b: seq<Entry>, c: seq<Entry>)
    ensures a + (b + c) == a + b + c
  {
  }

  // ---- Replaying logs ----

  /** DBImpl during recovery: next_file_number_, the files added to the version edit, and
      *max_sequence. */
  class Replay {
    const sum: Checksum
    const codec: BatchCodec
    /** Whether a memtable is over write_buffer_size, and how large its table file gets. */
    const full: seq<Entry> -> bool
    const sizeOf: seq<Entry> -> nat
    ghost const first: nat
    var nextFile: nat
    var files: seq<File>
    var maxSequence: nat
    ghost var records: seq<Record>
    ghost var parts: seq<seq<Entry>>

    ghost function State(): Progress
      reads this
    {
      Progress(first, nextFile, files, maxSequence, records, parts)
    }

    /** VersionSet::Recover has read a version. */
    constructor (sum: Checksum, codec: BatchCodec, full: seq<Entry> -> bool, sizeOf: seq<Entry> -> nat, v: Version)
      ensures State().Holding([]) && State() == Progress(v.nextFile + 1, v.nextFile + 1, [], 0, [], [])
      ensures this.sum == sum && this.codec == codec && this.full == full && this.sizeOf == sizeOf
    {
      this.sum, this.codec, this.full, this.sizeOf := sum, codec, full, sizeOf;
      first, nextFile, files, maxSequence, records, parts := v.nextFile + 1, v.nextFile + 1, [], 0, [], [];
    }

    /** WriteLevel0Table without a base version: a number is taken, and a file added to level 0
        unless it would be empty. */
    method WriteLevel0Table(mem: seq<Entry>, ghost es: seq<Entry>)
      requires State().Holding(es) && mem == MemtableOf(es)
      modifies this`nextFile, this`files, this`parts
      ensures State().Holding([]) && nextFile == old(nextFile) + 1
      ensures mem == [] ==> files == old(files)
      ensures mem != [] ==> files == old(files) + [Store.TableFile(old(nextFile), sizeOf(mem), mem)]
    {
      var number := nextFile;
      nextFile := nextFile + 1;
      if mem != [] {
        var f := Store.TableFile(number, sizeOf(mem), mem);
        files, parts := files + [f], parts + [es];
        FileIsWritten(old(State()), es, f, State());
      }
    }

    /** WriteBatchInternal::InsertInto, and the update of *max_sequence. */
    method InsertInto(r: Record, mem: seq<Entry>, ghost es: seq<Entry>) returns (mem': seq<Entry>)
      requires State().Holding(es) && mem == MemtableOf(es)
      modifies this`maxSequence, this`records
      ensures records == old(records) + [r]
      ensures State().Holding(es + Listed(r)) && mem' == MemtableOf(es + Listed(r))
    {
      mem' := InsertOps(r, mem, es);
      var last := r.sequence + |r.ops| - 1;
      if last > maxSequence {
        maxSequence := last;
      }
      records := records + [r];
      RecordIsRead(old(State()), es, r, maxSequence, State());
    }

    /** A memtable that is full becomes a table. */
    method SpillIfFull(m: seq<Entry>, ghost es: seq<Entry>) returns (mem: Option<seq<Entry>>, ghost es': seq<Entry>)
      requires State().Holding(es) && m == MemtableOf(es)
      modifies this`nextFile, this`files, this`parts
      ensures State().Holding(es') && MemHolds(mem, es') && nextFile >= old(nextFile)
    {
      mem, es' := Some(m), es;
      if full(m) {
        WriteLevel0Table(m, es);
        mem, es' := None, [];
      }
    }

    /** One turn of RecoverLogFile's loop: a batch goes into the memtable, which is made if
        there is none. */
    method ReplayBatch(r: Record, mem: Option<seq<Entry>>, ghost es: seq<Entry>)
        returns (mem': Option<seq<Entry>>, ghost es': seq<Entry>)
      requires State().Holding(es) && MemHolds(mem, es)
      modifies this
      ensures State().Holding(es') && MemHolds(mem', es')
      ensures records == old(records) + [r] && nextFile >= old(nextFile)
    {
      var m := InsertInto(r, if mem.Some? then mem.value else [], es);
      mem', es' := SpillIfFull(m, es + Listed(r));
    }

    method NewFileNumber() returns (number: nat)
      requires State().Holding([])
      modifies this`nextFile
      ensures State().Holding([]) && number == old(nextFile) && nextFile == number + 1
    {
      number := nextFile;
      nextFile := nextFile + 1;
    }

    method MarkFileNumberUsed(number: nat)
      requires State().Holding([])
      modifies this`nextFile
      ensures State().Holding([]) && number < nextFile && old(nextFile) <= nextFile
    {
      if nextFile <= number {
        nextFile := number + 1;
      }
    }

    /** RecoverLogFile's loop: every batch still to come gets into a table or the memtable. */
    method ReplayRecords(reader: LogReader.Reader, ghost goal: seq<Record>)
        returns (mem: Option<seq<Entry>>, ghost es: seq<Entry>)
      requires reader.Valid() && StillToCome(reader.sum, codec, reader.file, reader.Offset(), records, goal)
      requires State().Holding([])
      modifies this, reader
      ensures State().Holding(es) && MemHolds(mem, es) && nextFile >= old(nextFile)
      ensures records == goal
    {
      mem, es := None, [];
      while true
        invariant reader.Valid()
        invariant State().Holding(es) && MemHolds(mem, es) && nextFile >= old(nextFile)
        invariant StillToCome(reader.sum, codec, reader.file, reader.Offset(), records, goal)
        decreases |reader.file| - reader.Offset()
      {
        var more, batch := NextBatch(reader, codec, records, goal);
        if !more {
          return;
        }
        if batch.Some? {
          mem, es := ReplayBatch(batch.value, mem, es);
        }
      }
    }

    /** Every batch that can be read from the log gets into some table. */
    method RecoverLogFile(file: seq<Byte>, ghost goal: seq<Record>)
      requires State().Holding([]) && StillToCome(sum, codec, file, 0, records, goal)
      modifies this
      ensures State().Holding([]) && nextFile >= old(nextFile)
      ensures records == goal
    {
      var reader := new LogReader.Reader(sum, file);
      var mem;
      ghost var es;
      mem, es := ReplayRecords(reader, goal);
      WriteRest(mem, es);
    }

    method WriteRest(mem: Option<seq<Entry>>, ghost es: seq<Entry>)
      requires State().Holding(es) && MemHolds(mem, es)
      modifies this`nextFile, this`files, this`parts
      ensures State().Holding([]) && nextFile >= old(nextFile)
    {
      if mem.Some? {
        WriteLevel0Table(mem.value, es);
      }
    }

    method RecoverLog(number: nat, file: seq<Byte>, ghost goal: seq<Record>)
      requires State().Holding([]) && goal == records + Understood(codec, Records(sum, file))
      modifies this
      ensures State().Holding([]) && number < nextFile && old(nextFile) <= nextFile
      ensures records == goal
    {
      AllToCome(sum, codec, file, records, goal);
      RecoverLogFile(file, goal);
      MarkFileNumberUsed(number);
    }

    /** Recover's loop over the sorted logs. */
    method RecoverLogs(logs: seq<nat>, content: map<nat, seq<Byte>>)
      requires State().Holding([]) && records == [] && forall n :: n in logs ==> n in content
      modifies this
      ensures State().Holding([]) && nextFile >= old(nextFile)
      ensures forall n :: n in logs ==> n < nextFile
      ensures records == AllRecords(sum, codec, logs, content)
    {
      ghost var soFar := [];
      NoRecords(sum, codec, logs, content);
      for i := 0 to |logs|
        invariant State().Holding([]) && nextFile >= old(nextFile) && records == soFar
        invariant Below(logs, i, nextFile)
        invariant soFar == FirstRecords(sum, codec, logs, content, i)
      {
        ghost var was := nextFile;
        NextRecords(sum, codec, logs, content, i);
        soFar := FirstRecords(sum, codec, logs, content, i + 1);
        RecoverLog(logs[i], content[logs[i]], soFar);
        BelowMore(logs, i, was, nextFile);
      }
    }

    /** DBImpl::Recover: all tables of the version must be there, the logs from its log number
        on are replayed in order, and LastSequence is brought up to date. A file of any kind
        with a table's number makes up for the table. */
    method Recover(v: Version, listing: seq<FileName>, content: map<nat, seq<Byte>>)
        returns (ok: bool, last: nat, logs: seq<nat>)
      requires State().Holding([]) && records == []
      requires Distinct(listing) && forall n: nat :: FileName(LogFile, n) in listing ==> n in content
      modifies this
      ensures ok <==> forall n :: n in v.tables ==> exists f :: f in listing && f.number == n
      ensures ok ==> State().Holding([]) && nextFile >= old(nextFile)
      ensures ok ==> Increasing(logs)
      ensures ok ==> forall n: nat :: n in logs <==> FileName(LogFile, n) in listing && n >= v.logNumber
      ensures ok ==> records == AllRecords(sum, codec, logs, content) && forall n :: n in logs ==> n < nextFile
      ensures ok ==> last == if v.lastSequence < maxSequence then maxSequence else v.lastSequence
    {
      var expected;
      expected, logs := FindLogs(v, listing);
      last := v.lastSequence;
      ok := expected == {};
      assert ok <==> forall n :: n in v.tables ==> n !in expected;
      if !ok {
        return;
      }
      RecoverLogs(logs, content);
      if last < maxSequence {
        last := maxSequence;
      }
    }
  }

  /** What ParseFileName makes of a name in the database directory. */
  datatype FileKind = LogFile | TableFile | DescriptorFile | TempFile | CurrentFile | DBLockFile | InfoLogFile
  datatype FileName = FileName(kind: FileKind, number: nat)

  predicate Distinct(listing: seq<FileName>) {
    forall i, j :: 0 <= i < j < |listing| ==> listing[i] != listing[j]
  }

  predicate Increasing(s: seq<nat>) { forall i, j :: 0 <= i < j < |s| ==> s[i] < s[j] }

  ghost predicate Below(s: seq<nat>, k: nat, bound: nat)
    requires k <= |s|
  {
    forall j :: 0 <= j < k ==> s[j] < bound
  }

  lemma BelowMore(s: seq<nat>, k: nat, a: nat, b: nat)
    requires k < |s| && Below(s, k, a) && a <= b && s[k] < b
    ensures Below(s, k + 1, b)
  {
  }

  function Insert(s: seq<nat>, x: nat): seq<nat> {
    if s == [] || x < s[0] then [x] + s else [s[0]] + Insert(s[1..], x)
  }

  lemma IncreasingCons(x: nat, s: seq<nat>)
    requires Increasing(s) && (s == [] || x < s[0])
    ensures Increasing([x] + s)
  {
  }

  lemma {:induction false} InsertSorts(s: seq<nat>, x: nat)
    requires Increasing(s) && x !in s
    ensures Increasing(Insert(s, x)) && forall n :: n in Insert(s, x) <==> n == x || n in s
  {
    if s != [] && x >= s[0] {
      assert s == [s[0]] + s[1..] && x != s[0];
      InsertSorts(s[1..], x);
      IncreasingCons(s[0], Insert(s[1..], x));
    } else {
      IncreasingCons(x, s);
    }
  }

  /** The tables of the version that no listed file stands for, and its logs in order. */
  method FindLogs(v: Version, listing: seq<FileName>) returns (expected: set<nat>, logs: seq<nat>)
    requires Distinct(listing)
    ensures expected <= v.tables
    ensures forall n: nat :: n in expected <==> n in v.tables && forall f :: f in listing ==> f.number != n
    ensures Increasing(logs) && forall n: nat :: n in logs <==> FileName(LogFile, n) in listing && n >= v.logNumber
  {
    expected, logs := v.tables, [];
    for i := 0 to |listing|
      invariant expected <= v.tables
      invariant forall n: nat :: n in expected <==> n in v.tables && forall f :: f in listing[..i] ==> f.number != n
      invariant Increasing(logs)
      invariant forall n: nat :: n in logs <==> FileName(LogFile, n) in listing[..i] && n >= v.logNumber
    {
      var f := listing[i];
      assert listing[..i + 1] == listing[..i] + [f];
      expected := expected - {f.number};
      if f.kind.LogFile? && f.number >= v.logNumber {
        assert f !in listing[..i];
        InsertSorts(logs, f.number);
        logs := Insert(logs, f.number);
      }
    }
    assert listing[..|listing|] == listing;
  }

  /** Everything that can be read from the logs, one after the other. */
  ghost function AllRecords(sum: Checksum, codec: BatchCodec, logs: seq<nat>, content: map<nat, seq<Byte>>): seq<Record>
    requires forall n :: n in logs ==> n in content
  {
    if logs == [] then []
    else
      var n := |logs| - 1;
      AllRecords(sum, codec, logs[..n], content) + Understood(codec, Records(sum, content[logs[n]]))
  }

  ghost function FirstRecords(sum: Checksum, codec: BatchCodec, logs: seq<nat>, content: map<nat, seq<Byte>>,
                              i: nat): seq<Record>
    requires i <= |logs| && forall n :: n in logs ==> n in content
  {
    AllRecords(sum, codec, logs[..i], content)
  }

  lemma NoRecords(sum: Checksum, codec: BatchCodec, logs: seq<nat>, content: map<nat, seq<Byte>>)
    requires forall n :: n in logs ==> n in content
    ensures FirstRecords(sum, codec, logs, content, 0) == []
    ensures FirstRecords(sum, codec, logs, content, |logs|) == AllRecords(sum, codec, logs, content)
  {
    assert logs[..|logs|] == logs;
  }

  lemma NextRecords(sum: Checksum, codec: BatchCodec, logs: seq<nat>, content: map<nat, seq<Byte>>, i: nat)
    requires i < |logs| && forall n :: n in logs ==> n in content
    ensures FirstRecords(sum, codec, logs, content, i + 1)
         == FirstRecords(sum, codec, logs, content, i) + Understood(codec, Records(sum, content[logs[i]]))
  {
    assert logs[..i + 1][..i] == logs[..i];
  }

  ghost predicate MemHolds(mem: Option<seq<Entry>>, es: seq<Entry>) {
    if mem.Some? then mem.value == MemtableOf(es) else es == []
  }

  /** With what can be read from offset q on, the records are the goal. */
  ghost predicate StillToCome(sum: Checksum, codec: BatchCodec, file: seq<Byte>, q: int, records: seq<Record>,
                              goal: seq<Record>) {
    0 <= q <= |file|
      && goal == records + Understood(codec, LogReader.ReadAll(LogReader.StreamOf(sum, file), |file|, q).0)
  }

  lemma AllToCome(sum: Checksum, codec: BatchCodec, file: seq<Byte>, records: seq<Record>, goal: seq<Record>)
    requires goal == records + Understood(codec, Records(sum, file))
    ensures StillToCome(sum, codec, file, 0, records, goal)
  {
  }

  lemma ReadOne(sum: Checksum, codec: BatchCodec, file: seq<Byte>, q: int, records: seq<Record>, goal: seq<Record>)
    requires StillToCome(sum, codec, file, q, records, goal)
    ensures var r := LogReader.ReadFrom(LogReader.StreamOf(sum, file), |file|, q, false, []);
            match r.record
            case None => goal == records
            case Some(bytes) =>
              match codec.decode(bytes)
              case None => StillToCome(sum, codec, file, r.next, records, goal)
              case Some(batch) => StillToCome(sum, codec, file, r.next, records + [batch], goal)
  {
    var r := LogReader.ReadFrom(LogReader.StreamOf(sum, file), |file|, q, false, []);
    if r.record.Some? {
      var rest := LogReader.ReadAll(LogReader.StreamOf(sum, file), |file|, r.next).0;
      UnderstoodFirst(codec, r.record.value, rest, records);
    }
  }

  lemma UnderstoodFirst(codec: BatchCodec, bytes: seq<Byte>, rest: seq<seq<Byte>>, records: seq<Record>)
    ensures match codec.decode(bytes)
            case None => Understood(codec, [bytes] + rest) == Understood(codec, rest)
            case Some(batch) => records + Understood(codec, [bytes] + rest) == records + [batch] + Understood(codec,
              rest)
  {
    assert ([bytes] + rest)[1..] == rest;
  }

  /** ReadRecord, and WriteBatch's format. */
  method NextBatch(reader: LogReader.Reader, codec: BatchCodec, ghost records: seq<Record>, ghost goal: seq<Record>)
      returns (more: bool, batch: Option<Record>)
    requires reader.Valid() && StillToCome(reader.sum, codec, reader.file, reader.Offset(), records, goal)
    modifies reader
    ensures reader.Valid() && (more ==> old(reader.Offset()) < reader.Offset())
    ensures !more ==> goal == records
    ensures more
            ==> StillToCome(reader.sum, codec, reader.file, reader.Offset(),
            if batch.Some? then records + [batch.value] else records, goal)
  {
    ReadOne(reader.sum, codec, reader.file, reader.Offset(), records, goal);
    var record := reader.ReadRecord();
    more, batch := record.Some?, if record.Some? then codec.decode(record.value) else None;
  }

  method InsertOne(mem: seq<Entry>, e: Entry, ghost es: seq<Entry>, ghost es': seq<Entry>) returns (mem': seq<Entry>)
    requires mem == MemtableOf(es) && es' == es + [e]
    ensures mem' == MemtableOf(es')
  {
    MemtableOfOne(es, e);
    mem' := Store.InsertEntry(mem, e);
  }

  ghost function WithFirst(es: seq<Entry>, r: Record, i: nat): seq<Entry>
    requires i <= |r.ops|
  {
    es + Listed(r)[..i]
  }

  lemma WithNone(es: seq<Entry>, r: Record)
    ensures WithFirst(es, r, 0) == es && WithFirst(es, r, |r.ops|) == es + Listed(r)
  {
    assert Listed(r)[..|r.ops|] == Listed(r);
  }

  lemma WithNext(es: seq<Entry>, r: Record, i: nat)
    requires i < |r.ops|
    ensures WithFirst(es, r, i + 1) == WithFirst(es, r, i) + [r.At(i)]
  {
    assert Listed(r)[..i + 1] == Listed(r)[..i] + [r.At(i)];
  }

  method InsertOps(r: Record, mem: seq<Entry>, ghost es: seq<Entry>) returns (mem': seq<Entry>)
    requires mem == MemtableOf(es)
    ensures mem' == MemtableOf(es + Listed(r))
  {
    ghost var soFar := es;
    WithNone(es, r);
    mem' := mem;
    for i := 0 to |r.ops|
      invariant mem' == MemtableOf(soFar) && soFar == WithFirst(es, r, i)
    {
      ghost var more := WithFirst(es, r, i + 1);
      WithNext(es, r, i);
      mem' := InsertOne(mem', r.At(i), soFar, more);
      soFar := more;
    }
  }
}
