/** The store as a state machine: writes, memtable switches, flushes, trivial moves,
    compactions and snapshots, each one atomic step (db/db_impl.cc, db/version_set.cc). */
module Store {
  import opened Wrappers
  import opened InternalKeys
  import opened TableFiles
  import opened CompactionInputs
  import opened CompactionWork
  import opened VersionEdits
  import opened LsmLevels

  /** kMaxMemCompactLevel. */
  const MAX_MEM_COMPACT_LEVEL := 2

  /** mem_, imm_, the current version's files_, LastSequence, the next file number, the
      snapshot list, and (for the specification) every write in sequence order. */
  datatype Store = Store(
    mem: seq<Entry>,
    imm: Option<seq<Entry>>,
    levels: seq<seq<File>>,
    lastSequence: nat,
    nextFile: nat,
    snapshots: seq<nat>,
    history: seq<Entry>)

  datatype Step =
    | Write(user: UserKey, kind: Kind, value: string)
    | SwitchMemtable
    | Flush(target: nat, size: nat)
    | Move(level: nat, file: File)
    | Compact(level: nat, in0: seq<File>, in1: seq<File>, input: seq<Entry>, outs: seq<File>)
    | TakeSnapshot
    | ReleaseSnapshot(index: nat)
    | UseUp(sequences: nat, files: nat)

  ghost function ImmEntries(st: Store): set<Entry> {
    match st.imm case None => {} case Some(t) => Elements(t)
  }

  /** Everything the store holds. */
  ghost function Contents(st: Store): set<Entry> {
    Elements(st.mem) + ImmEntries(st) + Tables(st.levels)
  }

  /** compact->smallest_snapshot: reads happen at this sequence number or later. */
  function SmallestSnapshot(st: Store): nat {
    if st.snapshots == [] then st.lastSequence else st.snapshots[0]
  }

  /** The skip list keeps a memtable sorted. */
  function InsertEntry(t: seq<Entry>, e: Entry): seq<Entry> {
    var i := SeekIndex(t, e.ikey);
    t[..i] + [e] + t[i..]
  }

  function TableFile(number: nat, size: nat, t: seq<Entry>): File
    requires t != []
  {
    File(number, size, t[0].ikey, t[|t| - 1].ikey, t)
  }

  ghost predicate Initial(st: Store) {
    st == Store([], None, seq(NUM_LEVELS, _ => []), 0, 2, [], [])
  }

  /** What PickLevelForMemTableOutput guarantees of the level it picks. */
  ghost predicate FlushLevelOk(levels: seq<seq<File>>, target: nat, r: Range)
    requires |levels| == NUM_LEVELS
  {
    && target <= MAX_MEM_COMPACT_LEVEL
    && (target > 0 ==> forall l, f :: 0 <= l <= target && f in levels[l] ==> !Overlaps(f, r))
  }

  function Chunks(outs: seq<File>): (chunks: seq<seq<Entry>>)
    ensures |chunks| == |outs| && forall i :: 0 <= i < |outs| ==> chunks[i] == outs[i].entries
  {
    seq(|outs|, i requires 0 <= i < |outs| => outs[i].entries)
  }

  /** The files a compaction writes: fresh numbers, the survivors cut into runs. */
  ghost predicate CompactionOutputs(st: Store, level: nat, input: seq<Entry>, outs: seq<File>) {
    && Flatten(Chunks(outs)) == Survivors(st.levels, level, input, SmallestSnapshot(st), input)
    && forall i :: 0 <= i < |outs| ==>
         outs[i].entries != [] && outs[i] == TableFile(st.nextFile + i, outs[i].size, outs[i].entries)
  }

  ghost predicate CompactOk(st: Store, level: nat, in0: seq<File>, in1: seq<File>, input: seq<Entry>, outs: seq<File>) {
    && level + 1 < |st.levels|
    && Picked(st.levels, level, in0, in1)
    && Sorted(input) && Elements(input) == FileEntries(in0 + in1)
    && CompactionOutputs(st, level, input, outs)
  }

  ghost predicate Next(st: Store, step: Step, st': Store) {
    match step
    case Write(user, kind, value) =>
      var e := Entry(InternalKey(user, st.lastSequence + 1, kind), value);
      && st.lastSequence + 1 < MAX_SEQUENCE
      && st' == st.(mem := InsertEntry(st.mem, e), lastSequence := st.lastSequence + 1, history := st.history + [e])
    case SwitchMemtable =>
      && st.imm == None
      && st' == st.(mem := [], imm := Some(st.mem))
    case Flush(target, size) =>
      && st.imm.Some?
      && |st.levels| == NUM_LEVELS
      && var t := st.imm.value;
         if t == [] then st' == st.(imm := None)
         else
           var f := TableFile(st.nextFile, size, t);
           && FlushLevelOk(st.levels, target, Span(f))
           && st' == st.(imm := None, nextFile := st.nextFile + 1, levels := Placed(st.levels, target, f))
    case Move(level, f) =>
      && level + 1 < |st.levels|
      && Picked(st.levels, level, [f], [])
      && st' == st.(levels := Install(st.levels, level, [f], [], [f]))
    case Compact(level, in0, in1, input, outs) =>
      && CompactOk(st, level, in0, in1, input, outs)
      && st' == st.(levels := Install(st.levels, level, in0, in1, outs), nextFile := st.nextFile + |outs|)
    case TakeSnapshot =>
      st' == st.(snapshots := st.snapshots + [st.lastSequence])
    case ReleaseSnapshot(i) =>
      && i < |st.snapshots|
      && st' == st.(snapshots := st.snapshots[..i] + st.snapshots[i + 1..])
    case UseUp(sequences, files) =>   // failed writes, and files that are no tables
      && st.lastSequence + sequences < MAX_SEQUENCE
      && st' == st.(lastSequence := st.lastSequence + sequences, nextFile := st.nextFile + files)
  }

  // ---- The invariant ----

  ghost predicate AllNewer(a: set<Entry>, b: set<Entry>) {
    forall x, y :: x in a && y in b ==> x.ikey.sequence > y.ikey.sequence
  }

  ghost predicate HistoryOk(st: Store) {
    && st.lastSequence < MAX_SEQUENCE
    && (forall i :: 0 <= i < |st.history| ==> 1 <= st.history[i].ikey.sequence <= st.lastSequence)
    && (forall i, j :: 0 <= i < j < |st.history| ==> st.history[i].ikey.sequence < st.history[j].ikey.sequence)
  }

  ghost predicate SnapshotsOk(st: Store) {
    forall i, j :: 0 <= i <= j < |st.snapshots| ==> st.snapshots[i] <= st.snapshots[j] <= st.lastSequence
  }

  ghost predicate MemtablesOk(st: Store) {
    && Sorted(st.mem)
    && (st.imm.Some? ==> Sorted(st.imm.value))
    && AllNewer(Elements(st.mem), ImmEntries(st))
    && AllNewer(Elements(st.mem), Tables(st.levels))
    && AllNewer(ImmEntries(st), Tables(st.levels))
  }

  ghost predicate FileNumbersOk(st: Store) {
    forall l, f :: 0 <= l < |st.levels| && f in st.levels[l] ==> f.number < st.nextFile
  }

  ghost predicate Inv(st: Store) {
    && GoodLevels(st.levels)
    && FileNumbersOk(st)
    && MemtablesOk(st)
    && HistoryOk(st)
    && SnapshotsOk(st)
    && Contents(st) <= Elements(st.history)
  }

  lemma HistoryIsUnique(st: Store)
    requires HistoryOk(st)
    ensures Unique(Elements(st.history))
  {
  }

  lemma EmptyLevelsHoldNothing(levels: seq<seq<File>>)
    requires forall l :: 0 <= l < |levels| ==> levels[l] == []
    ensures Tables(levels) == {} && LevelsByAge(levels) && NumbersUnique(levels)
  {
    assert forall l :: 0 <= l < |levels| ==> FileEntries(levels[l]) == {};
  }

  lemma EmptyLevelsAreGood(levels: seq<seq<File>>)
    requires |levels| == NUM_LEVELS && forall l :: 0 <= l < NUM_LEVELS ==> levels[l] == []
    ensures GoodLevels(levels)
  {
    EmptyLevelsHoldNothing(levels);
    forall l | 0 <= l < NUM_LEVELS
      ensures ValidFiles(levels[l]) && Disjoint(levels[l]) && InOrder(levels[l])
    {
      assert levels[l] == [];
    }
    assert levels[0] == [];
  }

  lemma InitialInv(st: Store)
    requires Initial(st)
    ensures Inv(st)
  {
    EmptyLevelsAreGood(st.levels);
    EmptyLevelsHoldNothing(st.levels);
  }

  lemma InsertKeepsSorted(t: seq<Entry>, e: Entry)
    requires Sorted(t) && forall x :: x in t ==> x.ikey.sequence < e.ikey.sequence
    ensures Sorted(InsertEntry(t, e))
    ensures Elements(InsertEntry(t, e)) == Elements(t) + {e}
  {
    var i := SeekIndex(t, e.ikey);
    var a, b := t[..i], t[i..];
    assert t == a + b;
    SortedConcat(a, b);
    NewestPrecedes(b, e);
    SortedAround(a, e, b);
  }

  lemma SortedAround(a: seq<Entry>, e: Entry, b: seq<Entry>)
    requires Sorted(a) && Sorted(b) && Precedes(a, b) && Precedes([e], b)
    requires forall i :: 0 <= i < |a| ==> a[i].ikey.Less(e.ikey)
    ensures Sorted(a + [e] + b)
  {
    SortedConcat(a, [e]);
    SortedConcat(a + [e], b);
  }

  lemma NewestPrecedes(b: seq<Entry>, e: Entry)
    requires Sorted(b) && forall x :: x in b ==> x.ikey.sequence < e.ikey.sequence
    requires b != [] ==> !b[0].ikey.Less(e.ikey)
    ensures Precedes([e], b)
  {
    forall k | 0 <= k < |b|
      ensures e.ikey.Less(b[k].ikey)
    {
      assert b[0] in b && b[k] in b;
      assert 0 < k ==> b[0].ikey.Less(b[k].ikey);
    }
  }

  lemma WriteKeepsInv(st: Store, step: Step, st': Store)
    requires Inv(st) && step.Write? && Next(st, step, st')
    ensures Inv(st')
    ensures Contents(st') == Contents(st) + {st'.history[|st.history|]}
  {
    var e := st'.history[|st.history|];
    ContentsAreOlder(st);
    WriteKeepsMemtables(st, e, st');
    WriteKeepsHistory(st, e, st');
  }

  lemma WriteKeepsHistory(st: Store, e: Entry, st': Store)
    requires HistoryOk(st) && SnapshotsOk(st)
             && e.ikey.sequence == st.lastSequence + 1 == st'.lastSequence < MAX_SEQUENCE
    requires st'.history == st.history + [e] && st'.snapshots == st.snapshots
    ensures HistoryOk(st') && SnapshotsOk(st') && Elements(st'.history) == Elements(st.history) + {e}
  {
  }

  lemma WriteKeepsMemtables(st: Store, e: Entry, st': Store)
    requires MemtablesOk(st) && forall x :: x in Contents(st) ==> x.ikey.sequence < e.ikey.sequence
    requires st'.mem == InsertEntry(st.mem, e) && st'.imm == st.imm && st'.levels == st.levels
    ensures MemtablesOk(st') && Contents(st') == Contents(st) + {e}
  {
    assert forall x :: x in st.mem ==> x in Contents(st);
    InsertKeepsSorted(st.mem, e);
  }

  lemma ContentsAreOlder(st: Store)
    requires HistoryOk(st) && Contents(st) <= Elements(st.history)
    ensures forall x :: x in Contents(st) ==> x.ikey.sequence <= st.lastSequence
  {
    forall x | x in Contents(st)
      ensures x.ikey.sequence <= st.lastSequence
    {
      var i :| 0 <= i < |st.history| && st.history[i] == x;
    }
  }

  lemma SwitchKeepsInv(st: Store, step: Step, st': Store)
    requires Inv(st) && step.SwitchMemtable? && Next(st, step, st')
    ensures Inv(st')
    ensures Contents(st') == Contents(st)
  {
  }

  // ---- Flush ----

  /** The levels after adding one file. */
  function Placed(levels: seq<seq<File>>, target: nat, f: File): seq<seq<File>>
    requires target < |levels|
  {
    levels[target := Edited(levels[target], {}, [f])]
  }

  lemma PlacedEntries(levels: seq<seq<File>>, target: nat, f: File, l: nat)
    requires target < |levels| && l < |levels|
    ensures FileEntries(Placed(levels, target, f)[l])
         == FileEntries(levels[l]) + if l == target then Elements(f.entries) else {}
  {
    var after := Placed(levels, target, f)[l];
    if l == target {
      assert f in after;
      assert forall g :: g in after <==> g in levels[l] || g == f;
    }
  }

  lemma PlacedTables(levels: seq<seq<File>>, target: nat, f: File)
    requires target < |levels|
    ensures Tables(Placed(levels, target, f)) == Tables(levels) + Elements(f.entries)
  {
    var after := Placed(levels, target, f);
    forall e
      ensures e in Tables(after) <==> e in Tables(levels) || e in Elements(f.entries)
    {
      PlacedEntries(levels, target, f, target);
      if e in Tables(levels) {
        var l :| 0 <= l < |levels| && e in FileEntries(levels[l]);
        PlacedEntries(levels, target, f, l);
        assert e in FileEntries(after[l]);
      }
      if e in Elements(f.entries) {
        assert e in FileEntries(after[target]);
      }
      if e in Tables(after) {
        var l :| 0 <= l < |after| && e in FileEntries(after[l]);
        PlacedEntries(levels, target, f, l);
      }
    }
  }

  /** The key ranges of two files do not interleave. */
  ghost predicate Apart(g: File, f: File) { g.largest.Less(f.smallest) || f.largest.Less(g.smallest) }

  ghost predicate ShareNoKey(fs: seq<File>, f: File) {
    forall g, x, y :: g in fs && x in g.entries && y in f.entries ==> x.ikey.user != y.ikey.user
  }

  /** What a new file needs of the level it lands on: files above share no user key with it,
      and files beside it keep clear of it. */
  ghost predicate Fits(levels: seq<seq<File>>, target: nat, f: File)
    requires target < |levels|
  {
    target > 0 ==>
      && (forall l :: 0 <= l < target ==> ShareNoKey(levels[l], f))
      && (forall g :: g in levels[target] ==> Apart(g, f))
  }

  lemma LevelOkFits(levels: seq<seq<File>>, target: nat, f: File)
    requires ValidLevels(levels) && ValidFile(f) && FlushLevelOk(levels, target, Span(f))
    ensures Fits(levels, target, f)
  {
    if target > 0 {
      forall l | 0 <= l < target
        ensures ShareNoKey(levels[l], f)
      {
        NotOverlappingShareNoKey(levels[l], f);
      }
      forall g | g in levels[target]
        ensures Apart(g, f)
      {
        assert !Overlaps(g, Span(f));
      }
    }
  }

  lemma NotOverlappingShareNoKey(fs: seq<File>, f: File)
    requires ValidFiles(fs) && ValidFile(f) && forall g :: g in fs ==> !Overlaps(g, Span(f))
    ensures ShareNoKey(fs, f)
  {
    forall g, x, y | g in fs && x in g.entries && y in f.entries
      ensures x.ikey.user != y.ikey.user
    {
      NoSharedKey(f, g, y, x);
    }
  }

  /** A flush may only land where nothing above it shares a user key. */
  lemma FlushKeepsAge(levels: seq<seq<File>>, target: nat, f: File)
    requires GoodLevels(levels) && ValidFile(f)
    requires target < NUM_LEVELS && Fits(levels, target, f) && AllNewer(Elements(f.entries), Tables(levels))
    ensures LevelsByAge(Placed(levels, target, f))
  {
    var after := Placed(levels, target, f);
    forall l, m | 0 <= l < m < |after|
      ensures Newer(FileEntries(after[l]), FileEntries(after[m]))
    {
      PlacedEntries(levels, target, f, l);
      PlacedEntries(levels, target, f, m);
      assert Newer(FileEntries(levels[l]), FileEntries(levels[m]));
      if m == target {
        NoSharedKeyIsNewer(levels[l], f);
      } else if l == target {
        LevelInTables(levels, m);
        AllNewerIsNewer(Elements(f.entries), Tables(levels), FileEntries(levels[m]));
      }
      NewerUnion(FileEntries(levels[l]), FileEntries(levels[m]), Elements(f.entries));
    }
  }

  lemma LevelInTables(levels: seq<seq<File>>, l: nat)
    requires l < |levels|
    ensures FileEntries(levels[l]) <= Tables(levels)
  {
  }

  lemma AllNewerIsNewer(a: set<Entry>, b: set<Entry>, part: set<Entry>)
    requires AllNewer(a, b) && part <= b
    ensures Newer(a, part)
  {
  }

  lemma NewerUnion(a: set<Entry>, b: set<Entry>, c: set<Entry>)
    requires Newer(a, b)
    ensures Newer(a, c) ==> Newer(a, b + c)
    ensures Newer(c, b) ==> Newer(a + c, b)
  {
  }

  lemma NoSharedKeyIsNewer(fs: seq<File>, f: File)
    requires ShareNoKey(fs, f)
    ensures Newer(FileEntries(fs), Elements(f.entries))
  {
    forall x, y | x in FileEntries(fs) && y in f.entries
      ensures x.ikey.user != y.ikey.user
    {
      var g :| g in fs && x in g.entries;
    }
  }

  lemma NoSharedKey(f: File, g: File, x: Entry, y: Entry)
    requires ValidFile(f) && ValidFile(g) && !Overlaps(g, Span(f))
    requires x in f.entries && y in g.entries
    ensures x.ikey.user != y.ikey.user
  {
    FileBounds(f, x);
    FileBounds(g, y);
  }

  lemma FlushKeepsDisjoint(fs: seq<File>, sorted: bool, f: File)
    requires ValidFiles(fs) && ValidFile(f) && InOrder(fs)
    requires forall g :: g in fs ==> g.number < f.number
    requires sorted ==> Disjoint(fs) && forall g :: g in fs ==> Apart(g, f)
    ensures ValidFiles(Edited(fs, {}, [f])) && InOrder(Edited(fs, {}, [f]))
    ensures sorted ==> Disjoint(Edited(fs, {}, [f]))
  {
    var after := Edited(fs, {}, [f]);
    assert forall g :: g in after <==> g in fs || g == f;
    EditedInOrder(fs, {}, [f]);
    if sorted {
      forall g, h: File | g in after && h in after && g != h
        ensures g.largest.Less(h.smallest) || h.largest.Less(g.smallest)
      {
        FlushedFileStaysApart(fs, f, g, h);
      }
      ApartAndOrderedIsDisjoint(after);
    }
  }

  lemma FlushedFileStaysApart(fs: seq<File>, f: File, g: File, h: File)
    requires ValidFiles(fs) && Disjoint(fs) && forall g :: g in fs ==> Apart(g, f)
    requires (g in fs || g == f) && (h in fs || h == f) && g != h
    ensures g.largest.Less(h.smallest) || h.largest.Less(g.smallest)
  {
    if g in fs && h in fs {
      NeighboursAreOrdered(fs, g, h);
    }
  }

  lemma FlushKeepsFilesByAge(levels: seq<seq<File>>, f: File)
    requires GoodLevels(levels)
    requires AllNewer(Elements(f.entries), Tables(levels))
    requires forall g :: g in levels[0] ==> g.number < f.number
    ensures FilesByAge(Edited(levels[0], {}, [f]))
  {
    var after := Edited(levels[0], {}, [f]);
    assert forall g :: g in after <==> g in levels[0] || g == f;
    forall g | g in levels[0]
      ensures Elements(g.entries) <= Tables(levels)
    {
      assert forall e :: e in g.entries ==> e in FileEntries(levels[0]);
    }
  }

  lemma FlushKeepsNumbers(levels: seq<seq<File>>, target: nat, f: File)
    requires NumbersUnique(levels) && target < |levels|
    requires forall l, g :: 0 <= l < |levels| && g in levels[l] ==> g.number < f.number
    ensures NumbersUnique(Placed(levels, target, f))
  {
    var after := Placed(levels, target, f);
    assert forall g :: g in after[target] <==> g in levels[target] || g == f;
    assert forall l :: 0 <= l < |levels| && l != target ==> after[l] == levels[l];
    forall l, m, g: File, h: File | 0 <= l < |after| && 0 <= m < |after| && g in after[l] && h in after[m]
      && g.number == h.number
      ensures l == m && g == h
    {
      assert g in levels[l] || (g == f && l == target);
      assert h in levels[m] || (h == f && m == target);
    }
  }

  lemma FlushKeepsFiles(levels: seq<seq<File>>, target: nat, f: File)
    requires GoodLevels(levels) && ValidFile(f)
    requires target < NUM_LEVELS && Fits(levels, target, f) && AllNewer(Elements(f.entries), Tables(levels))
    requires forall l, g :: 0 <= l < NUM_LEVELS && g in levels[l] ==> g.number < f.number
    ensures ValidLevels(Placed(levels, target, f))
    ensures forall l :: 0 <= l < NUM_LEVELS ==> InOrder(Placed(levels, target, f)[l])
    ensures FilesByAge(Placed(levels, target, f)[0])
  {
    var after := Placed(levels, target, f);
    FlushKeepsDisjoint(levels[target], target > 0, f);
    FlushKeepsFilesByAge(levels, f);
    forall l | 0 <= l < NUM_LEVELS
      ensures ValidFiles(after[l]) && InOrder(after[l]) && (l > 0 ==> Disjoint(after[l]))
    {
      assert l != target ==> after[l] == levels[l];
    }
  }

  lemma FlushKeepsLevels(levels: seq<seq<File>>, target: nat, f: File)
    requires GoodLevels(levels) && ValidFile(f) && Unique(Tables(levels) + Elements(f.entries))
    requires target < NUM_LEVELS && Fits(levels, target, f) && AllNewer(Elements(f.entries), Tables(levels))
    requires forall l, g :: 0 <= l < NUM_LEVELS && g in levels[l] ==> g.number < f.number
    ensures GoodLevels(Placed(levels, target, f))
  {
    PlacedTables(levels, target, f);
    FlushKeepsAge(levels, target, f);
    FlushKeepsFiles(levels, target, f);
    FlushKeepsNumbers(levels, target, f);
  }

  lemma FlushKeepsInv(st: Store, step: Step, st': Store)
    requires Inv(st) && step.Flush? && Next(st, step, st')
    ensures Inv(st')
    ensures Contents(st') == Contents(st)
  {
    if st.imm.value == [] {
      EmptyFlushKeepsMemtables(st, st');
      SameHistory(st, st');
    } else {
      var f := TableFile(st.nextFile, step.size, st.imm.value);
      FlushedFileIsValid(st, f);
      LevelOkFits(st.levels, step.target, f);
      FlushedFileKeepsInv(st, step.target, f, st');
    }
  }

  lemma EmptyFlushKeepsMemtables(st: Store, st': Store)
    requires MemtablesOk(st) && st.imm == Some([])
    requires st'.mem == st.mem && st'.imm == None && st'.levels == st.levels
    ensures MemtablesOk(st') && Contents(st') == Contents(st)
  {
  }

  lemma FlushedFileKeepsInv(st: Store, target: nat, f: File, st': Store)
    requires Inv(st) && st.imm.Some? && st.imm.value != []
    requires f == TableFile(st.nextFile, f.size, st.imm.value) && target < NUM_LEVELS && Fits(st.levels, target, f)
    requires st' == st.(imm := None, nextFile := st.nextFile + 1, levels := Placed(st.levels, target, f))
    ensures Inv(st')
    ensures Contents(st') == Contents(st)
  {
    FlushedFileIsValid(st, f);
    FlushedTables(st, f);
    FlushKeepsLevels(st.levels, target, f);
    FlushKeepsMemtables(st, target, f, st');
    PlacedFileNumbers(st.levels, target, f);
    SameHistory(st, st');
  }

  lemma FlushedTables(st: Store, f: File)
    requires HistoryOk(st) && Contents(st) <= Elements(st.history)
    requires st.imm.Some? && f.entries == st.imm.value
    ensures Unique(Tables(st.levels) + Elements(f.entries))
  {
    HistoryIsUnique(st);
    assert Tables(st.levels) + Elements(f.entries) <= Elements(st.history);
  }

  lemma FlushKeepsMemtables(st: Store, target: nat, f: File, st': Store)
    requires MemtablesOk(st) && target < |st.levels| && st.imm.Some? && f.entries == st.imm.value
    requires st'.mem == st.mem && st'.imm == None && st'.levels == Placed(st.levels, target, f)
    ensures MemtablesOk(st') && Contents(st') == Contents(st)
  {
    PlacedTables(st.levels, target, f);
  }

  lemma PlacedFileNumbers(levels: seq<seq<File>>, target: nat, f: File)
    requires target < |levels|
    requires forall l, g :: 0 <= l < |levels| && g in levels[l] ==> g.number < f.number
    ensures forall l, g :: 0 <= l < |levels| && g in Placed(levels, target, f)[l] ==> g.number < f.number + 1
  {
    var after := Placed(levels, target, f);
    forall l, g: File | 0 <= l < |levels| && g in after[l]
      ensures g.number < f.number + 1
    {
      assert g in levels[l] || g == f;
    }
  }

  lemma FlushedFileIsValid(st: Store, f: File)
    requires Inv(st) && st.imm.Some? && st.imm.value != []
    requires f == TableFile(f.number, f.size, st.imm.value)
    ensures ValidFile(f)
  {
    forall e | e in f.entries
      ensures e.ikey.sequence < MAX_SEQUENCE
    {
      assert e in Contents(st);
      var i :| 0 <= i < |st.history| && st.history[i] == e;
    }
  }

  // ---- Trivial move and compaction ----

  lemma InstallKeepsInv(st: Store, level: nat, in0: seq<File>, in1: seq<File>, outs: seq<File>, st': Store)
    requires Inv(st) && level + 1 < NUM_LEVELS && Picked(st.levels, level, in0, in1)
    requires GoodOutputs(st.levels, level, in0, in1, outs)
    requires st.nextFile <= st'.nextFile && forall o :: o in outs ==> o.number < st'.nextFile
    requires st' == st.(levels := Install(st.levels, level, in0, in1, outs), nextFile := st'.nextFile)
    ensures Inv(st')
  {
    InstallKeepsLevels(st.levels, level, in0, in1, outs);
    InstallKeepsFileNumbers(st, level, in0, in1, outs, st');
    FewerTablesKeepMemtables(st, st');
    SameHistory(st, st');
  }

  lemma FewerTablesKeepMemtables(st: Store, st': Store)
    requires MemtablesOk(st) && st'.mem == st.mem && st'.imm == st.imm && Tables(st'.levels) <= Tables(st.levels)
    ensures MemtablesOk(st') && Contents(st') <= Contents(st)
  {
  }

  lemma SameHistory(st: Store, st': Store)
    requires HistoryOk(st) && SnapshotsOk(st)
    requires st'.history == st.history && st'.lastSequence == st.lastSequence && st'.snapshots == st.snapshots
    ensures HistoryOk(st') && SnapshotsOk(st')
  {
  }

  lemma MoveKeepsInv(st: Store, step: Step, st': Store)
    requires Inv(st) && step.Move? && Next(st, step, st')
    ensures Inv(st')
  {
    MovedFileIsGood(st.levels, step.level, step.file);
    InstallKeepsInv(st, step.level, [step.file], [], [step.file], st');
  }

  lemma MovedFileIsGood(levels: seq<seq<File>>, level: nat, f: File)
    requires GoodLevels(levels) && level + 1 < NUM_LEVELS && Picked(levels, level, [f], [])
    ensures f in levels[level]
    ensures GoodOutputs(levels, level, [f], [], [f])
  {
    assert f in [f];
    assert [f] + [] == [f];
  }

  lemma InstallKeepsFileNumbers(st: Store, level: nat, in0: seq<File>, in1: seq<File>, outs: seq<File>, st': Store)
    requires Inv(st) && level + 1 < NUM_LEVELS && Picked(st.levels, level, in0, in1)
    requires GoodOutputs(st.levels, level, in0, in1, outs)
    requires st.nextFile <= st'.nextFile && forall o :: o in outs ==> o.number < st'.nextFile
    requires st'.levels == Install(st.levels, level, in0, in1, outs)
    ensures FileNumbersOk(st')
  {
    forall l, f | 0 <= l < |st'.levels| && f in st'.levels[l]
      ensures f.number < st'.nextFile
    {
      Provenance(st.levels, level, in0, in1, outs, l, f);
    }
  }

  /** A sorted concatenation cuts into sorted pieces in order. */
  lemma {:induction false} FlattenCuts(chunks: seq<seq<Entry>>)
    requires Sorted(Flatten(chunks))
    ensures forall i :: 0 <= i < |chunks| ==> Sorted(chunks[i])
    ensures forall i, j :: 0 <= i < j < |chunks| ==> Precedes(chunks[i], chunks[j])
  {
    if chunks != [] {
      var n := |chunks| - 1;
      var init, last := chunks[..n], chunks[n];
      SortedConcat(Flatten(init), last);
      FlattenCuts(init);
      forall i | 0 <= i < n
        ensures Sorted(chunks[i]) && Precedes(chunks[i], last)
      {
        assert init[i] == chunks[i];
        FlattenHolds(init, i);
      }
      forall i, j | 0 <= i < j < |chunks|
        ensures Precedes(chunks[i], chunks[j])
      {
        assert j < n ==> init[i] == chunks[i] && init[j] == chunks[j];
      }
    }
  }

  lemma {:induction false} FlattenHolds(chunks: seq<seq<Entry>>, i: nat)
    requires i < |chunks|
    ensures forall e :: e in chunks[i] ==> e in Flatten(chunks)
  {
    var n := |chunks| - 1;
    if i < n {
      FlattenHolds(chunks[..n], i);
    }
  }

  lemma {:induction false} FlattenOnlyHolds(chunks: seq<seq<Entry>>, e: Entry) returns (i: nat)
    requires e in Flatten(chunks)
    ensures i < |chunks| && e in chunks[i]
  {
    var n := |chunks| - 1;
    if e in chunks[n] {
      return n;
    }
    i := FlattenOnlyHolds(chunks[..n], e);
  }

  /** The output files hold exactly the survivors. */
  lemma OutputsHoldSurvivors(st: Store, level: nat, input: seq<Entry>, outs: seq<File>)
    requires CompactionOutputs(st, level, input, outs)
    ensures FileEntries(outs) == Elements(Survivors(st.levels, level, input, SmallestSnapshot(st), input))
  {
    var chunks := Chunks(outs);
    var kept := Survivors(st.levels, level, input, SmallestSnapshot(st), input);
    forall e
      ensures e in FileEntries(outs) <==> e in kept
    {
      if e in FileEntries(outs) {
        var f :| f in outs && e in f.entries;
        var i :| 0 <= i < |outs| && outs[i] == f;
        FlattenHolds(chunks, i);
      }
      if e in kept {
        var i := FlattenOnlyHolds(chunks, e);
        assert outs[i] in outs;
      }
    }
  }

  lemma SurvivorsAreInputs(levels: seq<seq<File>>, level: nat, input: seq<Entry>, ss: nat)
    ensures Elements(Survivors(levels, level, input, ss, input)) <= Elements(input)
  {
    SurvivorsAre(levels, level, input, ss, input);
  }

  lemma OutputsAreValid(st: Store, level: nat, input: seq<Entry>, outs: seq<File>)
    requires CompactionOutputs(st, level, input, outs) && Sorted(input)
    requires forall e :: e in input ==> e.ikey.sequence < MAX_SEQUENCE
    ensures ValidFiles(outs) && Disjoint(outs)
  {
    var ss := SmallestSnapshot(st);
    SurvivorsSorted(st.levels, level, input, ss, input);
    FlattenCuts(Chunks(outs));
    OutputsHoldSurvivors(st, level, input, outs);
    SurvivorsAreInputs(st.levels, level, input, ss);
    forall i | 0 <= i < |outs|
      ensures ValidFile(outs[i])
    {
      assert Chunks(outs)[i] == outs[i].entries;
      assert forall e :: e in outs[i].entries ==> e in FileEntries(outs);
    }
    forall i, j | 0 <= i < j < |outs|
      ensures outs[i].largest.Less(outs[j].smallest)
    {
      assert Precedes(Chunks(outs)[i], Chunks(outs)[j]);
    }
  }

  lemma CompactionOutputsAreGood(st: Store, level: nat, in0: seq<File>, in1: seq<File>, input: seq<Entry>,
                                 outs: seq<File>)
    requires Inv(st) && CompactOk(st, level, in0, in1, input, outs)
    ensures GoodOutputs(st.levels, level, in0, in1, outs)
  {
    InputSequencesAreSmall(st, level, in0, in1, input);
    OutputsAreValid(st, level, input, outs);
    OutputsHoldSurvivors(st, level, input, outs);
    SurvivorsAreInputs(st.levels, level, input, SmallestSnapshot(st));
  }

  lemma InputsAreTables(st: Store, level: nat, in0: seq<File>, in1: seq<File>)
    requires level + 1 < |st.levels| && Picked(st.levels, level, in0, in1)
    ensures FileEntries(in0 + in1) <= Tables(st.levels)
  {
    forall e | e in FileEntries(in0 + in1)
      ensures e in Tables(st.levels)
    {
      InputEntries(st.levels, level, in0, in1, e);
    }
  }

  lemma InputSequencesAreSmall(st: Store, level: nat, in0: seq<File>, in1: seq<File>, input: seq<Entry>)
    requires Inv(st) && level + 1 < |st.levels| && Picked(st.levels, level, in0, in1)
    requires Elements(input) == FileEntries(in0 + in1)
    ensures forall e :: e in input ==> e.ikey.sequence < MAX_SEQUENCE
  {
    InputsAreTables(st, level, in0, in1);
    ContentsAreOlder(st);
    assert forall e :: e in input ==> e in Elements(input);
  }

  lemma CompactKeepsInv(st: Store, step: Step, st': Store)
    requires Inv(st) && step.Compact? && Next(st, step, st')
    ensures Inv(st')
  {
    CompactionOutputsAreGood(st, step.level, step.in0, step.in1, step.input, step.outs);
    InstallKeepsInv(st, step.level, step.in0, step.in1, step.outs, st');
  }

  lemma SnapshotStepsKeepInv(st: Store, step: Step, st': Store)
    requires Inv(st) && (step.TakeSnapshot? || step.ReleaseSnapshot?) && Next(st, step, st')
    ensures Inv(st')
    ensures SmallestSnapshot(st) <= SmallestSnapshot(st')
  {
    FewerTablesKeepMemtables(st, st');
  }

  lemma UseUpKeepsInv(st: Store, step: Step, st': Store)
    requires Inv(st) && step.UseUp? && Next(st, step, st')
    ensures Inv(st')
  {
    FewerTablesKeepMemtables(st, st');
    LaterNumbers(st, st');
  }

  lemma LaterNumbers(st: Store, st': Store)
    requires HistoryOk(st) && SnapshotsOk(st) && FileNumbersOk(st)
    requires st'.history == st.history && st'.snapshots == st.snapshots && st'.levels == st.levels
    requires st.lastSequence <= st'.lastSequence < MAX_SEQUENCE && st.nextFile <= st'.nextFile
    ensures HistoryOk(st') && SnapshotsOk(st') && FileNumbersOk(st')
  {
  }

  /** Every step keeps the invariant: sorted disjoint levels, newer versions shallower. */
  lemma NextKeepsInv(st: Store, step: Step, st': Store)
    requires Inv(st) && Next(st, step, st')
    ensures Inv(st')
  {
    match step
    case Write(_, _, _) => WriteKeepsInv(st, step, st');
    case SwitchMemtable => SwitchKeepsInv(st, step, st');
    case Flush(_, _) => FlushKeepsInv(st, step, st');
    case Move(_, _) => MoveKeepsInv(st, step, st');
    case Compact(_, _, _, _, _) => CompactKeepsInv(st, step, st');
    case TakeSnapshot => SnapshotStepsKeepInv(st, step, st');
    case ReleaseSnapshot(_) => SnapshotStepsKeepInv(st, step, st');
    case UseUp(_, _) => UseUpKeepsInv(st, step, st');
  }
}
