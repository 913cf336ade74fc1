/** Reading the store: Version::Get and DBImpl::Get, and what every run guarantees of them. */
module StoreReads {
  import opened Wrappers
  import opened InternalKeys
  import opened TableFiles
  import opened CompactionInputs
  import opened LsmLevels
  import opened Store
  import opened CompactionReads

  // ---- One level ----

  predicate NewestFirst(f: File, g: File) { f.number > g.number }

  ghost predicate ByNewest(fs: seq<File>) {
    forall i, j :: 0 <= i < j < |fs| ==> fs[i].number >= fs[j].number
  }

  /** std::sort by NewestFirst. */
  method SortNewestFirst(fs: seq<File>) returns (sorted: seq<File>)
    ensures ByNewest(sorted)
    ensures forall f :: f in sorted <==> f in fs
  {
    sorted := [];
    for i := 0 to |fs|
      invariant ByNewest(sorted)
      invariant forall f :: f in sorted <==> f in fs[..i]
    {
      var k := 0;
      while k < |sorted| && NewestFirst(sorted[k], fs[i])
        invariant 0 <= k <= |sorted|
        invariant forall j :: 0 <= j < k ==> sorted[j].number >= fs[i].number
      {
        k := k + 1;
      }
      InsertByNewest(sorted, k, fs[i]);
      sorted := sorted[..k] + [fs[i]] + sorted[k..];
    }
    assert fs[..|fs|] == fs;
  }

  lemma InsertByNewest(sorted: seq<File>, k: nat, f: File)
    requires ByNewest(sorted) && k <= |sorted|
    requires forall j :: 0 <= j < k ==> sorted[j].number >= f.number
    requires forall j :: k <= j < |sorted| ==> sorted[j].number <= f.number
    ensures ByNewest(sorted[..k] + [f] + sorted[k..])
    ensures forall g :: g in sorted[..k] + [f] + sorted[k..] <==> g in sorted || g == f
  {
    var a, b := sorted[..k], sorted[k..];
    assert sorted == a + b;
    ByNewestConcat(a, [f]);
    ByNewestConcat(a + [f], b);
  }

  lemma ByNewestConcat(a: seq<File>, b: seq<File>)
    requires ByNewest(a) && ByNewest(b)
    requires forall i, j :: 0 <= i < |a| && 0 <= j < |b| ==> a[i].number >= b[j].number
    ensures ByNewest(a + b)
  {
  }

  /** The level-0 part of Version::Get: every file that may hold the key, newest first. */
  method GetFromLevelZero(files: seq<File>, user: UserKey, snapshot: nat) returns (r: Option<Entry>)
    requires ValidFiles(files) && FilesByAge(files)
    requires forall f, g :: f in files && g in files && f.number == g.number ==> f == g
    ensures ReadsAs(FileEntries(files), user, snapshot, r)
  {
    var tmp := Overlapping(files, Range(Some(user), Some(user)));
    tmp := SortNewestFirst(tmp);
    for i := 0 to |tmp|
      invariant forall j :: 0 <= j < i ==> SeesNothing(tmp[j], user, snapshot)
    {
      assert tmp[i] in tmp;
      TableGetReadsTable(tmp[i].entries, user, snapshot);
      r := TableGet(tmp[i].entries, user, snapshot);
      if r.Some? {
        FirstHitIsNewest(files, tmp, i, user, snapshot, r.value);
        return;
      }
    }
    forall f | f in files
      ensures SeesNothing(f, user, snapshot)
    {
      OutOfRangeSeesNothing(f, user, snapshot);
    }
    NothingSeen(files, user, snapshot);
    return None;
  }

  ghost predicate SeesNothing(f: File, user: UserKey, snapshot: nat) {
    forall x :: x in f.entries ==> !Visible(x, user, snapshot)
  }

  lemma NothingSeen(files: seq<File>, user: UserKey, snapshot: nat)
    requires forall f :: f in files ==> SeesNothing(f, user, snapshot)
    ensures ReadsAs(FileEntries(files), user, snapshot, None)
  {
  }

  lemma OutOfRangeSeesNothing(f: File, user: UserKey, snapshot: nat)
    requires ValidFile(f)
    ensures Overlaps(f, Range(Some(user), Some(user))) || SeesNothing(f, user, snapshot)
  {
    forall x | x in f.entries && Visible(x, user, snapshot)
      ensures Overlaps(f, Range(Some(user), Some(user)))
    {
      FileBounds(f, x);
    }
  }

  lemma FirstHitIsNewest(files: seq<File>, tmp: seq<File>, i: nat, user: UserKey, snapshot: nat, e: Entry)
    requires ValidFiles(files) && FilesByAge(files) && ByNewest(tmp) && i < |tmp|
    requires forall f, g :: f in files && g in files && f.number == g.number ==> f == g
    requires forall f :: f in tmp <==> f in files && Overlaps(f, Range(Some(user), Some(user)))
    requires forall j :: 0 <= j < i ==> SeesNothing(tmp[j], user, snapshot)
    requires IsNewest(Elements(tmp[i].entries), user, snapshot, e)
    ensures IsNewest(FileEntries(files), user, snapshot, e)
  {
    var f := tmp[i];
    assert f in tmp;
    forall g, x | g in files && x in g.entries && Visible(x, user, snapshot)
      ensures x.ikey.sequence <= e.ikey.sequence
    {
      OutOfRangeSeesNothing(g, user, snapshot);
      assert g in tmp;
      var k :| 0 <= k < |tmp| && tmp[k] == g;
      assert i <= k;
      OlderFileIsOlder(files, f, g, e, x);
    }
  }

  lemma OlderFileIsOlder(files: seq<File>, f: File, g: File, e: Entry, x: Entry)
    requires FilesByAge(files) && f in files && g in files && (f == g || f.number > g.number)
    requires e in f.entries && x in g.entries && e.ikey.user == x.ikey.user
    requires f == g ==> x.ikey.sequence <= e.ikey.sequence
    ensures x.ikey.sequence <= e.ikey.sequence
  {
    if f != g {
      NewerPair(f, g, e, x);
    }
  }

  /** The lookup in a deeper level, whatever the order of its files. */
  function SearchSorted(files: seq<File>, user: UserKey, snapshot: nat): Option<Entry> {
    var index := Bisect(files, LookupKey(user, snapshot), 0, |files|);
    if index < |files|
      && files[index].smallest.user <= user then TableGet(files[index].entries, user, snapshot) else None
  }

  /** Deeper levels: one binary search, at most one table. */
  method GetFromSortedLevel(files: seq<File>, user: UserKey, snapshot: nat) returns (r: Option<Entry>)
    requires ValidFiles(files) && Disjoint(files)
    ensures ReadsAs(FileEntries(files), user, snapshot, r)
    ensures r == SearchSorted(files, user, snapshot)
  {
    var ikey := LookupKey(user, snapshot);
    var index := FindFile(files, ikey);
    forall i | 0 <= i < index
      ensures SeesNothing(files[i], user, snapshot)
    {
      EndsTooEarly(files[i], user, snapshot);
    }
    if index >= |files| {
      NothingSeen(files, user, snapshot);
      return None;
    }
    var f := files[index];
    if user < f.smallest.user {
      forall i | index <= i < |files|
        ensures SeesNothing(files[i], user, snapshot)
      {
        Ordered(files, index, i);
        assert files[i] in files;
        StartsTooLate(files[i], user, snapshot);
      }
      NothingSeen(files, user, snapshot);
      return None;
    }
    r := TableGet(f.entries, user, snapshot);
    assert f in files;
    TableGetReadsTable(f.entries, user, snapshot);
    OneTableAnswers(files, index, user, snapshot, r);
  }

  lemma EndsTooEarly(f: File, user: UserKey, snapshot: nat)
    requires ValidFile(f) && f.largest.Less(LookupKey(user, snapshot))
    ensures SeesNothing(f, user, snapshot)
  {
    forall x | x in f.entries
      ensures !Visible(x, user, snapshot)
    {
      FileBounds(f, x);
    }
  }

  lemma StartsTooLate(f: File, user: UserKey, snapshot: nat)
    requires ValidFile(f) && user < f.smallest.user
    ensures SeesNothing(f, user, snapshot)
  {
    forall x | x in f.entries
      ensures !Visible(x, user, snapshot)
    {
      FileBounds(f, x);
    }
  }

  lemma OneTableAnswers(files: seq<File>, index: nat, user: UserKey, snapshot: nat, r: Option<Entry>)
    requires ValidFiles(files) && Disjoint(files) && index < |files|
    requires forall i :: 0 <= i < index ==> SeesNothing(files[i], user, snapshot)
    requires !files[index].largest.Less(LookupKey(user, snapshot))
    requires r == TableGet(files[index].entries, user, snapshot)
    requires ReadsAs(Elements(files[index].entries), user, snapshot, r)
    ensures ReadsAs(FileEntries(files), user, snapshot, r)
  {
    var f := files[index];
    forall g, x | g in files && x in g.entries && Visible(x, user, snapshot)
      ensures r.Some? && x.ikey.sequence <= r.value.ikey.sequence
    {
      var k :| 0 <= k < |files| && files[k] == g;
      if k == index {
        assert x in Elements(f.entries);
      } else {
        LaterTableIsOlder(files, index, k, user, snapshot, x);
      }
    }
  }

  lemma LaterTableIsOlder(files: seq<File>, index: nat, k: nat, user: UserKey, snapshot: nat, x: Entry)
    requires ValidFiles(files) && Disjoint(files) && index < k < |files|
    requires !files[index].largest.Less(LookupKey(user, snapshot))
    requires x in files[k].entries && Visible(x, user, snapshot)
    ensures var r := TableGet(files[index].entries, user, snapshot);
            r.Some? && x.ikey.sequence <= r.value.ikey.sequence
  {
    var f := files[index];
    var n := |f.entries| - 1;
    var i := SeekIndex(f.entries, LookupKey(user, snapshot));
    FileBounds(files[k], x);
    Ordered(files, index, k);
    assert ValidFile(f) && f.entries[n].ikey == f.largest;
    assert i <= n;
    assert i < n ==> f.entries[i].ikey.Less(f.entries[n].ikey);
  }

  // ---- Version::Get ----

  /** The levels from l on, one after the other, up to the first hit. */
  function SearchLevels(levels: seq<seq<File>>, l: nat, user: UserKey, snapshot: nat): Option<Entry>
    decreases |levels| - l
  {
    if l >= |levels| then None
    else
      var r := SearchSorted(levels[l], user, snapshot);
      if r.Some? then r else SearchLevels(levels, l + 1, user, snapshot)
  }

  method VersionGet(levels: seq<seq<File>>, user: UserKey, snapshot: nat) returns (r: Option<Entry>)
    requires GoodLevels(levels)
    ensures ReadsAs(Tables(levels), user, snapshot, r)
  {
    r := GetFromLevelZero(levels[0], user, snapshot);
    if r.Some? {
      ShallowestHit(levels, 0, user, snapshot, r.value);
    } else {
      r := GetFromDeeperLevels(levels, user, snapshot);
    }
  }

  method GetFromDeeperLevels(levels: seq<seq<File>>, user: UserKey, snapshot: nat) returns (r: Option<Entry>)
    requires GoodLevels(levels) && ReadsAs(FileEntries(levels[0]), user, snapshot, None)
    ensures ReadsAs(Tables(levels), user, snapshot, r)
    ensures r == SearchLevels(levels, 1, user, snapshot)
  {
    r := None;
    for level := 1 to NUM_LEVELS
      invariant r == None
      invariant SearchLevels(levels, level, user, snapshot) == SearchLevels(levels, 1, user, snapshot)
      invariant forall l :: 0 <= l < level ==> ReadsAs(FileEntries(levels[l]), user, snapshot, None)
    {
      r := GetFromSortedLevel(levels[level], user, snapshot);
      if r.Some? {
        ShallowestHit(levels, level, user, snapshot, r.value);
        return;
      }
    }
  }

  /** A hit on the shallowest level that sees the key is the newest version of all. */
  lemma ShallowestHit(levels: seq<seq<File>>, level: nat, user: UserKey, snapshot: nat, e: Entry)
    requires LevelsByAge(levels) && level < |levels|
    requires forall l :: 0 <= l < level ==> ReadsAs(FileEntries(levels[l]), user, snapshot, None)
    requires IsNewest(FileEntries(levels[level]), user, snapshot, e)
    ensures IsNewest(Tables(levels), user, snapshot, e)
  {
    forall l: nat, x | l < |levels| && x in FileEntries(levels[l]) && Visible(x, user, snapshot)
      ensures x.ikey.sequence <= e.ikey.sequence
    {
      assert level <= l;
      if level < l {
        ShallowerIsNewer(levels, level, l, e, x);
      }
    }
  }

  /** DBImpl::Get: the memtable, then the immutable memtable, then the current version. */
  method Get(st: Store, user: UserKey, snapshot: nat) returns (answer: Option<string>)
    requires Inv(st)
    ensures answer == View(Contents(st), user, snapshot)
  {
    StoreIsUnique(st);
    var r := TableGet(st.mem, user, snapshot);
    TableGetReadsTable(st.mem, user, snapshot);
    if r.None? && st.imm.Some? {
      r := TableGet(st.imm.value, user, snapshot);
      TableGetReadsTable(st.imm.value, user, snapshot);
    }
    if r.None? {
      r := VersionGet(st.levels, user, snapshot);
    }
    assert ReadsAs(Contents(st), user, snapshot, r);
    ReadIsDetermined(Contents(st), user, snapshot, r, Newest(Contents(st), user, snapshot));
    answer := Answer(r);
  }

  // ---- Runs ----

  /** Reads over the store agree with reads over everything ever written, at every
      sequence number a reader may still use. */
  ghost predicate ReadsAgree(st: Store) {
    forall user, s :: SmallestSnapshot(st) <= s ==> View(Contents(st), user, s) == View(Elements(st.history), user, s)
  }

  /** A compaction step is acceptable when it uncovers nothing. */
  ghost predicate StepCovered(st: Store, step: Step) {
    step.Compact? && step.level + 1 < |st.levels| ==> Covered(st, step.level, step.in1, step.input)
  }

  /** A new write is the newest version of its key, in the store as in the history. */
  lemma WriteKeepsView(es: set<Entry>, all: set<Entry>, e: Entry, user: UserKey, s: nat)
    requires es <= all && Unique(all + {e}) && forall x :: x in all ==> x.ikey.sequence < e.ikey.sequence
    requires View(es, user, s) == View(all, user, s)
    ensures View(es + {e}, user, s) == View(all + {e}, user, s)
  {
    WriteView(es, e, user, s);
    WriteView(all, e, user, s);
  }

  lemma WriteView(es: set<Entry>, e: Entry, user: UserKey, s: nat)
    requires Unique(es + {e}) && forall x :: x in es ==> x.ikey.sequence < e.ikey.sequence
    ensures View(es + {e}, user, s) == if Visible(e, user, s) then Answer(Some(e)) else View(es, user, s)
  {
    var r := if Visible(e, user, s) then Some(e) else Newest(es, user, s);
    assert ReadsAs(es + {e}, user, s, r);
    ReadIsDetermined(es + {e}, user, s, r, Newest(es + {e}, user, s));
  }

  lemma WriteKeepsReads(st: Store, step: Step, st': Store)
    requires Inv(st) && ReadsAgree(st) && step.Write? && Next(st, step, st')
    ensures ReadsAgree(st')
  {
    var e := st'.history[|st.history|];
    WriteKeepsInv(st, step, st');
    HistoryIsUnique(st');
    assert Elements(st'.history) == Elements(st.history) + {e};
    HistoryIsOlder(st);
    forall user, s | SmallestSnapshot(st') <= s
      ensures View(Contents(st'), user, s) == View(Elements(st'.history), user, s)
    {
      WriteKeepsView(Contents(st), Elements(st.history), e, user, s);
    }
  }

  lemma HistoryIsOlder(st: Store)
    requires HistoryOk(st)
    ensures forall x :: x in Elements(st.history) ==> x.ikey.sequence <= st.lastSequence
  {
  }

  lemma MoveKeepsContents(st: Store, step: Step, st': Store)
    requires Inv(st) && step.Move? && Next(st, step, st')
    ensures Contents(st') == Contents(st)
  {
    MovedFileIsGood(st.levels, step.level, step.file);
    MoveKeepsTables(st.levels, step.level, step.file);
  }

  lemma MoveKeepsTables(levels: seq<seq<File>>, level: nat, f: File)
    requires GoodLevels(levels) && level + 1 < NUM_LEVELS && Picked(levels, level, [f], [])
    requires GoodOutputs(levels, level, [f], [], [f])
    ensures Tables(Install(levels, level, [f], [], [f])) == Tables(levels)
  {
    assert [f] + [] == [f];
    forall e
      ensures e in Tables(Install(levels, level, [f], [], [f])) <==> e in Tables(levels)
    {
      TablesSplit(levels, level, [f], [], e);
      InstalledTablesSplit(levels, level, [f], [], [f], e);
    }
  }

  lemma CompactKeepsReads(st: Store, step: Step, st': Store)
    requires Inv(st) && ReadsAgree(st) && step.Compact? && Next(st, step, st') && StepCovered(st, step)
    ensures ReadsAgree(st')
  {
    forall user, s | SmallestSnapshot(st') <= s
      ensures View(Contents(st'), user, s) == View(Elements(st'.history), user, s)
    {
      CoveredKeepsView(st, step.level, step.in0, step.in1, step.input, step.outs, st', user, s);
    }
  }

  /** Every step other than an uncovered compaction keeps all answers. */
  lemma NextKeepsReads(st: Store, step: Step, st': Store)
    requires Inv(st) && ReadsAgree(st) && Next(st, step, st') && StepCovered(st, step)
    ensures Inv(st') && ReadsAgree(st')
  {
    NextKeepsInv(st, step, st');
    match step
    case Write(_, _, _) => WriteKeepsReads(st, step, st');
    case SwitchMemtable => SwitchKeepsInv(st, step, st');
    case Flush(_, _) => FlushKeepsInv(st, step, st');
    case Move(_, _) => MoveKeepsContents(st, step, st');
    case Compact(_, _, _, _, _) => CompactKeepsReads(st, step, st');
    case TakeSnapshot => SnapshotStepsKeepInv(st, step, st');
    case ReleaseSnapshot(_) => SnapshotStepsKeepInv(st, step, st');
    case UseUp(_, _) =>
  }

  ghost predicate IsRunOf(states: seq<Store>, steps: seq<Step>) {
    && |states| == |steps| + 1
    && Initial(states[0])
    && forall i :: 0 <= i < |steps| ==> Next(states[i], steps[i], states[i + 1])
  }

  /** Safety of every run: the levels stay sorted, disjoint and ordered by age. */
  lemma {:induction false} RunsKeepInv(states: seq<Store>, steps: seq<Step>, i: nat)
    requires IsRunOf(states, steps) && i < |states|
    ensures Inv(states[i])
  {
    if i == 0 {
      InitialInv(states[0]);
    } else {
      RunsKeepInv(states, steps, i - 1);
      NextKeepsInv(states[i - 1], steps[i - 1], states[i]);
    }
  }

  /** In every run whose compactions are covered, every reachable state answers every read
      at every usable snapshot from the full history of writes. */
  lemma {:induction false} RunsKeepReads(states: seq<Store>, steps: seq<Step>, i: nat)
    requires IsRunOf(states, steps) && i < |states|
    requires forall j :: 0 <= j < i ==> StepCovered(states[j], steps[j])
    ensures Inv(states[i]) && ReadsAgree(states[i])
  {
    if i == 0 {
      InitialInv(states[0]);
      EmptyLevelsHoldNothing(states[0].levels);
      assert Contents(states[0]) == Elements(states[0].history);
    } else {
      RunsKeepReads(states, steps, i - 1);
      NextKeepsReads(states[i - 1], steps[i - 1], states[i]);
    }
  }

  /** Snapshots a reader may hold: the current state, those on the list, and later ones. */
  ghost predicate Usable(st: Store, snapshot: nat) {
    st.lastSequence <= snapshot || exists t :: t in st.snapshots && t <= snapshot
  }

  /** Compactions look at the oldest of them. */
  lemma UsableIff(st: Store, snapshot: nat)
    requires SnapshotsOk(st)
    ensures Usable(st, snapshot) <==> SmallestSnapshot(st) <= snapshot
  {
    if st.snapshots != [] {
      assert st.snapshots[0] in st.snapshots;
    }
  }

  /** A write is what its key reads as from then on; other keys, and earlier snapshots, read as before. */
  lemma WriteIsRead(st: Store, step: Step, st': Store, user: UserKey, s: nat)
    requires Inv(st) && step.Write? && Next(st, step, st')
    ensures user == step.user && st'.lastSequence <= s ==>
              View(Contents(st'), user, s) == if step.kind.Put? then Some(step.value) else None
    ensures user != step.user || s <= st.lastSequence ==> View(Contents(st'), user, s) == View(Contents(st), user, s)
  {
    var e := st'.history[|st.history|];
    WriteKeepsInv(st, step, st');
    StoreIsUnique(st');
    ContentsAreOlder(st);
    WriteView(Contents(st), e, user, s);
  }

  lemma EarlierReadsStay(st: Store, step: Step, st': Store, user: UserKey, s: nat)
    requires Inv(st) && Inv(st') && Next(st, step, st') && s <= st.lastSequence
    ensures View(Elements(st'.history), user, s) == View(Elements(st.history), user, s)
    ensures st.lastSequence <= st'.lastSequence
  {
    if step.Write? {
      var e := st'.history[|st.history|];
      HistoryIsUnique(st');
      HistoryIsOlder(st);
      assert Elements(st'.history) == Elements(st.history) + {e};
      WriteView(Elements(st.history), e, user, s);
    }
  }

  lemma HistoryStaysOnce(states: seq<Store>, steps: seq<Step>, k: nat, user: UserKey, s: nat)
    requires IsRunOf(states, steps) && k < |steps| && s <= states[k].lastSequence
    ensures View(Elements(states[k + 1].history), user, s) == View(Elements(states[k].history), user, s)
    ensures states[k].lastSequence <= states[k + 1].lastSequence
  {
    RunsKeepInv(states, steps, k);
    RunsKeepInv(states, steps, k + 1);
    EarlierReadsStay(states[k], steps[k], states[k + 1], user, s);
  }

  lemma {:induction false} HistoryStays(states: seq<Store>, steps: seq<Step>, i: nat, j: nat, user: UserKey, s: nat)
    requires IsRunOf(states, steps) && i <= j < |states| && s <= states[i].lastSequence
    ensures View(Elements(states[j].history), user, s) == View(Elements(states[i].history), user, s)
    ensures states[i].lastSequence <= states[j].lastSequence
    decreases j
  {
    if i < j {
      HistoryStays(states, steps, i, j - 1, user, s);
      HistoryStaysOnce(states, steps, j - 1, user, s);
    }
  }

  lemma HistoryIsRead(states: seq<Store>, steps: seq<Step>, i: nat, user: UserKey, s: nat)
    requires IsRunOf(states, steps) && i < |states| && forall k :: 0 <= k < i ==> StepCovered(states[k], steps[k])
    requires Usable(states[i], s)
    ensures View(Contents(states[i]), user, s) == View(Elements(states[i].history), user, s)
  {
    RunsKeepReads(states, steps, i);
    UsableIff(states[i], s);
  }

  /** What a snapshot shows never changes, whatever is written, flushed or compacted later. */
  lemma SnapshotsAreFrozen(states: seq<Store>, steps: seq<Step>, i: nat, j: nat, user: UserKey, s: nat)
    requires IsRunOf(states, steps) && i <= j < |states| && s <= states[i].lastSequence
    requires forall k :: 0 <= k < j ==> StepCovered(states[k], steps[k])
    requires Usable(states[i], s) && Usable(states[j], s)
    ensures View(Contents(states[j]), user, s) == View(Contents(states[i]), user, s)
  {
    HistoryStays(states, steps, i, j, user, s);
    HistoryIsRead(states, steps, i, user, s);
    HistoryIsRead(states, steps, j, user, s);
  }

  /** A read in a run: what DBImpl::Get returns is the history's answer. */
  method GetInRun(states: seq<Store>, steps: seq<Step>, i: nat, user: UserKey, snapshot: nat)
      returns (answer: Option<string>)
    requires IsRunOf(states, steps) && i < |states|
    requires forall j :: 0 <= j < i ==> StepCovered(states[j], steps[j])
    requires Usable(states[i], snapshot)
    ensures answer == View(Elements(states[i].history), user, snapshot)
  {
    RunsKeepReads(states, steps, i);
    UsableIff(states[i], snapshot);
    answer := Get(states[i], user, snapshot);
  }
}
