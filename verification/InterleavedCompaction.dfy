/** A compaction that does not hold the mutex: its inputs are chosen from one version and its
    result is installed into a later one, with writes, memtable switches and flushes in
    between (DBImpl::DoCompactionWork in db/db_impl.cc). */
module InterleavedCompactions {
  import opened Wrappers
  import opened InternalKeys
  import opened TableFiles
  import opened CompactionInputs
  import opened VersionEdits
  import opened LsmLevels
  import opened Store
  import opened CompactionReads
  import opened StoreReads
  import opened StoreIterators
  import opened DBIterator

  /** A compaction under way: its inputs and the files it writes. */
  datatype Job = Job(level: nat, in0: seq<File>, in1: seq<File>, input: seq<Entry>, outs: seq<File>)

  datatype Busy = Busy(st: Store, job: Option<Job>)

  datatype Event =
    | Plain(step: Step)
    | Start(level: nat, in0: seq<File>, in1: seq<File>, input: seq<Entry>, outs: seq<File>)
    | Finish

  /** The store with the compaction under way installed at once. */
  ghost function Result(b: Busy): Store {
    match b.job
    case None => b.st
    case Some(j) =>
      if j.level + 1 < |b.st.levels| then b.st.(levels := Install(b.st.levels, j.level, j.in0, j.in1, j.outs)) else b.st
  }

  /** One background thread: while a compaction runs there is no other and no move. Start
      chooses the inputs, the drop decisions and the file numbers; Finish applies the edit to
      the version current then. */
  ghost predicate NextBusy(b: Busy, event: Event, b': Busy) {
    match event
    case Plain(step) =>
      && !step.Compact? && (step.Move? ==> b.job.None?)
      && Next(b.st, step, b'.st) && b'.job == b.job
    case Start(level, in0, in1, input, outs) =>
      && b.job.None? && CompactOk(b.st, level, in0, in1, input, outs)
      && b' == Busy(b.st.(nextFile := b.st.nextFile + |outs|), Some(Job(level, in0, in1, input, outs)))
    case Finish => b.job.Some? && b' == Busy(Result(b), None)
  }

  // ---- What a running compaction relies on ----

  /** The inputs are still in the version, and the outputs have numbers of their own. */
  ghost predicate JobOk(st: Store, j: Job) {
    && j.level + 1 < NUM_LEVELS && |st.levels| == NUM_LEVELS
    && (forall f :: f in j.in0 ==> f in st.levels[j.level])
    && (forall f :: f in j.in1 ==> f in st.levels[j.level + 1])
    && ValidFiles(j.outs) && Disjoint(j.outs) && DistinctNumbers(j.outs)
    && FileEntries(j.outs) <= FileEntries(j.in0 + j.in1)
    && (forall o :: o in j.outs ==> o.number < st.nextFile)
    && (forall l, f, o :: 0 <= l < NUM_LEVELS && f in st.levels[l] && o in j.outs ==> f.number != o.number)
  }

  /** Both the version in use and the one the compaction is going to install are in order. */
  ghost predicate BusyInv(b: Busy) {
    && Inv(b.st)
    && (b.job.Some? ==> JobOk(b.st, b.job.value) && Inv(Result(b)))
  }

  /** The file a flush writes. */
  function FlushedFile(st: Store, size: nat): File
    requires st.imm.Some? && st.imm.value != []
  {
    TableFile(st.nextFile, size, st.imm.value)
  }

  /** A flush into the level a running compaction writes to keeps clear of its output files. */
  ghost predicate KeepsClear(b: Busy, event: Event) {
    event.Plain? && event.step.Flush? && b.job.Some? && b.st.imm.Some? && b.st.imm.value != []
      && event.step.target == b.job.value.level + 1
    ==> forall o :: o in b.job.value.outs ==> Apart(o, FlushedFile(b.st, event.step.size))
  }

  /** A check that knows only the inputs: a flush into that level keeps clear of their keys. */
  ghost predicate ClearOfInputs(b: Busy, event: Event) {
    event.Plain? && event.step.Flush? && b.job.Some? && b.st.imm.Some? && b.st.imm.value != []
      && event.step.target == b.job.value.level + 1
    ==> exists lo, hi ::
          IsHull(b.job.value.in0 + b.job.value.in1, lo, hi) && Outside(FlushedFile(b.st, event.step.size), lo, hi)
  }

  predicate Outside(f: File, lo: UserKey, hi: UserKey) { f.largest.user < lo || hi < f.smallest.user }

  /** The output files lie within the inputs' keys. */
  lemma OutputWithinInputs(st: Store, j: Job, lo: UserKey, hi: UserKey, o: File)
    requires JobOk(st, j) && ValidLevels(st.levels) && IsHull(j.in0 + j.in1, lo, hi) && o in j.outs
    ensures lo <= o.smallest.user && o.largest.user <= hi
  {
    var first, last := o.entries[0], o.entries[|o.entries| - 1];
    assert first in o.entries && last in o.entries;
    var f := OutputEntry(j, o, first);
    var g := OutputEntry(j, o, last);
    assert f in j.in0 + j.in1 && g in j.in0 + j.in1;
    InputIsValid(st, j, f);
    InputIsValid(st, j, g);
    FileBounds(f, first);
    FileBounds(g, last);
  }

  lemma InputIsValid(st: Store, j: Job, f: File)
    requires JobOk(st, j) && ValidLevels(st.levels) && (f in j.in0 || f in j.in1)
    ensures ValidFile(f)
  {
    assert f in st.levels[j.level] || f in st.levels[j.level + 1];
  }

  /** So a flush that passes the check keeps the coming version in order. */
  lemma ClearOfInputsKeepsClear(b: Busy, event: Event)
    requires b.job.Some? ==> JobOk(b.st, b.job.value) && ValidLevels(b.st.levels)
    requires ClearOfInputs(b, event)
    ensures KeepsClear(b, event)
  {
    if event.Plain? && event.step.Flush? && b.job.Some? && b.st.imm.Some? && b.st.imm.value != []
      && event.step.target == b.job.value.level + 1 {
      var j, f := b.job.value, FlushedFile(b.st, event.step.size);
      var lo, hi :| IsHull(j.in0 + j.in1, lo, hi) && Outside(f, lo, hi);
      forall o | o in j.outs
        ensures Apart(o, f)
      {
        OutputWithinInputs(b.st, j, lo, hi, o);
      }
    }
  }

  // ---- Edits commute ----

  /** Adding a new file before or after another edit gives the same list. */
  lemma EditsCommute(base: seq<File>, deleted: set<nat>, outs: seq<File>, f: File)
    requires InOrder(base) && DistinctNumbers(outs) && f.number !in deleted
    requires forall g, o :: g in base && o in outs ==> g.number != o.number
    requires (forall g :: g in base ==> g.number != f.number) && forall o :: o in outs ==> o.number != f.number
    ensures Edited(Edited(base, {}, [f]), deleted, outs) == Edited(Edited(base, deleted, outs), {}, [f])
  {
    EditedInOrder(base, {}, [f]);
    EditedInOrder(Edited(base, {}, [f]), deleted, outs);
    EditedInOrder(base, deleted, outs);
    EditedInOrder(Edited(base, deleted, outs), {}, [f]);
    OrderedListsAgree(Edited(Edited(base, {}, [f]), deleted, outs), Edited(Edited(base, deleted, outs), {}, [f]));
  }

  lemma NumbersOf(files: seq<File>, n: nat)
    ensures n in Numbers(files) <==> exists f :: f in files && f.number == n
  {
  }

  /** Adding the file and another edit of the level commute. */
  ghost predicate Commute(base: seq<File>, deleted: set<nat>, added: seq<File>, f: File) {
    Edited(Edited(base, {}, [f]), deleted, added) == Edited(Edited(base, deleted, added), {}, [f])
  }

  /** So do the two edits of the level a flush goes to, whichever level it is. */
  ghost predicate CommuteAt(levels: seq<seq<File>>, j: Job, target: nat, f: File)
    requires target < |levels|
  {
    && (target == j.level ==> Commute(levels[target], Numbers(j.in0), [], f))
    && (target == j.level + 1 ==> Commute(levels[target], Numbers(j.in1) - Numbers(j.outs), j.outs, f))
  }

  /** The files of a level before a flush with file f. */
  ghost predicate Below(files: seq<File>, f: File) { forall g :: g in files ==> g.number < f.number }

  lemma UpperEditsCommute(base: seq<File>, j: Job, f: File)
    requires InOrder(base) && Below(base, f) && Below(j.in0, f)
    ensures Commute(base, Numbers(j.in0), [], f)
  {
    NumbersOf(j.in0, f.number);
    EditsCommute(base, Numbers(j.in0), [], f);
  }

  lemma LowerEditsCommute(base: seq<File>, j: Job, f: File)
    requires InOrder(base) && Below(base, f) && Below(j.in1, f) && Below(j.outs, f) && DistinctNumbers(j.outs)
    requires forall g, o :: g in base && o in j.outs ==> g.number != o.number
    ensures Commute(base, Numbers(j.in1) - Numbers(j.outs), j.outs, f)
  {
    NumbersOf(j.in1, f.number);
    EditsCommute(base, Numbers(j.in1) - Numbers(j.outs), j.outs, f);
  }

  lemma PlacedAt(levels: seq<seq<File>>, target: nat, f: File, base: seq<File>)
    requires target < |levels| && levels[target] == base
    ensures Placed(levels, target, f)[target] == Edited(base, {}, [f])
  {
  }

  lemma InstalledAbove(levels: seq<seq<File>>, j: Job, base: seq<File>)
    requires j.level + 1 < |levels| && levels[j.level] == base
    ensures Install(levels, j.level, j.in0, j.in1, j.outs)[j.level] == Edited(base, Numbers(j.in0), [])
  {
  }

  lemma UpperLevel(levels: seq<seq<File>>, j: Job, target: nat, f: File)
    requires target == j.level && j.level + 1 < |levels| && Commute(levels[target], Numbers(j.in0), [], f)
    ensures Install(Placed(levels, target, f), j.level, j.in0, j.in1, j.outs)[target]
         == Placed(Install(levels, j.level, j.in0, j.in1, j.outs), target, f)[target]
  {
    PlacedAt(levels, target, f, levels[target]);
    InstalledAbove(levels, j, levels[target]);
    PlacedAt(Install(levels, j.level, j.in0, j.in1, j.outs), target, f, Edited(levels[target], Numbers(j.in0), []));
    InstalledAbove(Placed(levels, target, f), j, Edited(levels[target], {}, [f]));
  }

  lemma InstalledBelow(levels: seq<seq<File>>, j: Job, base: seq<File>)
    requires j.level + 1 < |levels| && levels[j.level + 1] == base
    ensures Install(levels, j.level, j.in0, j.in1, j.outs)[j.level + 1]
         == Edited(base, Numbers(j.in1) - Numbers(j.outs), j.outs)
  {
  }

  lemma LowerLevel(levels: seq<seq<File>>, j: Job, target: nat, f: File)
    requires target == j.level + 1 < |levels|
    requires Commute(levels[target], Numbers(j.in1) - Numbers(j.outs), j.outs, f)
    ensures Install(Placed(levels, target, f), j.level, j.in0, j.in1, j.outs)[target]
         == Placed(Install(levels, j.level, j.in0, j.in1, j.outs), target, f)[target]
  {
    var base, gone := levels[target], Numbers(j.in1) - Numbers(j.outs);
    PlacedAt(levels, target, f, base);
    InstalledBelow(levels, j, base);
    PlacedAt(Install(levels, j.level, j.in0, j.in1, j.outs), target, f, Edited(base, gone, j.outs));
    InstalledBelow(Placed(levels, target, f), j, Edited(base, {}, [f]));
  }

  lemma OtherLevel(levels: seq<seq<File>>, j: Job, target: nat, f: File)
    requires j.level + 1 < |levels| && target < |levels| && target != j.level && target != j.level + 1
    ensures Install(Placed(levels, target, f), j.level, j.in0, j.in1, j.outs)[target]
         == Placed(Install(levels, j.level, j.in0, j.in1, j.outs), target, f)[target]
  {
  }

  lemma TargetLevel(levels: seq<seq<File>>, j: Job, target: nat, f: File)
    requires j.level + 1 < |levels| && target < |levels| && CommuteAt(levels, j, target, f)
    ensures Install(Placed(levels, target, f), j.level, j.in0, j.in1, j.outs)[target]
         == Placed(Install(levels, j.level, j.in0, j.in1, j.outs), target, f)[target]
  {
    if target == j.level {
      UpperLevel(levels, j, target, f);
    } else if target == j.level + 1 {
      LowerLevel(levels, j, target, f);
    } else {
      OtherLevel(levels, j, target, f);
    }
  }

  lemma UntouchedLevel(levels: seq<seq<File>>, j: Job, target: nat, f: File, l: nat)
    requires j.level + 1 < |levels| && target < |levels| && l < |levels| && l != target
    ensures Install(Placed(levels, target, f), j.level, j.in0, j.in1, j.outs)[l]
         == Placed(Install(levels, j.level, j.in0, j.in1, j.outs), target, f)[l]
  {
  }

  lemma LevelsCommute(levels: seq<seq<File>>, j: Job, target: nat, f: File)
    requires j.level + 1 < |levels| && target < |levels| && CommuteAt(levels, j, target, f)
    ensures Install(Placed(levels, target, f), j.level, j.in0, j.in1, j.outs)
         == Placed(Install(levels, j.level, j.in0, j.in1, j.outs), target, f)
  {
    forall l | 0 <= l < |levels|
      ensures Install(Placed(levels, target, f), j.level, j.in0, j.in1, j.outs)[l]
           == Placed(Install(levels, j.level, j.in0, j.in1, j.outs), target, f)[l]
    {
      if l == target {
        TargetLevel(levels, j, l, f);
      } else {
        UntouchedLevel(levels, j, target, f, l);
      }
    }
  }

  lemma FlushCommutesAt(levels: seq<seq<File>>, j: Job, target: nat, f: File)
    requires target < |levels| && InOrder(levels[target]) && DistinctNumbers(j.outs)
    requires forall g, o :: g in levels[target] && o in j.outs ==> g.number != o.number
    requires Below(levels[target], f) && Below(j.outs, f) && Below(j.in0, f) && Below(j.in1, f)
    ensures CommuteAt(levels, j, target, f)
  {
    if target == j.level {
      UpperEditsCommute(levels[target], j, f);
    } else if target == j.level + 1 {
      LowerEditsCommute(levels[target], j, f);
    }
  }

  /** Installing the compaction after the flush is flushing after the compaction. */
  lemma FlushCommutes(levels: seq<seq<File>>, j: Job, target: nat, f: File)
    requires |levels| == NUM_LEVELS && j.level + 1 < NUM_LEVELS && target < NUM_LEVELS
    requires (forall l :: 0 <= l < NUM_LEVELS ==> InOrder(levels[l])) && DistinctNumbers(j.outs)
    requires forall l, g, o :: 0 <= l < NUM_LEVELS && g in levels[l] && o in j.outs ==> g.number != o.number
    requires forall l, g :: 0 <= l < NUM_LEVELS && g in levels[l] ==> g.number < f.number
    requires forall o :: o in j.outs ==> o.number < f.number
    requires (forall g :: g in j.in0 ==> g in levels[j.level]) && forall g :: g in j.in1 ==> g in levels[j.level + 1]
    ensures Install(Placed(levels, target, f), j.level, j.in0, j.in1, j.outs)
         == Placed(Install(levels, j.level, j.in0, j.in1, j.outs), target, f)
  {
    FlushCommutesAt(levels, j, target, f);
    LevelsCommute(levels, j, target, f);
  }

  // ---- Flushing while a compaction runs ----

  lemma ResultFile(levels: seq<seq<File>>, j: Job, l: nat, g: File)
    requires |levels| == NUM_LEVELS && j.level + 1 < NUM_LEVELS && l < NUM_LEVELS
    requires g in Install(levels, j.level, j.in0, j.in1, j.outs)[l]
    ensures g in levels[l] || (l == j.level + 1 && g in j.outs)
  {
  }

  /** Every entry of an output file is an entry of some input file. */
  lemma OutputEntry(j: Job, o: File, x: Entry) returns (g: File)
    requires FileEntries(j.outs) <= FileEntries(j.in0 + j.in1) && o in j.outs && x in o.entries
    ensures (g in j.in0 || g in j.in1) && x in g.entries
  {
    assert x in FileEntries(j.outs);
    g :| g in j.in0 + j.in1 && x in g.entries;
  }

  /** A file that sinks below the outputs shares no key with them: it meets no input. */
  lemma OutputsShareNoKey(st: Store, j: Job, target: nat, f: File)
    requires JobOk(st, j) && ValidLevels(st.levels) && ValidFile(f)
    requires FlushLevelOk(st.levels, target, Span(f)) && target > j.level + 1
    ensures ShareNoKey(j.outs, f)
  {
    forall o, x, y | o in j.outs && x in o.entries && y in f.entries
      ensures x.ikey.user != y.ikey.user
    {
      var g := OutputEntry(j, o, x);
      assert g in st.levels[j.level] || g in st.levels[j.level + 1];
      NoSharedKey(f, g, y, x);
    }
  }

  lemma FlushFits(b: Busy, target: nat, f: File)
    requires b.job.Some? && JobOk(b.st, b.job.value) && ValidLevels(b.st.levels) && ValidFile(f)
    requires FlushLevelOk(b.st.levels, target, Span(f))
    requires target == b.job.value.level + 1 ==> forall o :: o in b.job.value.outs ==> Apart(o, f)
    ensures Fits(Result(b).levels, target, f)
  {
    var j, levels := b.job.value, Result(b).levels;
    if target > 0 {
      LevelOkFits(b.st.levels, target, f);
      forall l | 0 <= l < target
        ensures ShareNoKey(levels[l], f)
      {
        FlushFitsAbove(b.st, j, target, f, l);
      }
      forall g | g in levels[target]
        ensures Apart(g, f)
      {
        ResultFile(b.st.levels, j, target, g);
      }
    }
  }

  lemma FlushFitsAbove(st: Store, j: Job, target: nat, f: File, l: nat)
    requires JobOk(st, j) && ValidLevels(st.levels) && ValidFile(f) && l < target
    requires FlushLevelOk(st.levels, target, Span(f)) && Fits(st.levels, target, f)
    ensures ShareNoKey(Install(st.levels, j.level, j.in0, j.in1, j.outs)[l], f)
  {
    var after := Install(st.levels, j.level, j.in0, j.in1, j.outs)[l];
    assert ShareNoKey(st.levels[l], f);
    if l == j.level + 1 {
      OutputsShareNoKey(st, j, target, f);
    }
    forall g, x, y | g in after && x in g.entries && y in f.entries
      ensures x.ikey.user != y.ikey.user
    {
      ResultFile(st.levels, j, l, g);
    }
  }

  lemma PlacedNumbersDiffer(levels: seq<seq<File>>, target: nat, f: File, outs: seq<File>)
    requires target < |levels| && forall o :: o in outs ==> o.number < f.number
    requires forall l, g, o :: 0 <= l < |levels| && g in levels[l] && o in outs ==> g.number != o.number
    ensures forall l, g, o :: 0 <= l < |levels| && g in Placed(levels, target, f)[l] && o in outs ==>
              g.number != o.number
  {
    var after := Placed(levels, target, f);
    assert forall g :: g in after[target] ==> g in levels[target] || g == f;
  }

  lemma FlushKeepsJob(st: Store, st': Store, j: Job, target: nat, f: File)
    requires JobOk(st, j) && target < NUM_LEVELS && f.number == st.nextFile
    requires st'.levels == Placed(st.levels, target, f) && st'.nextFile == st.nextFile + 1
    ensures JobOk(st', j)
  {
    PlacedNumbersDiffer(st.levels, target, f, j.outs);
    var upper, lower := st'.levels[j.level], st'.levels[j.level + 1];
    assert forall g :: g in j.in0 ==> g in upper;
    assert forall g :: g in j.in1 ==> g in lower;
  }

  /** After the flush the coming version is the earlier coming version, flushed. */
  ghost predicate FlushesAsResult(b: Busy, target: nat, f: File, b': Busy)
    requires target < |Result(b).levels|
  {
    Result(b') == Result(b).(imm := None, nextFile := b.st.nextFile + 1, levels := Placed(Result(b).levels, target, f))
  }

  lemma FlushCommutesWithJob(st: Store, j: Job, target: nat, f: File)
    requires JobOk(st, j) && GoodLevels(st.levels) && FileNumbersOk(st)
    requires target < NUM_LEVELS && f.number == st.nextFile
    ensures Install(Placed(st.levels, target, f), j.level, j.in0, j.in1, j.outs)
         == Placed(Install(st.levels, j.level, j.in0, j.in1, j.outs), target, f)
  {
    FlushCommutes(st.levels, j, target, f);
  }

  lemma FlushMovesResult(b: Busy, target: nat, f: File, b': Busy)
    requires b.job.Some? && JobOk(b.st, b.job.value) && GoodLevels(b.st.levels) && FileNumbersOk(b.st)
    requires target < NUM_LEVELS && f.number == b.st.nextFile
    requires b'.job == b.job
             && b'.st == b.st.(imm := None, nextFile := b.st.nextFile + 1, levels := Placed(b.st.levels, target, f))
    ensures FlushesAsResult(b, target, f, b')
  {
    FlushCommutesWithJob(b.st, b.job.value, target, f);
  }

  lemma EmptyFlushDuringCompaction(b: Busy, b': Busy)
    requires BusyInv(b) && b.job.Some? && b.st.imm == Some([]) && b' == Busy(b.st.(imm := None), b.job)
    ensures JobOk(b'.st, b.job.value) && Inv(Result(b')) && Contents(Result(b')) == Contents(Result(b))
  {
    EmptyFlushKeepsMemtables(Result(b), Result(b'));
    SameHistory(Result(b), Result(b'));
  }

  ghost predicate ClearOf(j: Job, target: nat, f: File) {
    target == j.level + 1 ==> forall o :: o in j.outs ==> Apart(o, f)
  }

  lemma FileFlushDuringCompaction(b: Busy, target: nat, f: File, b': Busy)
    requires b.job.Some? && JobOk(b.st, b.job.value) && ValidLevels(b.st.levels)
    requires b.st.imm.Some? && b.st.imm.value != [] && target < NUM_LEVELS && ValidFile(f)
    requires Inv(Result(b)) && FlushesAsResult(b, target, f, b')
    requires f == TableFile(b.st.nextFile, f.size, b.st.imm.value) && FlushLevelOk(b.st.levels, target, Span(f))
    requires b' == Busy(b.st.(imm := None, nextFile := b.st.nextFile + 1, levels := Placed(b.st.levels, target, f)),
             b.job)
    ensures JobOk(b'.st, b.job.value)
    ensures Inv(Result(b')) <==> ClearOf(b.job.value, target, f)
    ensures ClearOf(b.job.value, target, f) ==> Contents(Result(b')) == Contents(Result(b))
  {
    FlushKeepsJob(b.st, b'.st, b.job.value, target, f);
    if ClearOf(b.job.value, target, f) {
      FlushFits(b, target, f);
      ClearFlush(Result(b), target, f, Result(b'));
    } else {
      BlockedFlushBreaks(b, target, f, b');
    }
  }

  lemma ClearFlush(st: Store, target: nat, f: File, st': Store)
    requires Inv(st) && st.imm.Some? && st.imm.value != [] && target < NUM_LEVELS
    requires f == TableFile(st.nextFile, f.size, st.imm.value) && Fits(st.levels, target, f)
    requires st' == st.(imm := None, nextFile := st.nextFile + 1, levels := Placed(st.levels, target, f))
    ensures Inv(st') && Contents(st') == Contents(st)
  {
    FlushedFileKeepsInv(st, target, f, st');
  }

  /** A flush during a compaction keeps the coming version in order if, and only if, the new
      file keeps clear of the output files beside which it lands. */
  lemma FlushDuringCompaction(b: Busy, event: Event, b': Busy)
    requires BusyInv(b) && b.job.Some? && event.Plain? && event.step.Flush? && NextBusy(b, event, b')
    ensures JobOk(b'.st, b.job.value)
    ensures Inv(Result(b')) <==> KeepsClear(b, event)
    ensures KeepsClear(b, event) ==> Contents(Result(b')) == Contents(Result(b))
  {
    if b.st.imm.value == [] {
      EmptyFlushDuringCompaction(b, b');
    } else {
      var f := FlushedFile(b.st, event.step.size);
      FlushedFileIsValid(b.st, f);
      FlushMovesResult(b, event.step.target, f, b');
      FileFlushDuringCompaction(b, event.step.target, f, b');
    }
  }

  lemma DisjointIsApart(files: seq<File>, f: File, g: File)
    requires Disjoint(files) && f in files && g in files && f != g
    ensures Apart(f, g)
  {
    var i :| 0 <= i < |files| && files[i] == f;
    var k :| 0 <= k < |files| && files[k] == g;
    assert i < k || k < i;
  }

  /** Without that, two files of one sorted level interleave. */
  lemma BlockedFlushBreaks(b: Busy, target: nat, f: File, b': Busy)
    requires b.job.Some? && b.job.value.level + 1 == target < NUM_LEVELS && |b.st.levels| == NUM_LEVELS
    requires Result(b').levels == Placed(Result(b).levels, target, f)
    requires exists o :: o in b.job.value.outs && !Apart(o, f)
    requires forall o :: o in b.job.value.outs ==> o.number < f.number
    ensures !Disjoint(Result(b').levels[target]) && !Inv(Result(b'))
  {
    var o :| o in b.job.value.outs && !Apart(o, f);
    var after := Result(b').levels[target];
    assert o in after && f in after && o != f;
    if Disjoint(after) {
      DisjointIsApart(after, o, f);
    }
  }

  // ---- Steps ----

  lemma NumbersMayGrow(st: Store, st': Store)
    requires Inv(st) && st' == st.(nextFile := st'.nextFile) && st.nextFile <= st'.nextFile
    ensures Inv(st') && Contents(st') == Contents(st)
  {
  }

  lemma StartMakesJob(st: Store, level: nat, in0: seq<File>, in1: seq<File>, input: seq<Entry>, outs: seq<File>)
    requires Inv(st) && CompactOk(st, level, in0, in1, input, outs)
    ensures JobOk(st.(nextFile := st.nextFile + |outs|), Job(level, in0, in1, input, outs))
  {
    CompactionOutputsAreGood(st, level, in0, in1, input, outs);
    LowerInputsAreFiles(st.levels, level, in0, in1);
    OutputNumbers(st, level, in0, in1, input, outs);
  }

  lemma OutputNumbers(st: Store, level: nat, in0: seq<File>, in1: seq<File>, input: seq<Entry>, outs: seq<File>)
    requires FileNumbersOk(st) && CompactOk(st, level, in0, in1, input, outs)
    ensures forall o :: o in outs ==> st.nextFile <= o.number < st.nextFile + |outs|
    ensures forall l, f, o :: 0 <= l < |st.levels| && f in st.levels[l] && o in outs ==> f.number != o.number
  {
    forall o | o in outs
      ensures st.nextFile <= o.number < st.nextFile + |outs|
    {
      var i :| 0 <= i < |outs| && outs[i] == o;
    }
  }

  /** Starting is, for the coming version, the whole compaction. */
  lemma StartIsCompaction(b: Busy, event: Event, b': Busy)
    requires |b.st.levels| == NUM_LEVELS && event.Start? && NextBusy(b, event, b')
    ensures Next(b.st, Compact(event.level, event.in0, event.in1, event.input, event.outs), Result(b'))
  {
  }

  lemma StartKeepsInv(b: Busy, event: Event, b': Busy)
    requires Inv(b.st) && event.Start? && NextBusy(b, event, b')
    ensures BusyInv(b')
  {
    StartMakesJob(b.st, event.level, event.in0, event.in1, event.input, event.outs);
    NumbersMayGrow(b.st, b'.st);
    StartIsCompaction(b, event, b');
    NextKeepsInv(b.st, Compact(event.level, event.in0, event.in1, event.input, event.outs), Result(b'));
  }

  /** Writes, memtable switches and snapshots happen to the coming version alike. */
  lemma PlainStepOnResult(b: Busy, step: Step, b': Busy)
    requires NextBusy(b, Plain(step), b') && b.job.Some? && !step.Flush?
    ensures Next(Result(b), step, Result(b')) && b'.st.levels == b.st.levels && b'.st.nextFile >= b.st.nextFile
  {
  }

  lemma PlainKeepsResult(b: Busy, event: Event, b': Busy)
    requires BusyInv(b) && b.job.Some? && event.Plain? && NextBusy(b, event, b') && KeepsClear(b, event)
    ensures JobOk(b'.st, b.job.value) && Inv(Result(b'))
  {
    if event.step.Flush? {
      FlushDuringCompaction(b, event, b');
    } else {
      PlainStepOnResult(b, event.step, b');
      NextKeepsInv(Result(b), event.step, Result(b'));
    }
  }

  lemma PlainKeepsInv(b: Busy, event: Event, b': Busy)
    requires BusyInv(b) && event.Plain? && NextBusy(b, event, b') && KeepsClear(b, event)
    ensures BusyInv(b')
  {
    NextKeepsInv(b.st, event.step, b'.st);
    if b.job.Some? {
      PlainKeepsResult(b, event, b');
    }
  }

  lemma NextKeepsBusyInv(b: Busy, event: Event, b': Busy)
    requires BusyInv(b) && NextBusy(b, event, b') && KeepsClear(b, event)
    ensures BusyInv(b')
  {
    match event
    case Plain(_) => PlainKeepsInv(b, event, b');
    case Start(_, _, _, _, _) => StartKeepsInv(b, event, b');
    case Finish =>
  }

  // ---- Reads ----

  ghost predicate BusyReads(b: Busy) { ReadsAgree(b.st) && ReadsAgree(Result(b)) }

  ghost predicate EventCovered(b: Busy, event: Event) {
    event.Start? && event.level + 1 < |b.st.levels| ==> Covered(b.st, event.level, event.in1, event.input)
  }

  lemma SameContentsKeepReads(st: Store, st': Store)
    requires ReadsAgree(st) && Contents(st') == Contents(st) && st'.history == st.history
    requires SmallestSnapshot(st) <= SmallestSnapshot(st')
    ensures ReadsAgree(st')
  {
  }

  lemma PlainKeepsResultReads(b: Busy, event: Event, b': Busy)
    requires BusyInv(b) && b.job.Some? && ReadsAgree(Result(b)) && event.Plain? && NextBusy(b, event, b')
             && KeepsClear(b, event)
    ensures ReadsAgree(Result(b'))
  {
    if event.step.Flush? {
      FlushDuringCompaction(b, event, b');
      SameContentsKeepReads(Result(b), Result(b'));
    } else {
      PlainStepOnResult(b, event.step, b');
      NextKeepsReads(Result(b), event.step, Result(b'));
    }
  }

  lemma PlainKeepsReads(b: Busy, event: Event, b': Busy)
    requires BusyInv(b) && BusyReads(b) && event.Plain? && NextBusy(b, event, b') && KeepsClear(b, event)
    ensures BusyReads(b')
  {
    NextKeepsReads(b.st, event.step, b'.st);
    if b.job.Some? {
      PlainKeepsResultReads(b, event, b');
    }
  }

  lemma NextKeepsBusyReads(b: Busy, event: Event, b': Busy)
    requires BusyInv(b) && BusyReads(b) && NextBusy(b, event, b') && KeepsClear(b, event) && EventCovered(b, event)
    ensures BusyReads(b')
  {
    match event
    case Plain(_) => PlainKeepsReads(b, event, b');
    case Start(level, in0, in1, input, outs) =>
      StartIsCompaction(b, event, b');
      NumbersMayGrow(b.st, b'.st);
      SameContentsKeepReads(b.st, b'.st);
      NextKeepsReads(b.st, Compact(level, in0, in1, input, outs), Result(b'));
    case Finish =>
  }

  // ---- Runs ----

  ghost predicate EventAt(run: seq<Busy>, events: seq<Event>, i: nat) {
    i < |events| && i + 1 < |run| && NextBusy(run[i], events[i], run[i + 1])
  }

  ghost predicate IsBusyRun(run: seq<Busy>, events: seq<Event>) {
    && |run| == |events| + 1 && Initial(run[0].st) && run[0].job.None?
    && forall i :: 0 <= i < |events| ==> EventAt(run, events, i)
  }

  /** In every run with compactions in the background, in which flushes keep clear of the
      compaction's output, every state is in order, and so is every result to come. */
  lemma {:induction false} BusyRunsKeepInv(run: seq<Busy>, events: seq<Event>, i: nat)
    requires IsBusyRun(run, events) && i < |run|
    requires forall k :: 0 <= k < i ==> KeepsClear(run[k], events[k])
    ensures BusyInv(run[i])
  {
    if i == 0 {
      InitialInv(run[0].st);
    } else {
      BusyRunsKeepInv(run, events, i - 1);
      assert EventAt(run, events, i - 1);
      NextKeepsBusyInv(run[i - 1], events[i - 1], run[i]);
    }
  }

  /** If compactions are covered too, all reads agree with the history of writes. */
  lemma {:induction false} BusyRunsKeepReads(run: seq<Busy>, events: seq<Event>, i: nat)
    requires IsBusyRun(run, events) && i < |run|
    requires forall k :: 0 <= k < i ==> KeepsClear(run[k], events[k]) && EventCovered(run[k], events[k])
    ensures BusyInv(run[i]) && BusyReads(run[i])
  {
    BusyRunsKeepInv(run, events, i);
    if i == 0 {
      EmptyLevelsHoldNothing(run[0].st.levels);
      assert Contents(run[0].st) == Elements(run[0].st.history);
    } else {
      BusyRunsKeepReads(run, events, i - 1);
      assert EventAt(run, events, i - 1);
      NextKeepsBusyReads(run[i - 1], events[i - 1], run[i]);
    }
  }

  /** DBImpl::Get in such a run. */
  method GetInBusyRun(run: seq<Busy>, events: seq<Event>, i: nat, user: UserKey, snapshot: nat)
      returns (answer: Option<string>)
    requires IsBusyRun(run, events) && i < |run|
    requires forall k :: 0 <= k < i ==> KeepsClear(run[k], events[k]) && EventCovered(run[k], events[k])
    requires Usable(run[i].st, snapshot)
    ensures answer == View(Elements(run[i].st.history), user, snapshot)
  {
    BusyRunsKeepReads(run, events, i);
    UsableIff(run[i].st, snapshot);
    answer := Get(run[i].st, user, snapshot);
  }

  /** DBImpl::NewIterator in such a run. */
  method IteratorInBusyRun(run: seq<Busy>, events: seq<Event>, i: nat, snapshot: nat) returns (it: DBIter)
    requires IsBusyRun(run, events) && i < |run|
    requires forall k :: 0 <= k < i ==> KeepsClear(run[k], events[k]) && EventCovered(run[k], events[k])
    requires Usable(run[i].st, snapshot)
    ensures fresh(it) && fresh(it.iter) && it.Valid() && it.DistinctEntries() && !it.valid
    ensures forall user :: it.Read(user) == View(Elements(run[i].st.history), user, snapshot)
  {
    BusyRunsKeepReads(run, events, i);
    UsableIff(run[i].st, snapshot);
    it := NewIterator(run[i].st, snapshot);
  }
}
