/** DBImpl::BackgroundCompaction: the methods that choose inputs, merge them, drop entries and
    write output files carry out exactly the steps of the store's state machine. */
module BackgroundCompactions {
  import opened Wrappers
  import opened InternalKeys
  import opened TableFiles
  import opened CompactionInputs
  import opened CompactionWork
  import opened VersionEdits
  import opened LsmLevels
  import opened Store
  import opened MemtableFlush
  import opened MergingIterators
  import opened StoreIterators
  import opened InterleavedCompactions

  lemma PickedAreFiles(levels: seq<seq<File>>, level: nat, in0: seq<File>, in1: seq<File>)
    requires GoodLevels(levels) && level + 1 < NUM_LEVELS && Picked(levels, level, in0, in1)
    ensures forall f :: f in in0 ==> f in levels[level]
    ensures forall f :: f in in1 ==> f in levels[level + 1]
  {
    LowerInputsAreFiles(levels, level, in0, in1);
  }

  lemma InputsShareNothing(levels: seq<seq<File>>, level: nat, in0: seq<File>, in1: seq<File>)
    requires GoodLevels(levels) && level + 1 < NUM_LEVELS
    requires (forall f :: f in in0 ==> f in levels[level]) && (forall f :: f in in1 ==> f in levels[level + 1])
    ensures FileEntries(in0) !! FileEntries(in1) && Unique(FileEntries(in0) + FileEntries(in1))
  {
    assert FileEntries(in0) <= FileEntries(levels[level]) && FileEntries(in1) <= FileEntries(levels[level + 1]);
    NewerShareNothing(FileEntries(levels[level]), FileEntries(levels[level + 1]));
    PrefixTables(levels, 0);
  }

  /** Runs of a sorted level are sorted. */
  lemma RunIsSorted(files: seq<File>, a: nat, run: seq<File>)
    requires ValidFiles(files) && Disjoint(files) && AreNeighbours(files, a, run)
    ensures ValidFiles(run) && Disjoint(run)
  {
  }

  lemma OverlappingIsSorted(files: seq<File>, r: Range)
    requires ValidFiles(files) && Disjoint(files)
    ensures ValidFiles(Overlapping(files, r)) && Disjoint(Overlapping(files, r))
  {
    if Overlapping(files, r) != [] {
      var a := OverlappingIsRun(files, r);
      RunIsSorted(files, a, Overlapping(files, r));
    }
  }

  lemma {:induction false} OverlappingIsDistinct(files: seq<File>, r: Range)
    requires DistinctFiles(files)
    ensures DistinctFiles(Overlapping(files, r))
  {
    if files != [] {
      var n := |files| - 1;
      OverlappingIsDistinct(files[..n], r);
      var rest := Overlapping(files[..n], r);
      forall i | 0 <= i < |rest|
        ensures rest[i] != files[n]
      {
        assert rest[i] in files[..n];
      }
    }
  }

  lemma PickedIsDistinct(levels: seq<seq<File>>, in0: seq<File>)
    requires GoodLevels(levels) && ByRange(levels[0], 0, in0)
    ensures DistinctFiles(in0)
  {
    OrderedFilesAreDistinct(levels, 0);
    var r :| in0 == Overlapping(levels[0], r);
    OverlappingIsDistinct(levels[0], r);
  }

  lemma UpperIsSorted(levels: seq<seq<File>>, level: nat, in0: seq<File>)
    requires GoodLevels(levels) && 0 < level < NUM_LEVELS && GoodStart(levels[level], level, in0)
    ensures ValidFiles(in0) && Disjoint(in0)
  {
    var a :| AreNeighbours(levels[level], a, in0);
    RunIsSorted(levels[level], a, in0);
  }

  lemma LowerIsSorted(levels: seq<seq<File>>, level: nat, in0: seq<File>, in1: seq<File>)
    requires GoodLevels(levels) && level + 1 < NUM_LEVELS && Picked(levels, level, in0, in1)
    ensures ValidFiles(in1) && Disjoint(in1)
  {
    HullExists(in0);
    var lo, hi :| IsHull(in0, lo, hi);
    OverlappingIsSorted(levels[level + 1], Range(Some(lo), Some(hi)));
  }

  /** VersionSet::MakeInputIterator: a child per level-0 file, one per sorted input. */
  method MakeInputIterator(levels: seq<seq<File>>, level: nat, in0: seq<File>, in1: seq<File>)
      returns (children: seq<seq<Entry>>, ghost merged: seq<Entry>)
    requires GoodLevels(levels) && level + 1 < NUM_LEVELS
    requires Picked(levels, level, in0, in1) && ByRange(levels[level], level, in0)
    ensures IsMerge(children, merged) && Elements(merged) == FileEntries(in0 + in1)
  {
    PickedAreFiles(levels, level, in0, in1);
    InputsShareNothing(levels, level, in0, in1);
    LowerIsSorted(levels, level, in0, in1);
    children := [];
    assert Parts([], {});
    if level == 0 {
      PickedIsDistinct(levels, in0);
      children := AddFiles(levels, in0, children, {});
    } else {
      UpperIsSorted(levels, level, in0);
      children := AddSorted(in0, children, {});
    }
    assert {} + FileEntries(in0) == FileEntries(in0);
    children := AddSorted(in1, children, FileEntries(in0));
    merged := PartsMerge(children, FileEntries(in0) + FileEntries(in1));
    InputsTogether(in0, in1);
  }

  lemma InputsTogether(a: seq<File>, b: seq<File>)
    ensures FileEntries(a + b) == FileEntries(a) + FileEntries(b)
  {
    forall e
      ensures e in FileEntries(a + b) <==> e in FileEntries(a) || e in FileEntries(b)
    {
      if f :| f in a && e in f.entries {
        assert f in a + b;
      }
      if f :| f in b && e in f.entries {
        assert f in a + b;
      }
    }
  }

  /** Walking the merging iterator from its first entry visits the merged input in order. */
  method ReadInput(it: MergingIterator) returns (input: seq<Entry>)
    requires it.Valid()
    modifies it
    ensures input == it.merged
  {
    input := [];
    it.SeekToFirst();
    while it.IsValid()
      invariant it.Valid() && input == it.merged[..it.index]
      decreases |it.merged| - it.index
    {
      input := input + [it.Current()];
      it.Next();
    }
  }

  /** FinishCompactionOutputFile: the output runs become table files with fresh numbers. */
  method OutputFiles(first: nat, outputs: seq<seq<Entry>>, sizes: seq<nat>) returns (outs: seq<File>)
    requires |sizes| == |outputs| && forall o :: o in outputs ==> o != []
    ensures |outs| == |outputs| && Chunks(outs) == outputs
    ensures forall i :: 0 <= i < |outs| ==>
              outs[i].entries != [] && outs[i] == TableFile(first + i, outs[i].size, outs[i].entries)
  {
    outs := [];
    for i := 0 to |outputs|
      invariant |outs| == i
      invariant forall k :: 0 <= k < i ==> outs[k].entries == outputs[k] && outputs[k] != []
      invariant forall k :: 0 <= k < i ==> outs[k] == TableFile(first + k, outs[k].size, outs[k].entries)
    {
      assert outputs[i] in outputs;
      outs := outs + [TableFile(first + i, sizes[i], outputs[i])];
    }
  }

  // ---- Installing the result ----

  lemma OutputsInOrder(outs: seq<File>)
    requires ValidFiles(outs) && Disjoint(outs)
    ensures InOrder(outs)
  {
    forall i, j | 0 <= i < j < |outs|
      ensures BySmallest(outs[i], outs[j])
    {
      assert outs[i] in outs;
      FileEnds(outs[i]);
    }
  }

  lemma {:induction false} NothingDeleted(added: seq<File>, deleted: set<nat>)
    requires forall f :: f in added ==> f.number !in deleted
    ensures Without(added, deleted) == added
  {
    if added != [] {
      var n := |added| - 1;
      var init := added[..n];
      assert added == init + [added[n]];
      assert forall f :: f in init ==> f in added;
      NothingDeleted(init, deleted);
      assert added[n] in added;
    }
  }

  /** InstallCompactionResults (and the edit of a trivial move), through the version builder. */
  method InstallResults(levels: seq<seq<File>>, level: nat, in0: seq<File>, in1: seq<File>, outs: seq<File>)
      returns (levels': seq<seq<File>>)
    requires GoodLevels(levels) && level + 1 < NUM_LEVELS && Picked(levels, level, in0, in1)
    requires GoodOutputs(levels, level, in0, in1, outs)
    ensures levels' == Install(levels, level, in0, in1, outs)
  {
    OutputsInOrder(outs);
    var deleted := Numbers(in1) - Numbers(outs);
    NothingDeleted(outs, deleted);
    NothingDeleted([], Numbers(in0));
    var upper := SaveTo(levels[level], Numbers(in0), []);
    var lower := SaveTo(levels[level + 1], deleted, outs);
    levels' := levels[level := upper][level + 1 := lower];
  }

  /** What ends an output file (ShouldStopBefore, the size limit) and how large files are. */
  datatype Sizes = Sizes(stopBefore: nat -> bool, closeAfter: nat -> bool, size: nat -> nat)

  lemma SmallestSnapshotIsSmall(st: Store)
    requires HistoryOk(st) && SnapshotsOk(st)
    ensures SmallestSnapshot(st) < MAX_SEQUENCE
  {
  }

  lemma InputIsUnique(st: Store, level: nat, in0: seq<File>, in1: seq<File>, input: seq<Entry>)
    requires GoodLevels(st.levels) && level + 1 < NUM_LEVELS && Picked(st.levels, level, in0, in1)
    requires Elements(input) == FileEntries(in0 + in1)
    ensures Unique(Elements(input))
  {
    InputsAreTables(st, level, in0, in1);
  }

  /** The inputs, merged. */
  method MergedInput(levels: seq<seq<File>>, level: nat, in0: seq<File>, in1: seq<File>) returns (input: seq<Entry>)
    requires GoodLevels(levels) && level + 1 < NUM_LEVELS
    requires Picked(levels, level, in0, in1) && ByRange(levels[level], level, in0)
    ensures Sorted(input) && Elements(input) == FileEntries(in0 + in1)
  {
    var children;
    ghost var merged;
    children, merged := MakeInputIterator(levels, level, in0, in1);
    var it := new MergingIterator(children, merged);
    input := ReadInput(it);
  }

  /** The output files of DoCompactionWork. */
  method WrittenFiles(st: Store, level: nat, input: seq<Entry>, sizes: Sizes) returns (outs: seq<File>)
    requires ValidLevels(st.levels) && level + 1 < NUM_LEVELS
    requires Sorted(input) && Unique(Elements(input)) && SmallestSnapshot(st) < MAX_SEQUENCE
    ensures CompactionOutputs(st, level, input, outs)
  {
    var c := new Compaction(st.levels, level);
    var stop := seq(|input|, i requires 0 <= i < |input| => sizes.stopBefore(i));
    var close := seq(|input|, i requires 0 <= i < |input| => sizes.closeAfter(i));
    var outputs := DoCompactionWork(c, input, SmallestSnapshot(st), stop, close);
    outs := OutputFiles(st.nextFile, outputs, seq(|outputs|, i requires 0 <= i < |outputs| => sizes.size(i)));
  }

  /** DoCompactionWork from the iterator over the inputs to the installed version: exactly one
      Compact step. */
  method Compacted(st: Store, level: nat, in0: seq<File>, in1: seq<File>, sizes: Sizes)
      returns (st': Store, ghost step: Step)
    requires Inv(st) && level + 1 < NUM_LEVELS
    requires Picked(st.levels, level, in0, in1) && ByRange(st.levels[level], level, in0)
    ensures step.Compact? && step.level == level && step.in0 == in0 && step.in1 == in1 && Next(st, step, st')
  {
    var input := MergedInput(st.levels, level, in0, in1);
    InputIsUnique(st, level, in0, in1, input);
    SmallestSnapshotIsSmall(st);
    var outs := WrittenFiles(st, level, input, sizes);
    CompactionOutputsAreGood(st, level, in0, in1, input, outs);
    var levels := InstallResults(st.levels, level, in0, in1, outs);
    st' := st.(levels := levels, nextFile := st.nextFile + |outs|);
    step := Compact(level, in0, in1, input, outs);
  }

  /** The part of a compaction before the edit: choosing, merging and writing. */
  method StartCompaction(st: Store, level: nat, in0: seq<File>, in1: seq<File>, sizes: Sizes)
      returns (b: Busy, ghost event: Event)
    requires Inv(st) && level + 1 < NUM_LEVELS
    requires Picked(st.levels, level, in0, in1) && ByRange(st.levels[level], level, in0)
    ensures event.Start? && event.level == level && event.in0 == in0 && event.in1 == in1
    ensures NextBusy(Busy(st, None), event, b)
  {
    var input := MergedInput(st.levels, level, in0, in1);
    InputIsUnique(st, level, in0, in1, input);
    SmallestSnapshotIsSmall(st);
    var outs := WrittenFiles(st, level, input, sizes);
    b := Busy(st.(nextFile := st.nextFile + |outs|), Some(Job(level, in0, in1, input, outs)));
    event := Start(level, in0, in1, input, outs);
  }

  /** InstallCompactionResults on the version that is current by then. */
  method FinishCompaction(b: Busy) returns (b': Busy)
    requires Inv(b.st) && b.job.Some? && JobOk(b.st, b.job.value)
    ensures NextBusy(b, Finish, b')
  {
    var j, levels := b.job.value, b.st.levels;
    OutputsInOrder(j.outs);
    var deleted := Numbers(j.in1) - Numbers(j.outs);
    NothingDeleted(j.outs, deleted);
    NothingDeleted([], Numbers(j.in0));
    var upper := SaveTo(levels[j.level], Numbers(j.in0), []);
    var lower := SaveTo(levels[j.level + 1], deleted, j.outs);
    b' := Busy(b.st.(levels := levels[j.level := upper][j.level + 1 := lower]), None);
  }

  /** A trivial move: one file goes down a level unchanged. */
  method Moved(st: Store, level: nat, f: File) returns (st': Store, ghost step: Step)
    requires Inv(st) && level + 1 < NUM_LEVELS && Picked(st.levels, level, [f], [])
    ensures step == Move(level, f) && Next(st, step, st')
  {
    MovedFileIsGood(st.levels, level, f);
    var levels := InstallResults(st.levels, level, [f], [], [f]);
    st' := st.(levels := levels);
    step := Move(level, f);
  }

  /** What starts a compaction: nothing to do, a file chosen by PickCompaction, or a manual
      compaction of a range. */
  datatype Choice = Nothing | Automatic(level: nat, index: nat) | Manual(level: nat, range: Range, limit: nat)

  predicate PossibleChoice(levels: seq<seq<File>>, choice: Choice) {
    match choice
    case Nothing => true
    case Automatic(level, index) => level + 1 < NUM_LEVELS && level < |levels| && index < |levels[level]|
    case Manual(level, _, _) => level + 1 < NUM_LEVELS
  }

  /** What BackgroundCompaction may make of a choice. An automatic compaction contains the
      chosen file, and is a move exactly for a lone file with nothing below it and few
      grandparent bytes. A manual one stays within the files that meet its range, the sets
      SetupOtherInputs adds included, and is never a move. */
  ghost predicate ChosenStep(st: Store, choice: Choice, maxGrandparentBytes: nat, step: Step)
    requires |st.levels| == NUM_LEVELS && PossibleChoice(st.levels, choice)
  {
    match choice
    case Nothing => false
    case Automatic(level, index) =>
      && (step.Compact? ==>
            step.level == level && st.levels[level][index] in step.in0
            && ByRange(st.levels[level], level, step.in0)
            && !IsTrivialMove(st.levels, level, step.in0, step.in1, maxGrandparentBytes))
      && (step.Move? ==>
            step.level == level && st.levels[level][index] == step.file
            && IsTrivialMove(st.levels, level, [step.file], [], maxGrandparentBytes))
      && (step.Compact? || step.Move?)
    case Manual(level, range, _) =>
      step.Compact? && step.level == level && ByRange(st.levels[level], level, step.in0)
      && exists f :: f in step.in0 && Overlaps(f, range)
  }

  /** Compaction::IsTrivialMove. */
  predicate IsTrivialMove(levels: seq<seq<File>>, level: nat, in0: seq<File>, in1: seq<File>,
                          maxGrandparentBytes: nat) {
    |in0| == 1 && |in1| == 0 && GrandparentBytes(levels, level, in0) <= maxGrandparentBytes
  }

  /** BackgroundCompaction: a pending memtable first; otherwise the chosen compaction. Only
      automatic ones may be trivial moves. */
  method BackgroundCompaction(st: Store, choice: Choice, sizes: Sizes, memSize: nat, maxGrandparentBytes: nat,
                              expandedLimit: nat)
      returns (st': Store, ghost step: Option<Step>)
    requires Inv(st) && PossibleChoice(st.levels, choice)
    ensures step.None? ==> st' == st
    ensures step.Some? ==> Next(st, step.value, st') && Inv(st')
    ensures st.imm.Some? ==> step.Some? && FlushChosen(st, step.value, maxGrandparentBytes)
    ensures st.imm.None? && step.Some? ==> ChosenStep(st, choice, maxGrandparentBytes, step.value)
    ensures st.imm.None? && choice.Automatic? ==> step.Some?
  {
    ghost var done: Step;
    if st.imm.Some? {
      st', done := CompactMemTable(st, memSize, maxGrandparentBytes);
      return st', Some(done);
    }
    if choice.Nothing? {
      return st, None;
    }
    var in0, in1 := ChooseInputs(st.levels, choice, expandedLimit);
    if in0 == [] {
      return st, None;
    }
    st', done := RunChosen(st, choice, in0, in1, sizes, maxGrandparentBytes);
    NextKeepsInv(st, done, st');
    step := Some(done);
  }

  /** The inputs fit the choice. */
  ghost predicate FitsChoice(levels: seq<seq<File>>, choice: Choice, in0: seq<File>, in1: seq<File>)
    requires |levels| == NUM_LEVELS && !choice.Nothing? && PossibleChoice(levels, choice)
  {
    && Picked(levels, choice.level, in0, in1) && ByRange(levels[choice.level], choice.level, in0)
    && (choice.Automatic? ==> levels[choice.level][choice.index] in in0)
    && (choice.Manual? ==> exists f :: f in in0 && Overlaps(f, choice.range))
  }

  method ChooseInputs(levels: seq<seq<File>>, choice: Choice, expandedLimit: nat)
      returns (in0: seq<File>, in1: seq<File>)
    requires ValidLevels(levels) && !choice.Nothing? && PossibleChoice(levels, choice)
    ensures in0 != [] ==> FitsChoice(levels, choice, in0, in1)
    ensures in0 == [] ==> choice.Manual? && forall f :: f in levels[choice.level] ==> !Overlaps(f, choice.range)
  {
    if choice.Automatic? {
      in0, in1 := PickCompaction(levels, choice.level, choice.index, expandedLimit);
    } else {
      in0, in1 := CompactRange(levels, choice.level, choice.range, choice.limit, expandedLimit);
    }
  }

  method RunChosen(st: Store, choice: Choice, in0: seq<File>, in1: seq<File>, sizes: Sizes, maxGrandparentBytes: nat)
      returns (st': Store, ghost step: Step)
    requires Inv(st) && !choice.Nothing? && PossibleChoice(st.levels, choice) && FitsChoice(st.levels, choice, in0, in1)
    ensures Next(st, step, st') && ChosenStep(st, choice, maxGrandparentBytes, step)
  {
    if choice.Automatic? && IsTrivialMove(st.levels, choice.level, in0, in1, maxGrandparentBytes) {
      assert in0 == [in0[0]] && in1 == [];
      st', step := Moved(st, choice.level, in0[0]);
    } else {
      st', step := Compacted(st, choice.level, in0, in1, sizes);
    }
  }

  /** The bytes of grandparents_: files two levels down that meet the file's range. */
  function GrandparentBytes(levels: seq<seq<File>>, level: nat, in0: seq<File>): nat
    requires |in0| == 1
  {
    if level + 2 < |levels| then TotalFileSize(Overlapping(levels[level + 2], Span(in0[0]))) else 0
  }
}
