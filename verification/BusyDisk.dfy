/** The tables alone, while compactions run in the background: they, and the version that a
    running compaction is going to install, answer for the writes that have left the memtables. */
module BusyDisks {
  import opened Wrappers
  import opened InternalKeys
  import opened Store
  import opened StoreReads
  import opened InterleavedCompactions
  import opened StoreDisks

  ghost predicate BusyDiskInv(b: Busy) { DiskInv(b.st) && (b.job.Some? ==> DiskInv(Result(b))) }

  ghost predicate EventCoveredOnDisk(b: Busy, event: Event) {
    event.Start? ==> StepCoveredOnDisk(b.st, Compact(event.level, event.in0, event.in1, event.input, event.outs))
  }

  /** The condition on the tables implies the one on the whole store. */
  lemma CoveredOnDiskIsEventCovered(b: Busy, event: Event, b': Busy)
    requires Inv(b.st) && NextBusy(b, event, b') && EventCoveredOnDisk(b, event)
    ensures EventCovered(b, event)
  {
    if event.Start? {
      CoveredOnDiskIsCovered(b.st, Compact(event.level, event.in0, event.in1, event.input, event.outs));
    }
  }

  lemma MoreNumbersKeepDisk(st: Store, st': Store)
    requires DiskInv(st) && st' == st.(nextFile := st'.nextFile)
    ensures DiskInv(st')
  {
    assert Flushed(st') == Flushed(st);
    SameFlushed(st, st');
  }

  lemma StartKeepsDisk(b: Busy, event: Event, b': Busy)
    requires Inv(b.st) && DiskInv(b.st) && event.Start? && NextBusy(b, event, b') && EventCoveredOnDisk(b, event)
    ensures BusyDiskInv(b')
  {
    MoreNumbersKeepDisk(b.st, b'.st);
    StartIsCompaction(b, event, b');
    NextKeepsDisk(b.st, Compact(event.level, event.in0, event.in1, event.input, event.outs), Result(b'));
  }

  lemma FlushOnResult(b: Busy, event: Event, b': Busy)
    requires BusyInv(b) && b.job.Some? && event.Plain? && event.step.Flush? && NextBusy(b, event, b')
    requires DiskInv(Result(b))
    ensures DiskInv(Result(b'))
  {
    if b.st.imm.value == [] {
      assert Result(b') == Result(b).(imm := None);
    } else {
      var f := FlushedFile(b.st, event.step.size);
      FlushMovesResult(b, event.step.target, f, b');
      PlacedTables(Result(b).levels, event.step.target, f);
    }
    FlushedKeepsDisk(Result(b), Result(b'));
  }

  lemma PlainKeepsDisk(b: Busy, event: Event, b': Busy)
    requires BusyInv(b) && BusyDiskInv(b) && event.Plain? && NextBusy(b, event, b')
    ensures BusyDiskInv(b')
  {
    NextKeepsDisk(b.st, event.step, b'.st);
    if b.job.Some? {
      if event.step.Flush? {
        FlushOnResult(b, event, b');
      } else {
        PlainStepOnResult(b, event.step, b');
        NextKeepsDisk(Result(b), event.step, Result(b'));
      }
    }
  }

  lemma NextKeepsBusyDisk(b: Busy, event: Event, b': Busy)
    requires BusyInv(b) && BusyDiskInv(b) && NextBusy(b, event, b') && EventCoveredOnDisk(b, event)
    ensures BusyDiskInv(b')
  {
    match event
    case Plain(_) => PlainKeepsDisk(b, event, b');
    case Start(_, _, _, _, _) => StartKeepsDisk(b, event, b');
    case Finish =>
  }

  lemma {:induction false} BusyRunsKeepDisk(run: seq<Busy>, events: seq<Event>, i: nat)
    requires IsBusyRun(run, events) && i < |run|
    requires forall k :: 0 <= k < i ==> KeepsClear(run[k], events[k]) && EventCoveredOnDisk(run[k], events[k])
    ensures BusyDiskInv(run[i])
  {
    if i == 0 {
      EmptyLevelsHoldNothing(run[0].st.levels);
      assert Flushed(run[0].st) == {};
    } else {
      BusyRunsKeepDisk(run, events, i - 1);
      BusyRunsKeepInv(run, events, i - 1);
      assert EventAt(run, events, i - 1);
      NextKeepsBusyDisk(run[i - 1], events[i - 1], run[i]);
    }
  }

  /** A crash at any point of such a run leaves a store that is in order and answers every read
      from the writes that had left the memtables. */
  lemma DiskInBusyRun(run: seq<Busy>, events: seq<Event>, i: nat)
    requires IsBusyRun(run, events) && i < |run|
    requires forall k :: 0 <= k < i ==> KeepsClear(run[k], events[k]) && EventCoveredOnDisk(run[k], events[k])
    ensures Inv(Disk(run[i].st)) && ReadsAgree(Disk(run[i].st))
            && Elements(Disk(run[i].st).history) == Flushed(run[i].st)
  {
    BusyRunsKeepDisk(run, events, i);
    BusyRunsKeepInv(run, events, i);
    DiskIsStore(run[i].st);
  }
}
