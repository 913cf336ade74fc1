/** What a crash leaves of the store: its tables. They answer reads as the writes that have
    reached them do. */
module StoreDisks {
  import opened Wrappers
  import opened InternalKeys
  import opened TableFiles
  import opened LsmLevels
  import opened Store
  import opened CompactionReads
  import opened StoreReads

  /** The writes that are no longer in a memtable. */
  ghost function Flushed(st: Store): set<Entry> { Elements(st.history) - Elements(st.mem) - ImmEntries(st) }

  ghost predicate TablesAgree(st: Store) {
    forall user, s :: SmallestSnapshot(st) <= s ==> View(Tables(st.levels), user, s) == View(Flushed(st), user, s)
  }

  ghost predicate DiskInv(st: Store) {
    TablesAgree(st) && AllNewer(Elements(st.mem), Flushed(st)) && AllNewer(ImmEntries(st), Flushed(st))
  }

  // ---- Steps ----

  lemma SameFlushed(st: Store, st': Store)
    requires DiskInv(st) && st'.levels == st.levels && Flushed(st') == Flushed(st)
             && SmallestSnapshot(st) <= SmallestSnapshot(st')
    requires AllNewer(Elements(st'.mem), Flushed(st)) && AllNewer(ImmEntries(st'), Flushed(st))
    ensures DiskInv(st')
  {
  }

  lemma HistoryIsBelow(st: Store)
    requires HistoryOk(st)
    ensures forall x :: x in Elements(st.history) ==> x.ikey.sequence <= st.lastSequence
  {
  }

  lemma WriteKeepsDisk(st: Store, step: Step, st': Store)
    requires Inv(st) && DiskInv(st) && step.Write? && Next(st, step, st')
    ensures DiskInv(st')
  {
    var e := st'.history[|st.history|];
    InsertKept(st, e, st');
    HistoryIsBelow(st);
    assert Elements(st'.history) == Elements(st.history) + {e};
    assert e !in Elements(st.history);
    assert Flushed(st') == Flushed(st);
    SameFlushed(st, st');
  }

  lemma InsertKept(st: Store, e: Entry, st': Store)
    requires Inv(st) && e.ikey.sequence == st.lastSequence + 1 && st'.mem == InsertEntry(st.mem, e)
    ensures Elements(st'.mem) == Elements(st.mem) + {e}
  {
    ContentsAreOlder(st);
    assert forall x :: x in st.mem ==> x in Contents(st);
    InsertKeepsSorted(st.mem, e);
  }

  /** Newer entries on top of two sets that answer alike. */
  lemma {:induction false} NewerOnTop(a: set<Entry>, b: set<Entry>, top: set<Entry>, user: UserKey, s: nat)
    requires Unique(a + top) && Unique(b + top) && AllNewer(top, a) && AllNewer(top, b)
    requires View(a, user, s) == View(b, user, s)
    ensures View(a + top, user, s) == View(b + top, user, s)
  {
    var r := Newest(top, user, s);
    if r.None? {
      NothingOnTop(a, top, user, s);
      NothingOnTop(b, top, user, s);
    } else {
      TopIsRead(a, top, user, s);
      TopIsRead(b, top, user, s);
    }
  }

  lemma NothingOnTop(a: set<Entry>, top: set<Entry>, user: UserKey, s: nat)
    requires Unique(a + top) && Newest(top, user, s).None?
    ensures Newest(a + top, user, s) == Newest(a, user, s)
  {
    ReadIsDetermined(a + top, user, s, Newest(a + top, user, s), Newest(a, user, s));
  }

  lemma TopIsRead(a: set<Entry>, top: set<Entry>, user: UserKey, s: nat)
    requires Unique(a + top) && AllNewer(top, a) && Newest(top, user, s).Some?
    ensures Newest(a + top, user, s) == Newest(top, user, s)
  {
    ReadIsDetermined(a + top, user, s, Newest(a + top, user, s), Newest(top, user, s));
  }

  lemma TablesAreFlushed(st: Store)
    requires Inv(st)
    ensures Tables(st.levels) <= Flushed(st)
  {
    forall x | x in Tables(st.levels)
      ensures x in Flushed(st)
    {
      assert x in Contents(st);
      assert x !in Elements(st.mem) && x !in ImmEntries(st);
    }
  }

  /** A flush moves the immutable memtable's entries to the tables, wherever they land there. */
  lemma FlushedKeepsDisk(st: Store, st': Store)
    requires Inv(st) && DiskInv(st) && Tables(st'.levels) == Tables(st.levels) + ImmEntries(st)
    requires st'.mem == st.mem && st'.imm == None && st'.history == st.history
             && SmallestSnapshot(st) <= SmallestSnapshot(st')
    ensures DiskInv(st')
  {
    FlushedMore(st, st');
    StoreIsUnique(st);
    HistoryIsUnique(st);
    forall user, s | SmallestSnapshot(st') <= s
      ensures View(Tables(st'.levels), user, s) == View(Flushed(st'), user, s)
    {
      NewerOnTop(Tables(st.levels), Flushed(st), ImmEntries(st), user, s);
    }
  }

  lemma FlushKeepsDisk(st: Store, step: Step, st': Store)
    requires Inv(st) && DiskInv(st) && step.Flush? && Next(st, step, st')
    ensures DiskInv(st')
  {
    FlushMovesEntries(st, step, st');
    FlushedKeepsDisk(st, st');
  }

  lemma FlushMovesEntries(st: Store, step: Step, st': Store)
    requires step.Flush? && Next(st, step, st')
    ensures Tables(st'.levels) == Tables(st.levels) + ImmEntries(st)
  {
    if st.imm.value != [] {
      PlacedTables(st.levels, step.target, TableFile(st.nextFile, step.size, st.imm.value));
    }
  }

  lemma FlushedMore(st: Store, st': Store)
    requires Inv(st) && st'.mem == st.mem && st'.imm == None && st'.history == st.history && DiskInv(st)
    ensures Flushed(st') == Flushed(st) + ImmEntries(st)
    ensures AllNewer(Elements(st'.mem), Flushed(st')) && AllNewer(ImmEntries(st'), Flushed(st'))
  {
    assert ImmEntries(st) <= Contents(st);
    assert forall x :: x in ImmEntries(st) ==> x !in Elements(st.mem);
  }

  /** Without its memtables. */
  function Bare(st: Store): Store { st.(mem := [], imm := None) }

  lemma BareInv(st: Store)
    requires Inv(st)
    ensures Inv(Bare(st)) && Contents(Bare(st)) == Tables(st.levels)
  {
  }

  /** The compaction uncovers nothing, not even what only a memtable hides. */
  ghost predicate StepCoveredOnDisk(st: Store, step: Step) { StepCovered(Bare(st), step) }

  lemma CoveredOnDiskIsCovered(st: Store, step: Step)
    requires Inv(st) && step.Compact? && StepCoveredOnDisk(st, step)
             && CompactOk(st, step.level, step.in0, step.in1, step.input, step.outs)
    ensures StepCovered(st, step)
  {
    BareInv(st);
    forall t, v
      ensures !Resurrects(st, step.level, step.in1, step.input, t, v)
    {
      if Resurrects(st, step.level, step.in1, step.input, t, v) {
        InputIsInTables(st, step, t);
        assert Resurrects(Bare(st), step.level, step.in1, step.input, t, v);
      }
    }
  }

  lemma InputIsInTables(st: Store, step: Step, t: Entry)
    requires Inv(st) && step.Compact? && CompactOk(st, step.level, step.in0, step.in1, step.input, step.outs)
             && t in step.input
    ensures t in Tables(st.levels)
  {
    assert t in Elements(step.input);
    BareInv(st);
    InputsAreTables(Bare(st), step.level, step.in0, step.in1);
  }

  lemma CompactKeepsDisk(st: Store, step: Step, st': Store)
    requires Inv(st) && DiskInv(st) && step.Compact? && Next(st, step, st') && StepCoveredOnDisk(st, step)
    ensures DiskInv(st')
  {
    BareInv(st);
    BareCompacts(st, step, st');
    forall user, s | SmallestSnapshot(st') <= s
      ensures View(Tables(st'.levels), user, s) == View(Flushed(st'), user, s)
    {
      CoveredKeepsView(Bare(st), step.level, step.in0, step.in1, step.input, step.outs, Bare(st'), user, s);
    }
  }

  lemma SameCompactOk(st: Store, bare: Store, level: nat, in0: seq<File>, in1: seq<File>, input: seq<Entry>,
                      outs: seq<File>)
    requires CompactOk(st, level, in0, in1, input, outs)
    requires bare.levels == st.levels && bare.nextFile == st.nextFile && SmallestSnapshot(bare) == SmallestSnapshot(st)
    ensures CompactOk(bare, level, in0, in1, input, outs)
  {
    assert CompactionOutputs(bare, level, input, outs);
  }

  lemma BareCompacts(st: Store, step: Step, st': Store)
    requires step.Compact? && Next(st, step, st')
    ensures Next(Bare(st), step, Bare(st'))
    ensures Contents(Bare(st)) == Tables(st.levels) && Contents(Bare(st')) == Tables(st'.levels)
  {
    SameCompactOk(st, Bare(st), step.level, step.in0, step.in1, step.input, step.outs);
  }

  lemma MoveKeepsDisk(st: Store, step: Step, st': Store)
    requires Inv(st) && DiskInv(st) && step.Move? && Next(st, step, st')
    ensures DiskInv(st')
  {
    MovedFileIsGood(st.levels, step.level, step.file);
    MoveKeepsTables(st.levels, step.level, step.file);
  }

  lemma NextKeepsDisk(st: Store, step: Step, st': Store)
    requires Inv(st) && DiskInv(st) && Next(st, step, st') && StepCoveredOnDisk(st, step)
    ensures DiskInv(st')
  {
    match step
    case Write(_, _, _) => WriteKeepsDisk(st, step, st');
    case Flush(_, _) => FlushKeepsDisk(st, step, st');
    case Move(_, _) => MoveKeepsDisk(st, step, st');
    case Compact(_, _, _, _, _) => CompactKeepsDisk(st, step, st');
    case _ => OtherKeepsDisk(st, step, st');
  }

  lemma OtherKeepsDisk(st: Store, step: Step, st': Store)
    requires Inv(st) && DiskInv(st) && Next(st, step, st')
    requires step.SwitchMemtable? || step.TakeSnapshot? || step.ReleaseSnapshot? || step.UseUp?
    ensures DiskInv(st')
  {
    if step.TakeSnapshot? || step.ReleaseSnapshot? {
      SnapshotStepsKeepInv(st, step, st');
    }
    assert Flushed(st') == Flushed(st);
    SameFlushed(st, st');
  }

  /** In every run whose compactions are covered, the tables alone answer for what was flushed. */
  lemma {:induction false} RunsKeepDisk(states: seq<Store>, steps: seq<Step>, i: nat)
    requires IsRunOf(states, steps) && i < |states|
    requires forall j :: 0 <= j < i ==> StepCoveredOnDisk(states[j], steps[j])
    ensures DiskInv(states[i])
  {
    if i == 0 {
      EmptyLevelsHoldNothing(states[0].levels);
      assert Flushed(states[0]) == {};
    } else {
      RunsKeepDisk(states, steps, i - 1);
      RunsKeepInv(states, steps, i - 1);
      NextKeepsDisk(states[i - 1], steps[i - 1], states[i]);
    }
  }

  // ---- The disk as a store ----

  function Keep(history: seq<Entry>, lost: set<Entry>): (kept: seq<Entry>)
    ensures forall e :: e in kept <==> e in history && e !in lost
  {
    if history == [] then []
    else
      var n := |history| - 1;
      assert history == history[..n] + [history[n]];
      var kept := Keep(history[..n], lost);
      if history[n] in lost then kept else kept + [history[n]]
  }

  ghost predicate Ascending(es: seq<Entry>) {
    forall i, j :: 0 <= i < j < |es| ==> es[i].ikey.sequence < es[j].ikey.sequence
  }

  lemma {:induction false} KeepAscends(history: seq<Entry>, lost: set<Entry>)
    requires Ascending(history)
    ensures Ascending(Keep(history, lost))
  {
    if history != [] {
      var n := |history| - 1;
      KeepAscends(history[..n], lost);
      assert forall e :: e in Keep(history[..n], lost) ==> e.ikey.sequence < history[n].ikey.sequence;
    }
  }

  function LastOf(es: seq<Entry>): nat { if es == [] then 0 else es[|es| - 1].ikey.sequence }

  lemma LastIsLargest(es: seq<Entry>)
    requires Ascending(es)
    ensures forall e :: e in es ==> e.ikey.sequence <= LastOf(es)
  {
  }

  /** A store that lost its memtables, and with them the writes that were only there. */
  ghost function Disk(st: Store): Store {
    var kept := Keep(st.history, Elements(st.mem) + ImmEntries(st));
    Store([], None, st.levels, LastOf(kept), st.nextFile, [], kept)
  }

  lemma DiskHistoryOk(st: Store)
    requires HistoryOk(st)
    ensures HistoryOk(Disk(st)) && Elements(Disk(st).history) == Flushed(st)
  {
    var kept := Disk(st).history;
    KeepAscends(st.history, Elements(st.mem) + ImmEntries(st));
    forall e | e in kept
      ensures 1 <= e.ikey.sequence <= st.lastSequence
    {
      var i :| 0 <= i < |st.history| && st.history[i] == e;
    }
    LastIsLargest(kept);
    assert forall i :: 0 <= i < |kept| ==> kept[i] in kept;
  }

  lemma DiskKeepsInv(st: Store)
    requires Inv(st)
    ensures Inv(Disk(st)) && Contents(Disk(st)) == Tables(st.levels) <= Flushed(st)
  {
    DiskHistoryOk(st);
    TablesAreFlushed(st);
    assert Contents(Disk(st)) == Tables(st.levels);
  }

  /** It is in order, and answers every read from the writes that it kept. */
  lemma DiskIsStore(st: Store)
    requires Inv(st) && DiskInv(st)
    ensures Inv(Disk(st)) && ReadsAgree(Disk(st)) && Elements(Disk(st).history) == Flushed(st)
  {
    DiskKeepsInv(st);
    DiskHistoryOk(st);
    HistoryIsUnique(Disk(st));
    HistoryIsBelow(Disk(st));
    forall user, s | Disk(st).lastSequence <= s
      ensures View(Tables(st.levels), user, s) == View(Flushed(st), user, s)
    {
      AllVisible(st, user, s, if s < SmallestSnapshot(st) then SmallestSnapshot(st) else s);
    }
  }

  /** From the last flushed write on, all snapshots read the tables alike. */
  lemma AllVisible(st: Store, user: UserKey, s: nat, s': nat)
    requires TablesAgree(st) && Tables(st.levels) <= Flushed(st) && Unique(Flushed(st))
    requires (forall e :: e in Flushed(st) ==> e.ikey.sequence <= s) && s <= s' && SmallestSnapshot(st) <= s'
    ensures View(Tables(st.levels), user, s) == View(Flushed(st), user, s)
  {
    SameNewest(Tables(st.levels), user, s, s');
    SameNewest(Flushed(st), user, s, s');
  }

  lemma SameNewest(es: set<Entry>, user: UserKey, s: nat, s': nat)
    requires Unique(es) && (forall e :: e in es ==> e.ikey.sequence <= s) && s <= s'
    ensures View(es, user, s) == View(es, user, s')
  {
    ReadIsDetermined(es, user, s, Newest(es, user, s), Newest(es, user, s'));
  }
}
