/** A deleted key can come back. The inputs of a compaction are closed at their boundary
    on the upper level only, so a user key can straddle two files of the lower level with
    one of them left out; dropping the deletion marker then uncovers the older value.
    This module gives a run, from the empty store, in which that happens. Its flushes go where
    PickLevelForMemTableOutput sends them and its compactions are automatic ones. */
module Resurrection {
  import opened Wrappers
  import opened InternalKeys
  import opened TableFiles
  import opened CompactionInputs
  import opened CompactionWork
  import opened VersionEdits
  import opened LsmLevels
  import opened Store
  import opened CompactionReads
  import opened StoreReads
  import opened MemtableFlush
  import opened BackgroundCompactions

  const APPLE: UserKey := 1
  const PEAR: UserKey := 2

  /** A value that fills a table file on its own, so that the first compaction ends an output
      file behind it. */
  const BIG: string := seq(0x20_0000, _ => 'x')

  const A1 := Entry(InternalKey(APPLE, 1, Put), "a1")
  const A2 := Entry(InternalKey(APPLE, 2, Put), "a2")
  const P3 := Entry(InternalKey(PEAR, 3, Put), "pear")
  const P4 := Entry(InternalKey(PEAR, 4, Put), BIG)
  const P5 := Entry(InternalKey(PEAR, 5, Deletion), "")
  const A6 := Entry(InternalKey(APPLE, 6, Put), "a6")

  // Three flushed memtables and what the two compactions write.
  const E := TableFile(2, 1, [A1])
  const F := TableFile(3, 4, [A2, P5, P4, P3])
  const X := TableFile(4, 3, [A2, P5, P4])
  const Y := TableFile(5, 1, [P3])
  const H := TableFile(6, 1, [A6])
  const K := TableFile(7, 1, [A6])

  function Levels(l1: seq<File>, l2: seq<File>): seq<seq<File>> {
    [[], l1, l2, [], [], [], []]
  }

  const H3 := [A1, A2, P3]
  const H5 := [A1, A2, P3, P4, P5]
  const H6 := [A1, A2, P3, P4, P5, A6]

  const STATES: seq<Store> := [
    Store([], None, Levels([], []), 0, 2, [], []),
    Store([A1], None, Levels([], []), 1, 2, [], [A1]),
    Store([], Some([A1]), Levels([], []), 1, 2, [], [A1]),
    Store([], None, Levels([], [E]), 1, 3, [], [A1]),
    Store([A2], None, Levels([], [E]), 2, 3, [], [A1, A2]),
    Store([A2, P3], None, Levels([], [E]), 3, 3, [], H3),
    Store([A2, P3], None, Levels([], [E]), 3, 3, [3], H3),
    Store([A2, P4, P3], None, Levels([], [E]), 4, 3, [3], H3 + [P4]),
    Store([A2, P5, P4, P3], None, Levels([], [E]), 5, 3, [3], H5),
    Store([], Some([A2, P5, P4, P3]), Levels([], [E]), 5, 3, [3], H5),
    Store([], None, Levels([F], [E]), 5, 4, [3], H5),
    Store([], None, Levels([], [X, Y]), 5, 6, [3], H5),
    Store([], None, Levels([], [X, Y]), 5, 6, [], H5),
    Store([A6], None, Levels([], [X, Y]), 6, 6, [], H6),
    Store([], Some([A6]), Levels([], [X, Y]), 6, 6, [], H6),
    Store([], None, Levels([H], [X, Y]), 6, 7, [], H6),
    Store([], None, Levels([], [K, Y]), 6, 8, [], H6)
  ]

  /** Apple is written and flushed to level 2; apple and pear are written, a snapshot is taken,
      pear is written again and deleted, and all this is flushed to level 1; a compaction splits
      pear over two files of level 2; the snapshot goes; apple is written and flushed once more;
      the next compaction takes the first of the two files. */
  const STEPS: seq<Step> := [
    Write(APPLE, Put, "a1"),
    SwitchMemtable,
    Flush(2, 1),
    Write(APPLE, Put, "a2"),
    Write(PEAR, Put, "pear"),
    TakeSnapshot,
    Write(PEAR, Put, BIG),
    Write(PEAR, Deletion, ""),
    SwitchMemtable,
    Flush(1, 4),
    Compact(1, [F], [E], [A2, A1, P5, P4, P3], [X, Y]),
    ReleaseSnapshot(0),
    Write(APPLE, Put, "a6"),
    SwitchMemtable,
    Flush(1, 1),
    Compact(1, [H], [X], [A6, A2, P5, P4], [K])
  ]

  // ---- Writes and flushes ----

  /** Inserting between what sorts before and what does not. */
  lemma InsertIs(a: seq<Entry>, e: Entry, b: seq<Entry>)
    requires forall x :: x in a ==> x.ikey.Less(e.ikey)
    requires b != [] ==> !b[0].ikey.Less(e.ikey)
    ensures InsertEntry(a + b, e) == a + [e] + b
  {
    var t := a + b;
    var i := SeekIndex(t, e.ikey);
    assert forall j :: 0 <= j < |a| ==> t[j] == a[j];
    assert b != [] ==> t[|a|] == b[0];
    assert i == |a|;
  }

  lemma AppleWrites()
    ensures Next(STATES[0], STEPS[0], STATES[1]) && Next(STATES[3], STEPS[3], STATES[4])
  {
    InsertIs([], A1, []);
    InsertIs([], A2, []);
    assert [] + [A1] + [] == [A1] && [] + [A2] + [] == [A2];
  }

  lemma LastWrite()
    ensures Next(STATES[12], STEPS[12], STATES[13])
  {
    InsertIs([], A6, []);
    assert [] + [A6] + [] == [A6];
    assert H5 + [A6] == H6;
  }

  lemma FirstPearWrite()
    ensures Next(STATES[4], STEPS[4], STATES[5])
  {
    InsertIs([A2], P3, []);
    assert [A2] + [] == [A2] && [A2] + [P3] + [] == [A2, P3];
  }

  lemma SecondPearWrite()
    ensures Next(STATES[6], STEPS[6], STATES[7])
  {
    InsertIs([A2], P4, [P3]);
    assert [A2] + [P3] == [A2, P3] && [A2] + [P4] + [P3] == [A2, P4, P3];
  }

  lemma PearDelete()
    ensures Next(STATES[7], STEPS[7], STATES[8])
  {
    InsertIs([A2], P5, [P4, P3]);
    assert [A2] + [P4, P3] == [A2, P4, P3] && [A2] + [P5] + [P4, P3] == [A2, P5, P4, P3];
    assert H3 + [P4] + [P5] == H5;
  }

  lemma SwitchesAndSnapshots()
    ensures Next(STATES[1], STEPS[1], STATES[2]) && Next(STATES[5], STEPS[5], STATES[6])
            && Next(STATES[8], STEPS[8], STATES[9])
    ensures Next(STATES[11], STEPS[11], STATES[12]) && Next(STATES[13], STEPS[13], STATES[14])
  {
    assert [3][..0] + [3][1..] == [];
  }

  lemma AddToEmpty(f: File)
    ensures Edited([], {}, [f]) == [f]
  {
    EditedIs([], {}, [f], [f]);
  }

  lemma FirstFlush()
    ensures Next(STATES[2], STEPS[2], STATES[3])
  {
    AddToEmpty(E);
    assert Placed(Levels([], []), 2, E) == Levels([], [E]);
  }

  lemma SecondFlush()
    ensures Next(STATES[9], STEPS[9], STATES[10])
  {
    AddToEmpty(F);
    assert Placed(Levels([], [E]), 1, F) == Levels([F], [E]);
  }

  lemma ThirdFlush()
    ensures Next(STATES[14], STEPS[14], STATES[15])
  {
    AddToEmpty(H);
    assert Placed(Levels([], [X, Y]), 1, H) == Levels([H], [X, Y]);
  }

  /** The flushes land where the code sends them: level 2 while nothing is there, level 1 once
      a file of level 2 meets the range. */
  lemma FlushesAreChosen()
    ensures FlushChosen(STATES[2], STEPS[2], 100) && FlushChosen(STATES[9], STEPS[9], 100)
            && FlushChosen(STATES[14], STEPS[14], 100)
  {
    assert Overlapping([], Span(E)) == [] && Overlapping([], Span(F)) == [] && Overlapping([], Span(H)) == [];
    assert [E][..0] == [] && Overlapping([E], Span(F)) == [E];
    assert E in [E] && X in [X, Y] && Overlaps(E, Span(F)) && Overlaps(X, Span(H));
    BytesBelow();
  }

  lemma BytesBelow()
    ensures TotalFileSize(Overlapping([E], Span(F))) <= 100 && TotalFileSize(Overlapping([X, Y], Span(H))) <= 100
  {
    assert [E][..0] == [] && Overlapping([E], Span(F)) == [E];
    LowerInputOfSecond();
  }

  // ---- The files ----

  lemma FilesAreValid()
    ensures ValidFile(E) && ValidFile(F) && ValidFile(X) && ValidFile(Y) && ValidFile(H) && ValidFile(K)
  {
    assert forall e :: e in F.entries ==> e == A2 || e == P5 || e == P4 || e == P3;
    assert forall e :: e in X.entries ==> e == A2 || e == P5 || e == P4;
  }

  lemma LowerInputOfFirst()
    ensures Overlapping([E], Range(Some(APPLE), Some(PEAR))) == [E]
  {
    assert [E][..0] == [];
  }

  lemma LowerInputOfSecond()
    ensures Overlapping([X, Y], Range(Some(APPLE), Some(APPLE))) == [X] && Overlapping([X, Y], Span(H)) == [X]
  {
    assert [X, Y][..1] == [X] && [X][..0] == [];
    assert Overlapping([X], Range(Some(APPLE), Some(APPLE))) == [X];
  }

  /** The only file of level 1 is a good start, with nothing to add. */
  lemma LoneFilePicked(f: File, levels: seq<seq<File>>, lower: seq<File>)
    requires |levels| == NUM_LEVELS && levels[1] == [f] && ValidFile(f)
    requires lower == Overlapping(levels[2], Range(Some(f.smallest.user), Some(f.largest.user)))
    ensures Picked(levels, 1, [f], lower)
  {
    FileEnds(f);
    assert AreNeighbours(levels[1], 0, [f]);
    assert forall g :: g in [f] ==> g == f;
  }

  // ---- The first compaction ----

  lemma FirstInput()
    ensures Sorted([A2, A1, P5, P4, P3]) && Elements([A2, A1, P5, P4, P3]) == FileEntries([F] + [E])
  {
    assert [F] + [E] == [F, E] && F in [F, E] && E in [F, E];
    assert A2 in F.entries && P5 in F.entries && P4 in F.entries && P3 in F.entries && A1 in E.entries;
  }

  /** Only the old apple goes: pear's versions are newer than the snapshot, or shown by it. */
  lemma FirstDrops()
    ensures var levels, input := Levels([F], [E]), [A2, A1, P5, P4, P3];
            && Dropped(levels, 1, input, 3, A1) && !Dropped(levels, 1, input, 3, A2)
            && !Dropped(levels, 1, input, 3, P5) && !Dropped(levels, 1, input, 3, P4)
               && !Dropped(levels, 1, input, 3, P3)
  {
    assert A2 in [A2, A1, P5, P4, P3];
  }

  lemma FirstSurvivors()
    ensures var input := [A2, A1, P5, P4, P3]; Survivors(Levels([F], [E]), 1, input, 3, input) == [A2, P5, P4, P3]
  {
    var levels, input := Levels([F], [E]), [A2, A1, P5, P4, P3];
    FirstDrops();
    SurvivorsStep(levels, 1, input, 3, [], A2);
    SurvivorsStep(levels, 1, input, 3, [A2], A1);
    SurvivorsStep(levels, 1, input, 3, [A2, A1], P5);
    SurvivorsStep(levels, 1, input, 3, [A2, A1, P5], P4);
    SurvivorsStep(levels, 1, input, 3, [A2, A1, P5, P4], P3);
    assert [] + [A2] == [A2] && [A2] + [A1] == [A2, A1] && [A2, A1] + [P5] == [A2, A1, P5];
    assert [A2, A1, P5] + [P4] == [A2, A1, P5, P4] && [A2, A1, P5, P4] + [P3] == input;
  }

  lemma FirstChunks()
    ensures Flatten(Chunks([X, Y])) == [A2, P5, P4, P3]
  {
    var chunks := Chunks([X, Y]);
    assert chunks == [[A2, P5, P4], [P3]];
    assert chunks[..1] == [[A2, P5, P4]] && chunks[..1][..0] == [];
    assert Flatten(chunks[..1]) == [A2, P5, P4];
  }

  lemma FirstInstall()
    ensures Install(Levels([F], [E]), 1, [F], [E], [X, Y]) == Levels([], [X, Y])
  {
    EditedIs([F], Numbers([F]), [], []);
    FirstLower();
  }

  lemma FirstLower()
    ensures Edited([E], Numbers([E]) - Numbers([X, Y]), [X, Y]) == [X, Y]
  {
    assert E in [E] && X in [X, Y] && Y in [X, Y];
    EditedIs([E], Numbers([E]) - Numbers([X, Y]), [X, Y], [X, Y]);
  }

  lemma FirstPick()
    ensures Picked(Levels([F], [E]), 1, [F], [E])
  {
    FilesAreValid();
    LowerInputOfFirst();
    LoneFilePicked(F, Levels([F], [E]), [E]);
  }

  lemma FirstCompaction()
    ensures Next(STATES[10], STEPS[10], STATES[11])
  {
    FirstPick();
    FirstInput();
    FirstSurvivors();
    FirstChunks();
    FirstInstall();
  }

  /** The first compaction drops no deletion marker. */
  lemma FirstCompactionCovered()
    ensures StepCovered(STATES[10], STEPS[10])
  {
    FirstDrops();
  }

  // ---- The second compaction ----

  lemma SecondInput()
    ensures Sorted([A6, A2, P5, P4]) && Elements([A6, A2, P5, P4]) == FileEntries([H] + [X])
  {
    assert [H] + [X] == [H, X] && H in [H, X] && X in [H, X];
    assert A6 in H.entries && A2 in X.entries && P5 in X.entries && P4 in X.entries;
  }

  lemma PearIsBase()
    ensures IsBase(Levels([H], [X, Y]), 1, PEAR)
  {
  }

  lemma SecondDrops()
    ensures var levels, input := Levels([H], [X, Y]), [A6, A2, P5, P4];
            && !Dropped(levels, 1, input, 6, A6) && Dropped(levels, 1, input, 6, A2)
            && Dropped(levels, 1, input, 6, P5) && Dropped(levels, 1, input, 6, P4)
  {
    PearIsBase();
    assert A6 in [A6, A2, P5, P4] && P5 in [A6, A2, P5, P4];
  }

  lemma SecondSurvivors()
    ensures var input := [A6, A2, P5, P4]; Survivors(Levels([H], [X, Y]), 1, input, 6, input) == [A6]
  {
    var levels, input := Levels([H], [X, Y]), [A6, A2, P5, P4];
    SecondDrops();
    SurvivorsStep(levels, 1, input, 6, [], A6);
    SurvivorsStep(levels, 1, input, 6, [A6], A2);
    SurvivorsStep(levels, 1, input, 6, [A6, A2], P5);
    SurvivorsStep(levels, 1, input, 6, [A6, A2, P5], P4);
    assert [] + [A6] == [A6] && [A6] + [A2] == [A6, A2] && [A6, A2] + [P5] == [A6, A2, P5]
           && [A6, A2, P5] + [P4] == input;
  }

  lemma SecondChunks()
    ensures Flatten(Chunks([K])) == [A6]
  {
    assert Chunks([K]) == [[A6]] && [[A6]][..0] == [];
  }

  lemma SecondInstall()
    ensures Install(Levels([H], [X, Y]), 1, [H], [X], [K]) == Levels([], [K, Y])
  {
    EditedIs([H], Numbers([H]), [], []);
    SecondLower();
  }

  lemma SecondLower()
    ensures Edited([X, Y], Numbers([X]) - Numbers([K]), [K]) == [K, Y]
  {
    assert X in [X] && K in [K];
    EditedIs([X, Y], Numbers([X]) - Numbers([K]), [K], [K, Y]);
  }

  lemma SecondPick()
    ensures Picked(Levels([H], [X, Y]), 1, [H], [X])
  {
    FilesAreValid();
    LowerInputOfSecond();
    LoneFilePicked(H, Levels([H], [X, Y]), [X]);
  }

  lemma SecondCompaction()
    ensures Next(STATES[15], STEPS[15], STATES[16])
  {
    SecondPick();
    SecondInput();
    SecondSurvivors();
    SecondChunks();
    SecondInstall();
  }

  // ---- The run ----

  lemma EarlySteps(i: nat)
    requires i < 8
    ensures Next(STATES[i], STEPS[i], STATES[i + 1])
  {
    if i == 2 {
      FirstFlush();
    } else if i == 4 {
      FirstPearWrite();
    } else if i == 6 {
      SecondPearWrite();
    } else if i == 7 {
      PearDelete();
    } else if i == 0 || i == 3 {
      AppleWrites();
    } else {
      SwitchesAndSnapshots();
    }
  }

  lemma LateSteps(i: nat)
    requires i == 8 || i == 9 || 11 <= i < 15
    ensures Next(STATES[i], STEPS[i], STATES[i + 1])
  {
    if i == 9 {
      SecondFlush();
    } else if i == 12 {
      LastWrite();
    } else if i == 14 {
      ThirdFlush();
    } else {
      SwitchesAndSnapshots();
    }
  }

  lemma TheRun()
    ensures IsRunOf(STATES, STEPS)
  {
    assert Levels([], []) == seq(NUM_LEVELS, _ => []);
    forall i | 0 <= i < |STEPS|
      ensures Next(STATES[i], STEPS[i], STATES[i + 1])
    {
      if i < 8 {
        EarlySteps(i);
      } else if i == 10 {
        FirstCompaction();
      } else if i == 15 {
        SecondCompaction();
      } else {
        LateSteps(i);
      }
    }
  }

  /** Both compactions are what BackgroundCompaction makes of an automatic choice of the only
      file of level 1; neither is a trivial move. */
  lemma CompactionsAreChosen()
    ensures ChosenStep(STATES[10], Automatic(1, 0), 100, STEPS[10])
            && ChosenStep(STATES[15], Automatic(1, 0), 100, STEPS[15])
  {
  }

  lemma PearsInHistory(e: Entry)
    requires e in H6 && e.ikey.user == PEAR
    ensures e.ikey.sequence <= 5
  {
  }

  lemma DeletionIsStored()
    ensures P5 in Contents(STATES[15])
  {
    var st := STATES[15];
    assert P5 in X.entries && X in st.levels[2];
    EntryIsInTables(st.levels, 2, X, P5);
  }

  lemma DeletionIsNewest()
    requires Contents(STATES[15]) <= Elements(H6)
    ensures IsNewest(Contents(STATES[15]), PEAR, 6, P5)
  {
    DeletionIsStored();
    forall e | e in Contents(STATES[15]) && Visible(e, PEAR, 6)
      ensures e.ikey.sequence <= 5
    {
      PearsInHistory(e);
    }
  }

  lemma StoredIsWritten()
    ensures Contents(STATES[15]) <= Elements(H6)
  {
    TheRun();
    RunsKeepInv(STATES, STEPS, 15);
  }

  lemma ValueLeftBelow()
    ensures IsNextBelow(STATES[15].levels, 1, [X], P5, P3)
  {
    var levels := STATES[15].levels;
    assert Y in levels[2] && P3 in Y.entries;
    assert LeftIn(levels[2], [X], Y);
  }

  lemma EarlierStepsAreCovered()
    ensures forall i :: 0 <= i < 15 ==> StepCovered(STATES[i], STEPS[i])
  {
    FirstCompactionCovered();
    forall i | 0 <= i < 15
      ensures StepCovered(STATES[i], STEPS[i])
    {
      assert i != 10 ==> !STEPS[i].Compact?;
    }
  }

  lemma HistorySaysDeleted()
    ensures Inv(STATES[15])
    ensures View(Elements(STATES[15].history), PEAR, 6) == View(Contents(STATES[15]), PEAR, 6)
  {
    TheRun();
    EarlierStepsAreCovered();
    RunsKeepReads(STATES, STEPS, 15);
  }

  lemma MarkerIsDropped()
    ensures Resurrects(STATES[15], 1, [X], [A6, A2, P5, P4], P5, P3)
  {
    PearIsBase();
    StoredIsWritten();
    DeletionIsNewest();
    ValueLeftBelow();
    assert P5 in [A6, A2, P5, P4];
  }

  /** After the run the deleted key reads as present, although the history says it is
      deleted: the read property fails for this uncovered compaction, which the code picks. */
  lemma DeletedKeyComesBack()
    ensures IsRunOf(STATES, STEPS)
    ensures forall i :: 0 <= i < 15 ==> StepCovered(STATES[i], STEPS[i])
    ensures ChosenStep(STATES[15], Automatic(1, 0), 100, STEPS[15])
    ensures View(Elements(STATES[16].history), PEAR, STATES[16].lastSequence) == None
    ensures View(Contents(STATES[16]), PEAR, STATES[16].lastSequence) == Some("pear")
  {
    TheRun();
    EarlierStepsAreCovered();
    CompactionsAreChosen();
    HistorySaysDeleted();
    MarkerIsDropped();
    SecondCompaction();
    ResurrectionChangesView(STATES[15], 1, [H], [X], [A6, A2, P5, P4], [K], STATES[16], P5, P3);
  }
}
