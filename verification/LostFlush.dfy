/** A flush inside a compaction can make a key unreadable. The flushed file sinks to the
    level the compaction writes to, into a gap between the inputs; an output file then spans
    that gap, and the binary search of the level looks into the wrong file. This module gives
    a run in which that happens to a manual compaction with a writer beside it. */
module LostFlush {
  import opened Wrappers
  import opened InternalKeys
  import opened TableFiles
  import opened CompactionInputs
  import opened CompactionWork
  import opened VersionEdits
  import opened LsmLevels
  import opened Store
  import opened StoreReads
  import opened MemtableFlush
  import opened InterleavedCompactions
  import opened BackgroundCompactions

  const A1 := Entry(InternalKey(1, 1, Put), "a")
  const C2 := Entry(InternalKey(3, 2, Put), "c")
  const A3 := Entry(InternalKey(1, 3, Put), "aa")
  const C4 := Entry(InternalKey(3, 4, Put), "cc")
  const B5 := Entry(InternalKey(2, 5, Put), "b")

  // Two files on level 2, two on level 1, what their compaction writes, and the flushed file.
  const P := TableFile(2, 1, [A1])
  const Q := TableFile(3, 1, [C2])
  const R := TableFile(4, 1, [A3])
  const S := TableFile(5, 1, [C4])
  const O := TableFile(6, 2, [A3, C4])
  const G := TableFile(7, 1, [B5])

  const INPUT := [A3, A1, C4, C2]
  const H4 := [A1, C2, A3, C4]
  const H5 := [A1, C2, A3, C4, B5]

  function Levels(l1: seq<File>, l2: seq<File>): seq<seq<File>> {
    [[], l1, l2, [], [], [], []]
  }

  function Idle(mem: seq<Entry>, imm: Option<seq<Entry>>, l1: seq<File>, l2: seq<File>, n: nat, next: nat,
                history: seq<Entry>): Busy {
    Busy(Store(mem, imm, Levels(l1, l2), n, next, [], history), None)
  }

  const JOB := Job(1, [R, S], [P, Q], INPUT, [O])

  function Running(mem: seq<Entry>, imm: Option<seq<Entry>>, l2: seq<File>, n: nat, next: nat,
                   history: seq<Entry>): Busy {
    Busy(Store(mem, imm, Levels([R, S], l2), n, next, [], history), Some(JOB))
  }

  const T0 := Idle([], None, [], [], 0, 2, [])
  const T1 := Idle([A1], None, [], [], 1, 2, [A1])
  const T2 := Idle([], Some([A1]), [], [], 1, 2, [A1])
  const T3 := Idle([], None, [], [P], 1, 3, [A1])
  const T4 := Idle([C2], None, [], [P], 2, 3, [A1, C2])
  const T5 := Idle([], Some([C2]), [], [P], 2, 3, [A1, C2])
  const T6 := Idle([], None, [], [P, Q], 2, 4, [A1, C2])
  const T7 := Idle([A3], None, [], [P, Q], 3, 4, [A1, C2, A3])
  const T8 := Idle([], Some([A3]), [], [P, Q], 3, 4, [A1, C2, A3])
  const T9 := Idle([], None, [R], [P, Q], 3, 5, [A1, C2, A3])
  const T10 := Idle([C4], None, [R], [P, Q], 4, 5, H4)
  const T11 := Idle([], Some([C4]), [R], [P, Q], 4, 5, H4)
  const T12 := Idle([], None, [R, S], [P, Q], 4, 6, H4)
  const T13 := Running([], None, [P, Q], 4, 7, H4)
  const T14 := Running([B5], None, [P, Q], 5, 7, H5)
  const T15 := Running([], Some([B5]), [P, Q], 5, 7, H5)
  const T16 := Running([], None, [P, G, Q], 5, 8, H5)
  const T17 := Idle([], None, [], [O, G], 5, 8, H5)

  const START := Start(1, [R, S], [P, Q], INPUT, [O])

  const RUN: seq<Busy> := [T0, T1, T2, T3, T4, T5, T6, T7, T8, T9, T10, T11, T12, T13, T14, T15, T16, T17]

  const EVENTS: seq<Event> := [
    Plain(Write(1, Put, "a")), Plain(SwitchMemtable), Plain(Flush(2, 1)),
    Plain(Write(3, Put, "c")), Plain(SwitchMemtable), Plain(Flush(2, 1)),
    Plain(Write(1, Put, "aa")), Plain(SwitchMemtable), Plain(Flush(1, 1)),
    Plain(Write(3, Put, "cc")), Plain(SwitchMemtable), Plain(Flush(1, 1)),
    START,
    Plain(Write(2, Put, "b")), Plain(SwitchMemtable), Plain(Flush(2, 1)),
    Finish
  ]

  // ---- Writes, switches, flushes ----

  /** The first write into an empty memtable. */
  lemma FirstWrite(b: Busy, e: Entry, b': Busy)
    requires b.st.mem == [] && e.ikey.sequence == b.st.lastSequence + 1 < MAX_SEQUENCE
    requires b' == Busy(b.st.(mem := [e], lastSequence := b.st.lastSequence + 1, history := b.st.history + [e]), b.job)
    ensures NextBusy(b, Plain(Write(e.ikey.user, e.ikey.kind, e.value)), b')
  {
    assert InsertEntry([], e) == [e];
  }

  lemma Write0()
    ensures NextBusy(T0, Plain(Write(1, Put, "a")), T1)
  {
    assert [] + [A1] == [A1];
    FirstWrite(T0, A1, T1);
  }

  lemma Write3()
    ensures NextBusy(T3, Plain(Write(3, Put, "c")), T4)
  {
    assert [A1] + [C2] == [A1, C2];
    FirstWrite(T3, C2, T4);
  }

  lemma Write6()
    ensures NextBusy(T6, Plain(Write(1, Put, "aa")), T7)
  {
    assert [A1, C2] + [A3] == [A1, C2, A3];
    FirstWrite(T6, A3, T7);
  }

  lemma Write9()
    ensures NextBusy(T9, Plain(Write(3, Put, "cc")), T10)
  {
    assert [A1, C2, A3] + [C4] == H4;
    FirstWrite(T9, C4, T10);
  }

  lemma Write13()
    ensures NextBusy(T13, Plain(Write(2, Put, "b")), T14)
  {
    assert H4 + [B5] == H5;
    FirstWrite(T13, B5, T14);
  }

  lemma Switches()
    ensures NextBusy(T1, Plain(SwitchMemtable), T2) && NextBusy(T4, Plain(SwitchMemtable), T5)
    ensures NextBusy(T7, Plain(SwitchMemtable), T8) && NextBusy(T10, Plain(SwitchMemtable), T11)
    ensures NextBusy(T14, Plain(SwitchMemtable), T15)
  {
  }

  /** A flush of one entry into a given level. */
  lemma FlushOne(b: Busy, target: nat, f: File, level: seq<File>, b': Busy)
    requires |b.st.levels| == NUM_LEVELS && target < NUM_LEVELS && b.st.imm.Some? && |b.st.imm.value| == 1
    requires f == TableFile(b.st.nextFile, f.size, b.st.imm.value) && target <= MAX_MEM_COMPACT_LEVEL
    requires b.st.levels[0] == [] && (forall g :: g in b.st.levels[1] ==> !Overlaps(g, Span(f)))
    requires target == 2 ==> forall g :: g in b.st.levels[2] ==> !Overlaps(g, Span(f))
    requires Edited(b.st.levels[target], {}, [f]) == level
    requires b' == Busy(b.st.(imm := None, nextFile := b.st.nextFile + 1, levels := b.st.levels[target := level]),
             b.job)
    ensures NextBusy(b, Plain(Flush(target, f.size)), b')
  {
    var levels := b.st.levels;
    forall l, g: File | 0 <= l <= target && g in levels[l]
      ensures !Overlaps(g, Span(f))
    {
      assert l == 0 || l == 1 || l == 2;
    }
  }

  lemma FilesAreValid()
    ensures ValidFile(P) && ValidFile(Q) && ValidFile(R) && ValidFile(S) && ValidFile(O) && ValidFile(G)
  {
    assert forall e :: e in O.entries ==> e == A3 || e == C4;
  }

  lemma FirstFlush()
    ensures NextBusy(T2, Plain(Flush(2, 1)), T3)
  {
    EditedIs([], {}, [P], [P]);
    FlushOne(T2, 2, P, [P], T3);
  }

  lemma SecondFlush()
    ensures NextBusy(T5, Plain(Flush(2, 1)), T6)
  {
    EditedIs([P], {}, [Q], [P, Q]);
    FlushOne(T5, 2, Q, [P, Q], T6);
  }

  lemma ThirdFlush()
    ensures NextBusy(T8, Plain(Flush(1, 1)), T9)
  {
    EditedIs([], {}, [R], [R]);
    FlushOne(T8, 1, R, [R], T9);
  }

  lemma FourthFlush()
    ensures NextBusy(T11, Plain(Flush(1, 1)), T12)
  {
    EditedIs([R], {}, [S], [R, S]);
    FlushOne(T11, 1, S, [R, S], T12);
  }

  lemma NestedFlush()
    ensures NextBusy(T15, Plain(Flush(2, 1)), T16)
  {
    BetweenPAndQ();
    FlushOne(T15, 2, G, [P, G, Q], T16);
  }

  lemma BetweenPAndQ()
    ensures Edited([P, Q], {}, [G]) == [P, G, Q]
  {
    EditedIs([P, Q], {}, [G], [P, G, Q]);
  }

  // ---- The compaction ----

  lemma LowerInputs()
    ensures Overlapping([P, Q], Range(Some(1), Some(3))) == [P, Q]
  {
    assert [P, Q][..1] == [P] && [P][..0] == [];
    assert Overlapping([P], Range(Some(1), Some(3))) == [P];
  }

  lemma InputsArePicked()
    ensures Picked(Levels([R, S], [P, Q]), 1, [R, S], [P, Q])
  {
    LowerInputs();
    assert AreNeighbours([R, S], 0, [R, S]);
    assert R in [R, S] && S in [R, S];
    assert forall f :: f in [R, S] ==> f == R || f == S;
    forall lo, hi | IsHull([R, S], lo, hi)
      ensures lo == 1 && hi == 3
    {
    }
  }

  lemma InputIsMerged()
    ensures Sorted(INPUT) && Elements(INPUT) == FileEntries([R, S] + [P, Q])
  {
    var files := [R, S] + [P, Q];
    assert files == [R, S, P, Q] && R in files && S in files && P in files && Q in files;
    assert A3 in R.entries && C4 in S.entries && A1 in P.entries && C2 in Q.entries;
  }

  lemma Drops()
    ensures var levels := Levels([R, S], [P, Q]);
            && !Dropped(levels, 1, INPUT, 4, A3) && Dropped(levels, 1, INPUT, 4, A1)
            && !Dropped(levels, 1, INPUT, 4, C4) && Dropped(levels, 1, INPUT, 4, C2)
  {
    assert A3 in INPUT && C4 in INPUT;
  }

  lemma SurvivorsOfInput()
    ensures Survivors(Levels([R, S], [P, Q]), 1, INPUT, 4, INPUT) == [A3, C4]
  {
    var levels := Levels([R, S], [P, Q]);
    Drops();
    SurvivorsStep(levels, 1, INPUT, 4, [], A3);
    SurvivorsStep(levels, 1, INPUT, 4, [A3], A1);
    SurvivorsStep(levels, 1, INPUT, 4, [A3, A1], C4);
    SurvivorsStep(levels, 1, INPUT, 4, [A3, A1, C4], C2);
    assert [] + [A3] == [A3] && [A3] + [A1] == [A3, A1] && [A3, A1] + [C4] == [A3, A1, C4]
           && [A3, A1, C4] + [C2] == INPUT;
  }

  lemma OneOutput()
    ensures Flatten(Chunks([O])) == [A3, C4]
  {
    assert Chunks([O]) == [[A3, C4]] && [[A3, C4]][..0] == [];
  }

  lemma Starts()
    ensures NextBusy(T12, START, T13)
  {
    InputsArePicked();
    InputIsMerged();
    SurvivorsOfInput();
    OneOutput();
  }

  lemma UpperGone()
    ensures Edited([R, S], Numbers([R, S]), []) == []
  {
    assert R in [R, S] && S in [R, S];
    EditedIs([R, S], Numbers([R, S]), [], []);
  }

  lemma LowerReplaced()
    ensures Edited([P, G, Q], Numbers([P, Q]) - Numbers([O]), [O]) == [O, G]
  {
    var deleted := Numbers([P, Q]) - Numbers([O]);
    assert P in [P, Q] && Q in [P, Q] && O in [O];
    assert P.number in deleted && Q.number in deleted && G.number !in deleted;
    EditedIs([P, G, Q], deleted, [O], [O, G]);
  }

  lemma Finishes()
    ensures NextBusy(T16, Finish, T17)
  {
    UpperGone();
    LowerReplaced();
  }

  lemma EarlySteps(i: nat)
    requires i < 3
    ensures NextBusy(RUN[i], EVENTS[i], RUN[i + 1])
  {
    if i == 0 {
      Write0();
    } else if i == 2 {
      FirstFlush();
    } else {
      Switches();
    }
  }

  lemma NextSteps(i: nat)
    requires 3 <= i < 6
    ensures NextBusy(RUN[i], EVENTS[i], RUN[i + 1])
  {
    if i == 3 {
      Write3();
    } else if i == 5 {
      SecondFlush();
    } else {
      Switches();
    }
  }

  lemma MiddleSteps(i: nat)
    requires 6 <= i < 12
    ensures NextBusy(RUN[i], EVENTS[i], RUN[i + 1])
  {
    if i == 6 {
      Write6();
    } else if i == 8 {
      ThirdFlush();
    } else if i == 9 {
      Write9();
    } else if i == 11 {
      FourthFlush();
    } else {
      Switches();
    }
  }

  lemma LateSteps(i: nat)
    requires 13 <= i < 16
    ensures NextBusy(RUN[i], EVENTS[i], RUN[i + 1])
  {
    if i == 13 {
      Write13();
    } else if i == 14 {
      Switches();
    } else {
      NestedFlush();
    }
  }

  lemma TheRun()
    ensures IsBusyRun(RUN, EVENTS)
  {
    assert Levels([], []) == seq(NUM_LEVELS, _ => []);
    forall i | 0 <= i < |EVENTS|
      ensures EventAt(RUN, EVENTS, i)
    {
      if i < 3 {
        EarlySteps(i);
      } else if i < 6 {
        NextSteps(i);
      } else if i < 12 {
        MiddleSteps(i);
      } else if i == 12 {
        Starts();
      } else if i < 16 {
        LateSteps(i);
      } else {
        Finishes();
      }
    }
  }

  // ---- The lost key ----

  /** The nested flush goes where PickLevelForMemTableOutput sends it. */
  lemma NestedFlushIsChosen()
    ensures FlushChosen(T15.st, Flush(2, 1), 100)
  {
    assert Overlapping([], Span(G)) == [];
    assert [P, Q][..1] == [P] && [P][..0] == [];
    assert Overlapping([P], Span(G)) == [] && Overlapping([P, Q], Span(G)) == [];
  }

  /** The earlier flushes sink to level 2 while nothing there meets their key, else to level 1. */
  lemma EarlierFlushesAreChosen()
    ensures FlushChosen(T2.st, Flush(2, 1), 100) && FlushChosen(T5.st, Flush(2, 1), 100)
    ensures FlushChosen(T8.st, Flush(1, 1), 100) && FlushChosen(T11.st, Flush(1, 1), 100)
  {
    FirstTwoAreChosen();
    ThirdIsChosen();
    FourthIsChosen();
  }

  lemma FirstTwoAreChosen()
    ensures FlushChosen(T2.st, Flush(2, 1), 100) && FlushChosen(T5.st, Flush(2, 1), 100)
  {
    assert Overlapping([], Span(P)) == [] && Overlapping([], Span(Q)) == [];
    assert [P][..0] == [] && Overlapping([P], Span(Q)) == [];
  }

  lemma ThirdIsChosen()
    ensures FlushChosen(T8.st, Flush(1, 1), 100)
  {
    assert [P, Q][..1] == [P] && [P][..0] == [];
    assert Overlapping([], Span(R)) == [] && Overlapping([P], Span(R)) == [P];
    assert Overlapping([P, Q], Span(R)) == [P];
    assert P in [P, Q] && Overlaps(P, Span(R));
    assert [P][1..] == [] && TotalFileSize([P]) == 1;
  }

  lemma FourthIsChosen()
    ensures FlushChosen(T11.st, Flush(1, 1), 100)
  {
    assert [P, Q][..1] == [P] && [P][..0] == [] && [] + [Q] == [Q];
    assert Overlapping([], Span(S)) == [] && Overlapping([P], Span(S)) == [];
    assert Overlapping([P, Q], Span(S)) == [Q];
    assert Q in [P, Q] && Overlaps(Q, Span(S)) && !Overlaps(R, Span(S));
    assert [Q][1..] == [] && TotalFileSize([Q]) == 1;
  }

  /** The compaction is what DB::CompactRange makes of the keys 1 to 3 on level 1. */
  lemma CompactionIsChosen()
    ensures ChosenStep(T12.st, Manual(1, Range(Some(1), Some(3)), 1000), 100, Compact(1, [R, S], [P, Q], INPUT, [O]))
  {
    assert R in [R, S] && Overlaps(R, Range(Some(1), Some(3)));
  }

  lemma OutputSpansFile()
    ensures !Apart(O, G) && !Disjoint([O, G])
  {
    assert !O.largest.Less(G.smallest) && !G.largest.Less(O.smallest);
    assert [O, G][0] == O && [O, G][1] == G;
  }

  lemma NotClear()
    ensures !KeepsClear(T15, Plain(Flush(2, 1)))
  {
    OutputSpansFile();
    assert O in JOB.outs && FlushedFile(T15.st, 1) == G;
  }

  /** The binary search on level 2 stops at the file that spans the key and lacks it. */
  lemma SearchMisses()
    ensures SearchLevels(T17.st.levels, 1, 2, 5) == None
  {
    var key := LookupKey(2, 5);
    assert !G.largest.Less(key) && !O.largest.Less(key);
    assert Bisect([O, G], key, 0, 0) == 0 && Bisect([O, G], key, 0, 1) == 0 && Bisect([O, G], key, 0, 2) == 0;
    assert [A3, C4][1..] == [C4] && SeekIndex([C4], key) == 0;
    assert SeekIndex([A3, C4], key) == 1;
    assert TableGet([A3, C4], 2, 5) == None;
    assert SearchSorted([O, G], 2, 5) == None;
    assert SearchSorted([], 2, 5) == None;
    OtherLevelsAreEmpty(3);
  }

  lemma OtherLevelsAreEmpty(l: nat)
    requires 3 <= l
    ensures SearchLevels(T17.st.levels, l, 2, 5) == None
    decreases 7 - l
  {
    if l < 7 {
      assert T17.st.levels[l] == [];
      OtherLevelsAreEmpty(l + 1);
    }
  }

  lemma KeyIsStored()
    ensures B5 in Contents(T17.st)
  {
    assert B5 in G.entries && G in T17.st.levels[2];
    EntryIsInTables(T17.st.levels, 2, G, B5);
  }

  lemma OthersAreClear(i: nat)
    requires i < |EVENTS| && i != 15
    ensures KeepsClear(RUN[i], EVENTS[i])
  {
    if EVENTS[i].Plain? && EVENTS[i].step.Flush? {
      assert i == 2 || i == 5 || i == 8 || i == 11;
    }
  }

  /** After this run key 2 is stored, nothing newer is, and no read finds it. */
  lemma FlushedKeyIsLost()
    ensures IsBusyRun(RUN, EVENTS)
    ensures forall i :: 0 <= i < |EVENTS| && i != 15 ==> KeepsClear(RUN[i], EVENTS[i])
    ensures RUN[12] == T12 && EVENTS[12] == START
    ensures RUN[15] == T15 && EVENTS[15] == Plain(Flush(2, 1))
    ensures FlushChosen(T15.st, Flush(2, 1), 100) && !KeepsClear(T15, Plain(Flush(2, 1)))
    ensures RUN[17] == T17 && IsLost(T17.st, B5)
  {
    TheRun();
    forall i | 0 <= i < |EVENTS| && i != 15
      ensures KeepsClear(RUN[i], EVENTS[i])
    {
      OthersAreClear(i);
    }
    NestedFlushIsChosen();
    NotClear();
    LostInTheEnd();
  }

  /** The newest entry of the store is on a level that is no longer disjoint, and the code's
      search, with nothing in the memtables and on level 0, does not find it. */
  ghost predicate IsLost(st: Store, e: Entry) {
    && st.mem == [] && st.imm == None && |st.levels| == NUM_LEVELS && st.levels[0] == [] && !Disjoint(st.levels[2])
    && e in Contents(st) && e.ikey.sequence == st.lastSequence
    && SearchLevels(st.levels, 1, e.ikey.user, st.lastSequence) == None
  }

  lemma LostInTheEnd()
    ensures IsLost(T17.st, B5)
  {
    OutputSpansFile();
    SearchMisses();
    KeyIsStored();
    assert T17.st.levels[2] == [O, G];
  }
}
