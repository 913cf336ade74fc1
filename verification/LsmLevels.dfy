/** The order of a version's levels, and what installing a compaction does to it. */
module LsmLevels {
  import opened Wrappers
  import opened InternalKeys
  import opened TableFiles
  import opened CompactionInputs
  import opened VersionEdits

  ghost function FileEntries(fs: seq<File>): set<Entry> {
    set f, e | f in fs && e in f.entries :: e
  }

  /** Every entry stored in the table files of a version. */
  ghost function Tables(levels: seq<seq<File>>): set<Entry> {
    set l, e | 0 <= l < |levels| && e in FileEntries(levels[l]) :: e
  }

  /** For each user key, a holds only newer versions than b. */
  ghost predicate Newer(a: set<Entry>, b: set<Entry>) {
    forall x, y :: x in a && y in b && x.ikey.user == y.ikey.user ==> x.ikey.sequence > y.ikey.sequence
  }

  /** Version::Get relies on this: shallower levels hold newer versions... */
  ghost predicate LevelsByAge(levels: seq<seq<File>>) {
    forall l, m :: 0 <= l < m < |levels| ==> Newer(FileEntries(levels[l]), FileEntries(levels[m]))
  }

  /** ...and so do the level-0 files with larger numbers. */
  ghost predicate FilesByAge(fs: seq<File>) {
    forall f, g :: f in fs && g in fs && f.number > g.number ==> Newer(Elements(f.entries), Elements(g.entries))
  }

  /** No file number is used twice in a version. */
  ghost predicate NumbersUnique(levels: seq<seq<File>>) {
    forall l, m, f, g ::
      0 <= l < |levels| && 0 <= m < |levels| && f in levels[l] && g in levels[m] && f.number == g.number
      ==> l == m && f == g
  }

  ghost predicate GoodLevels(levels: seq<seq<File>>) {
    && ValidLevels(levels)
    && (forall l :: 0 <= l < NUM_LEVELS ==> InOrder(levels[l]))
    && NumbersUnique(levels)
    && LevelsByAge(levels)
    && FilesByAge(levels[0])
    && Unique(Tables(levels))
  }

  /** The files of a level that a compaction does not take. */
  ghost predicate LeftIn(fs: seq<File>, taken: seq<File>, f: File) {
    f in fs && f !in taken
  }

  // ---- What the choice of inputs guarantees ----

  lemma EntryIsInTables(levels: seq<seq<File>>, l: nat, f: File, e: Entry)
    requires l < |levels| && f in levels[l] && e in f.entries
    ensures e in FileEntries(levels[l]) && e in Tables(levels)
  {
  }

  /** Two entries of one user key in key order are in age order. */
  lemma SortedMeansNewer(es: set<Entry>, x: Entry, y: Entry)
    requires Unique(es) && x in es && y in es
    requires x.ikey.user == y.ikey.user && x.ikey.Less(y.ikey)
    ensures x.ikey.sequence > y.ikey.sequence
  {
  }

  /** No file left in the upper level holds an older version of an input's user key. */
  lemma UpperInputsLeaveNothingOlder(levels: seq<seq<File>>, level: nat, in0: seq<File>, in1: seq<File>, f: File,
                                     g: File)
    requires GoodLevels(levels) && level + 1 < NUM_LEVELS && Picked(levels, level, in0, in1)
    requires LeftIn(levels[level], in0, f) && g in in0
    ensures Newer(Elements(f.entries), Elements(g.entries))
  {
    forall x, y | x in f.entries && y in g.entries && x.ikey.user == y.ikey.user
      ensures x.ikey.sequence > y.ikey.sequence
    {
      FileBounds(f, x);
      FileBounds(g, y);
      if level == 0 {
        ClosedSetsShareNoKey(levels[0], in0, f, g, x.ikey.user);
      } else {
        EntryIsInTables(levels, level, f, x);
        EntryIsInTables(levels, level, g, y);
        OutsideRunIsEarlier(levels[level], level, in0, f, g, x, y);
        SortedMeansNewer(Tables(levels), x, y);
      }
    }
  }

  lemma ClosedSetsShareNoKey(files: seq<File>, in0: seq<File>, f: File, g: File, user: UserKey)
    requires GoodStart(files, 0, in0) && LeftIn(files, in0, f) && g in in0
    requires f.smallest.user <= user <= f.largest.user
    ensures !(g.smallest.user <= user <= g.largest.user)
  {
    HullExists(in0);
    var lo, hi :| IsHull(in0, lo, hi);
    assert !Overlaps(f, Range(Some(lo), Some(hi)));
  }

  lemma OutsideRunIsEarlier(files: seq<File>, level: nat, in0: seq<File>, f: File, g: File, x: Entry, y: Entry)
    requires ValidFiles(files) && Disjoint(files) && level > 0
    requires GoodStart(files, level, in0) && BoundaryClosed(files, in0)
    requires LeftIn(files, in0, f) && g in in0
    requires x in f.entries && y in g.entries && x.ikey.user == y.ikey.user
    ensures x.ikey.Less(y.ikey)
  {
    var a: nat :| AreNeighbours(files, a, in0);
    var k: nat :| k < |files| && files[k] == f;
    var i: nat :| i < |in0| && in0[i] == g;
    FileBounds(f, x);
    FileBounds(g, y);
    if k < a + i {
      Ordered(files, k, a + i);
    } else {
      AfterRunSharesNoKey(files, a, in0, k, i);
    }
  }

  lemma AfterRunSharesNoKey(files: seq<File>, a: nat, in0: seq<File>, k: nat, i: nat)
    requires ValidFiles(files) && Disjoint(files)
    requires AreNeighbours(files, a, in0) && BoundaryClosed(files, in0)
    requires i < |in0| && a + i <= k < |files| && files[k] !in in0
    ensures in0[i].largest.user < files[k].smallest.user
  {
    var n := |in0| - 1;
    assert forall j :: 0 <= j < |in0| ==> in0[j] in in0;
    assert k - a < |in0| ==> in0[k - a] == files[k];
    assert a + n < k;
    Ordered(files, a + i, a + n);
    Ordered(files, a + n, k);
    LargestOfRun(files, a, in0);
    assert files[k] in files && !IsBoundary(files[k], in0[n].largest);
  }

  lemma LargestOfRun(files: seq<File>, a: nat, in0: seq<File>)
    requires ValidFiles(files) && Disjoint(files) && AreNeighbours(files, a, in0) && in0 != []
    ensures IsLargestKey(in0, in0[|in0| - 1].largest)
  {
    var n := |in0| - 1;
    assert in0[n] in in0;
    forall f | f in in0
      ensures !in0[n].largest.Less(f.largest)
    {
      var i :| 0 <= i < |in0| && in0[i] == f;
      Ordered(files, a + i, a + n);
    }
  }

  /** A file left in the lower level lies wholly before or wholly after every input entry. */
  lemma LowerLevelFilesStayApart(levels: seq<seq<File>>, level: nat, in0: seq<File>, in1: seq<File>, g: File)
    requires GoodLevels(levels) && level + 1 < NUM_LEVELS && Picked(levels, level, in0, in1)
    requires LeftIn(levels[level + 1], in1, g)
    ensures (forall x :: x in FileEntries(in0 + in1) ==> g.largest.Less(x.ikey))
         || (forall x :: x in FileEntries(in0 + in1) ==> x.ikey.Less(g.smallest))
  {
    HullExists(in0);
    var lo, hi :| IsHull(in0, lo, hi);
    var r := Range(Some(lo), Some(hi));
    assert in1 == Overlapping(levels[level + 1], r);
    assert !Overlaps(g, r);
    FileEnds(g);
    forall x | x in FileEntries(in0 + in1)
      ensures g.largest.user < lo ==> g.largest.Less(x.ikey)
      ensures g.smallest.user > hi ==> x.ikey.Less(g.smallest)
    {
      var f :| f in in0 + in1 && x in f.entries;
      EntryStaysApart(levels, level, in0, in1, lo, hi, f, g, x);
    }
  }

  lemma EntryStaysApart(levels: seq<seq<File>>, level: nat, in0: seq<File>, in1: seq<File>, lo: UserKey, hi: UserKey,
                        f: File, g: File, x: Entry)
    requires ValidLevels(levels) && level + 1 < NUM_LEVELS
    requires (forall h :: h in in0 ==> h in levels[level]) && IsHull(in0, lo, hi)
    requires in1 == Overlapping(levels[level + 1], Range(Some(lo), Some(hi)))
    requires LeftIn(levels[level + 1], in1, g) && f in in0 + in1 && x in f.entries
    ensures g.largest.user < lo ==> g.largest.Less(x.ikey)
    ensures g.smallest.user > hi ==> x.ikey.Less(g.smallest)
  {
    FileEnds(g);
    if f in in0 {
      assert f in levels[level];
      FileBounds(f, x);
    } else {
      assert f in in1;
      FileBounds(f, x);
      NeighboursAreOrdered(levels[level + 1], f, g);
    }
  }

  lemma NeighboursAreOrdered(files: seq<File>, f: File, g: File)
    requires ValidFiles(files) && Disjoint(files)
    requires f in files && g in files && f != g
    ensures f.largest.Less(g.smallest) || g.largest.Less(f.smallest)
  {
    var i :| 0 <= i < |files| && files[i] == f;
    var j :| 0 <= j < |files| && files[j] == g;
  }

  // ---- Installing the result ----

  /** InstallCompactionResults and the trivial move: inputs out of both levels, outputs
      into the lower one. */
  ghost function Install(levels: seq<seq<File>>, level: nat, in0: seq<File>, in1: seq<File>,
                         outs: seq<File>): seq<seq<File>>
    requires level + 1 < |levels|
  {
    levels[level := Edited(levels[level], Numbers(in0), [])]
          [level + 1 := Edited(levels[level + 1], Numbers(in1) - Numbers(outs), outs)]
  }

  /** What the outputs of a compaction or a trivial move satisfy. */
  ghost predicate GoodOutputs(levels: seq<seq<File>>, level: nat, in0: seq<File>, in1: seq<File>, outs: seq<File>)
    requires level + 1 < |levels|
  {
    && ValidFiles(outs) && Disjoint(outs) && DistinctNumbers(outs)
    && FileEntries(outs) <= FileEntries(in0 + in1)
    && (forall l, f, o :: 0 <= l < |levels| && f in levels[l] && o in outs && f.number == o.number
                          ==> l == level && f in in0)
  }

  lemma InstalledMembers(levels: seq<seq<File>>, level: nat, in0: seq<File>, in1: seq<File>, outs: seq<File>)
    requires GoodLevels(levels) && level + 1 < NUM_LEVELS && Picked(levels, level, in0, in1)
    requires GoodOutputs(levels, level, in0, in1, outs)
    ensures |Install(levels, level, in0, in1, outs)| == |levels|
    ensures forall f :: f in Install(levels, level, in0, in1, outs)[level] <==> LeftIn(levels[level], in0, f)
    ensures forall f :: f in Install(levels, level, in0, in1, outs)[level + 1]
                        <==> LeftIn(levels[level + 1], in1, f) || f in outs
    ensures forall l :: 0 <= l < |levels| && l != level && l != level + 1
                        ==> Install(levels, level, in0, in1, outs)[l] == levels[l]
  {
    NumbersNameFiles(levels, level, in0);
    LowerInputsAreFiles(levels, level, in0, in1);
    NumbersNameFiles(levels, level + 1, in1);
    OutputsAreNew(levels, level, in0, in1, outs);
    EditedMembers(levels[level], in0, Numbers(in0), []);
    EditedMembers(levels[level + 1], in1, Numbers(in1) - Numbers(outs), outs);
  }

  lemma OutputsAreNew(levels: seq<seq<File>>, level: nat, in0: seq<File>, in1: seq<File>, outs: seq<File>)
    requires level + 1 < |levels| && GoodOutputs(levels, level, in0, in1, outs)
    ensures forall f :: f in levels[level + 1] ==> f.number !in Numbers(outs)
  {
  }

  lemma EditedMembers(base: seq<File>, taken: seq<File>, deleted: set<nat>, added: seq<File>)
    requires forall f :: f in base ==> (f.number in deleted <==> f in taken)
    ensures forall f :: f in Edited(base, deleted, added) <==> LeftIn(base, taken, f) || f in added
  {
  }

  lemma LowerInputsAreFiles(levels: seq<seq<File>>, level: nat, in0: seq<File>, in1: seq<File>)
    requires level + 1 < |levels| && Picked(levels, level, in0, in1)
    ensures forall f :: f in in1 ==> f in levels[level + 1]
  {
    HullExists(in0);
    var lo, hi :| IsHull(in0, lo, hi);
  }

  lemma NumbersNameFiles(levels: seq<seq<File>>, l: nat, taken: seq<File>)
    requires NumbersUnique(levels) && l < |levels| && forall f :: f in taken ==> f in levels[l]
    ensures forall f :: f in levels[l] ==> (f.number in Numbers(taken) <==> f in taken)
  {
  }

  /** Entries after an install: those left plus those written. */
  lemma InstalledEntries(levels: seq<seq<File>>, level: nat, in0: seq<File>, in1: seq<File>, outs: seq<File>, l: nat)
    requires GoodLevels(levels) && level + 1 < NUM_LEVELS && Picked(levels, level, in0, in1)
    requires GoodOutputs(levels, level, in0, in1, outs) && l < NUM_LEVELS
    ensures forall e :: e in FileEntries(Install(levels, level, in0, in1, outs)[l])
                        ==> e in FileEntries(levels[l]) || (l == level + 1 && e in FileEntries(in0))
  {
    var after := Install(levels, level, in0, in1, outs)[l];
    forall e | e in FileEntries(after)
      ensures e in FileEntries(levels[l]) || (l == level + 1 && e in FileEntries(in0))
    {
      var f :| f in after && e in f.entries;
      Provenance(levels, level, in0, in1, outs, l, f);
      if f !in levels[l] {
        assert f in outs && e in FileEntries(outs);
        InputEntries(levels, level, in0, in1, e);
      }
    }
  }

  lemma InputEntries(levels: seq<seq<File>>, level: nat, in0: seq<File>, in1: seq<File>, e: Entry)
    requires level + 1 < |levels| && Picked(levels, level, in0, in1)
    requires e in FileEntries(in0 + in1)
    ensures e in FileEntries(in0) || e in FileEntries(in1)
    ensures e in FileEntries(levels[level]) || e in FileEntries(levels[level + 1])
    ensures e in FileEntries(in1) ==> e in FileEntries(levels[level + 1])
  {
    LowerInputsAreFiles(levels, level, in0, in1);
    var f :| f in in0 + in1 && e in f.entries;
    assert f in in0 || f in in1;
  }

  lemma UpperLeftIsNewer(levels: seq<seq<File>>, level: nat, in0: seq<File>, in1: seq<File>, outs: seq<File>)
    requires GoodLevels(levels) && level + 1 < NUM_LEVELS && Picked(levels, level, in0, in1)
    requires GoodOutputs(levels, level, in0, in1, outs)
    ensures Newer(FileEntries(Install(levels, level, in0, in1, outs)[level]), FileEntries(in0))
  {
    InstalledMembers(levels, level, in0, in1, outs);
    var left := Install(levels, level, in0, in1, outs)[level];
    forall x, y | x in FileEntries(left) && y in FileEntries(in0) && x.ikey.user == y.ikey.user
      ensures x.ikey.sequence > y.ikey.sequence
    {
      var f :| f in left && x in f.entries;
      var g :| g in in0 && y in g.entries;
      UpperInputsLeaveNothingOlder(levels, level, in0, in1, f, g);
      assert x in Elements(f.entries) && y in Elements(g.entries);
    }
  }

  lemma UpperInputsInLevel(levels: seq<seq<File>>, level: nat, in0: seq<File>, in1: seq<File>)
    requires level + 1 < |levels| && Picked(levels, level, in0, in1)
    ensures FileEntries(in0) <= FileEntries(levels[level])
  {
  }

  lemma InstallKeepsAge(levels: seq<seq<File>>, level: nat, in0: seq<File>, in1: seq<File>, outs: seq<File>)
    requires GoodLevels(levels) && level + 1 < NUM_LEVELS && Picked(levels, level, in0, in1)
    requires GoodOutputs(levels, level, in0, in1, outs)
    ensures LevelsByAge(Install(levels, level, in0, in1, outs))
  {
    var after := Install(levels, level, in0, in1, outs);
    UpperInputsInLevel(levels, level, in0, in1);
    UpperLeftIsNewer(levels, level, in0, in1, outs);
    forall l, m | 0 <= l < m < |after|
      ensures Newer(FileEntries(after[l]), FileEntries(after[m]))
    {
      InstalledEntries(levels, level, in0, in1, outs, l);
      InstalledEntries(levels, level, in0, in1, outs, m);
      forall x, y | x in FileEntries(after[l]) && y in FileEntries(after[m]) && x.ikey.user == y.ikey.user
        ensures x.ikey.sequence > y.ikey.sequence
      {
        AgeOfPair(levels, level, in0, after[l], l, m, x, y);
      }
    }
  }

  lemma AgeOfPair(levels: seq<seq<File>>, level: nat, in0: seq<File>, left: seq<File>, l: nat, m: nat, x: Entry,
                  y: Entry)
    requires LevelsByAge(levels) && l < m < |levels| && level + 1 < |levels|
    requires FileEntries(in0) <= FileEntries(levels[level])
    requires x.ikey.user == y.ikey.user && x in FileEntries(left)
    requires l == level ==> Newer(FileEntries(left), FileEntries(in0))
    requires x in FileEntries(levels[l]) || (l == level + 1 && x in FileEntries(in0))
    requires y in FileEntries(levels[m]) || (m == level + 1 && y in FileEntries(in0))
    ensures x.ikey.sequence > y.ikey.sequence
  {
    assert Newer(FileEntries(levels[l]), FileEntries(levels[m]));
    if x !in FileEntries(levels[l]) {
      assert Newer(FileEntries(levels[level]), FileEntries(levels[m]));
    } else if y !in FileEntries(levels[m]) && l != level {
      assert Newer(FileEntries(levels[l]), FileEntries(levels[level]));
    }
  }

  /** Files that pairwise keep apart, listed by smallest key, form a disjoint level. */
  lemma ApartAndOrderedIsDisjoint(fs: seq<File>)
    requires ValidFiles(fs) && InOrder(fs)
    requires forall f, g :: f in fs && g in fs && f != g ==> f.largest.Less(g.smallest) || g.largest.Less(f.smallest)
    ensures Disjoint(fs)
  {
    forall i, j | 0 <= i < j < |fs|
      ensures fs[i].largest.Less(fs[j].smallest)
    {
      assert BySmallest(fs[i], fs[j]);
      assert fs[i] in fs && fs[j] in fs;
      FileEnds(fs[i]);
      FileEnds(fs[j]);
    }
  }

  lemma OutputStaysApart(levels: seq<seq<File>>, level: nat, in0: seq<File>, in1: seq<File>, outs: seq<File>, g: File,
                         o: File)
    requires GoodLevels(levels) && level + 1 < NUM_LEVELS && Picked(levels, level, in0, in1)
    requires GoodOutputs(levels, level, in0, in1, outs)
    requires LeftIn(levels[level + 1], in1, g) && o in outs
    ensures o.largest.Less(g.smallest) || g.largest.Less(o.smallest)
  {
    LowerLevelFilesStayApart(levels, level, in0, in1, g);
    var n := |o.entries| - 1;
    assert o.entries[0] in FileEntries(outs) && o.entries[n] in FileEntries(outs);
  }

  lemma InstallKeepsDisjoint(levels: seq<seq<File>>, level: nat, in0: seq<File>, in1: seq<File>, outs: seq<File>)
    requires GoodLevels(levels) && level + 1 < NUM_LEVELS && Picked(levels, level, in0, in1)
    requires GoodOutputs(levels, level, in0, in1, outs)
    ensures InOrder(Install(levels, level, in0, in1, outs)[level])
    ensures InOrder(Install(levels, level, in0, in1, outs)[level + 1])
    ensures Disjoint(Install(levels, level, in0, in1, outs)[level + 1])
    ensures level > 0 ==> Disjoint(Install(levels, level, in0, in1, outs)[level])
  {
    var after := Install(levels, level, in0, in1, outs);
    InstalledMembers(levels, level, in0, in1, outs);
    EditedInOrder(levels[level], Numbers(in0), []);
    EditedInOrder(levels[level + 1], Numbers(in1) - Numbers(outs), outs);
    forall f: File, g: File | f in after[level + 1] && g in after[level + 1] && f != g
      ensures f.largest.Less(g.smallest) || g.largest.Less(f.smallest)
    {
      if f in outs && g in outs {
        NeighboursAreOrdered(outs, f, g);
      } else if f in outs {
        OutputStaysApart(levels, level, in0, in1, outs, g, f);
      } else if g in outs {
        OutputStaysApart(levels, level, in0, in1, outs, f, g);
      } else {
        NeighboursAreOrdered(levels[level + 1], f, g);
      }
    }
    ApartAndOrderedIsDisjoint(after[level + 1]);
    if level > 0 {
      forall f: File, g: File | f in after[level] && g in after[level] && f != g
        ensures f.largest.Less(g.smallest) || g.largest.Less(f.smallest)
      {
        NeighboursAreOrdered(levels[level], f, g);
      }
      ApartAndOrderedIsDisjoint(after[level]);
    }
  }

  lemma InstallKeepsTables(levels: seq<seq<File>>, level: nat, in0: seq<File>, in1: seq<File>, outs: seq<File>)
    requires GoodLevels(levels) && level + 1 < NUM_LEVELS && Picked(levels, level, in0, in1)
    requires GoodOutputs(levels, level, in0, in1, outs)
    ensures Tables(Install(levels, level, in0, in1, outs)) <= Tables(levels)
  {
    var after := Install(levels, level, in0, in1, outs);
    UpperInputsInLevel(levels, level, in0, in1);
    forall l, e | 0 <= l < |after| && e in FileEntries(after[l])
      ensures e in Tables(levels)
    {
      InstalledEntries(levels, level, in0, in1, outs, l);
    }
  }

  lemma InstallKeepsFiles(levels: seq<seq<File>>, level: nat, in0: seq<File>, in1: seq<File>, outs: seq<File>)
    requires GoodLevels(levels) && level + 1 < NUM_LEVELS && Picked(levels, level, in0, in1)
    requires GoodOutputs(levels, level, in0, in1, outs)
    ensures ValidLevels(Install(levels, level, in0, in1, outs))
    ensures forall l :: 0 <= l < NUM_LEVELS ==> InOrder(Install(levels, level, in0, in1, outs)[l])
    ensures FilesByAge(Install(levels, level, in0, in1, outs)[0])
  {
    var after := Install(levels, level, in0, in1, outs);
    InstalledMembers(levels, level, in0, in1, outs);
    InstallKeepsDisjoint(levels, level, in0, in1, outs);
    forall l | 0 <= l < NUM_LEVELS
      ensures ValidFiles(after[l]) && InOrder(after[l]) && (l > 0 ==> Disjoint(after[l]))
    {
      if l != level && l != level + 1 {
        assert after[l] == levels[l];
      }
    }
    assert forall f :: f in after[0] ==> f in levels[0];
  }

  /** Files that are not inputs, and outputs, are in the new version. */
  lemma InstalledFiles(levels: seq<seq<File>>, level: nat, in0: seq<File>, in1: seq<File>, outs: seq<File>, l: nat,
                       f: File)
    requires GoodLevels(levels) && level + 1 < NUM_LEVELS && Picked(levels, level, in0, in1)
    requires GoodOutputs(levels, level, in0, in1, outs) && l < NUM_LEVELS
    ensures f in levels[l] && (l == level ==> f !in in0) && (l == level + 1 ==> f !in in1)
            ==> f in Install(levels, level, in0, in1, outs)[l]
    ensures f in Install(levels, level, in0, in1, outs)[l] ==>
              (f in levels[l] && (l == level ==> f !in in0) && (l == level + 1 ==> f !in in1))
              || (l == level + 1 && f in outs)
    ensures l == level + 1 && f in outs ==> f in Install(levels, level, in0, in1, outs)[l]
  {
    InstalledMembers(levels, level, in0, in1, outs);
  }

  lemma ShallowerIsNewer(levels: seq<seq<File>>, l: nat, m: nat, x: Entry, y: Entry)
    requires LevelsByAge(levels) && l < m < |levels|
    requires x in FileEntries(levels[l]) && y in FileEntries(levels[m]) && x.ikey.user == y.ikey.user
    ensures x.ikey.sequence > y.ikey.sequence
  {
    assert Newer(FileEntries(levels[l]), FileEntries(levels[m]));
  }

  /** Installing good outputs keeps every property of the levels. */
  lemma InstallKeepsLevels(levels: seq<seq<File>>, level: nat, in0: seq<File>, in1: seq<File>, outs: seq<File>)
    requires GoodLevels(levels) && level + 1 < NUM_LEVELS && Picked(levels, level, in0, in1)
    requires GoodOutputs(levels, level, in0, in1, outs)
    ensures GoodLevels(Install(levels, level, in0, in1, outs))
    ensures Tables(Install(levels, level, in0, in1, outs)) <= Tables(levels)
  {
    InstallKeepsFiles(levels, level, in0, in1, outs);
    InstallKeepsAge(levels, level, in0, in1, outs);
    InstallKeepsNumbers(levels, level, in0, in1, outs);
    InstallKeepsTables(levels, level, in0, in1, outs);
  }

  lemma InstallKeepsNumbers(levels: seq<seq<File>>, level: nat, in0: seq<File>, in1: seq<File>, outs: seq<File>)
    requires GoodLevels(levels) && level + 1 < NUM_LEVELS && Picked(levels, level, in0, in1)
    requires GoodOutputs(levels, level, in0, in1, outs)
    ensures NumbersUnique(Install(levels, level, in0, in1, outs))
  {
    var after := Install(levels, level, in0, in1, outs);
    forall l, m, f: File, g: File | 0 <= l < |after| && 0 <= m < |after| && f in after[l] && g in after[m]
      && f.number == g.number
      ensures l == m && f == g
    {
      Provenance(levels, level, in0, in1, outs, l, f);
      Provenance(levels, level, in0, in1, outs, m, g);
      SameNumberSameFile(levels, level, in0, in1, outs, l, m, f, g);
    }
  }

  /** Where a file of the new version comes from. */
  ghost predicate NotUpperInput(levels: seq<seq<File>>, level: nat, in0: seq<File>, l: nat, f: File)
    requires l < |levels|
  {
    f in levels[l] && (l == level ==> f !in in0)
  }

  lemma Provenance(levels: seq<seq<File>>, level: nat, in0: seq<File>, in1: seq<File>, outs: seq<File>, l: nat, f: File)
    requires GoodLevels(levels) && level + 1 < NUM_LEVELS && Picked(levels, level, in0, in1)
    requires GoodOutputs(levels, level, in0, in1, outs)
    requires l < NUM_LEVELS && f in Install(levels, level, in0, in1, outs)[l]
    ensures NotUpperInput(levels, level, in0, l, f) || (l == level + 1 && f in outs)
  {
    InstalledMembers(levels, level, in0, in1, outs);
  }

  lemma SameNumberSameFile(levels: seq<seq<File>>, level: nat, in0: seq<File>, in1: seq<File>, outs: seq<File>,
                           l: nat, m: nat, f: File, g: File)
    requires NumbersUnique(levels) && level + 1 < |levels| && GoodOutputs(levels, level, in0, in1, outs)
    requires l < |levels| && m < |levels| && f.number == g.number
    requires NotUpperInput(levels, level, in0, l, f) || (l == level + 1 && f in outs)
    requires NotUpperInput(levels, level, in0, m, g) || (m == level + 1 && g in outs)
    ensures l == m && f == g
  {
    if f in outs && g in outs && l == level + 1 == m {
      var i :| 0 <= i < |outs| && outs[i] == f;
      var j :| 0 <= j < |outs| && outs[j] == g;
    }
  }
}
