/** What a compaction does to reads: exactly when dropping entries is invisible. */
module CompactionReads {
  import opened Wrappers
  import opened InternalKeys
  import opened TableFiles
  import opened CompactionInputs
  import opened CompactionWork
  import opened LsmLevels
  import opened Store

  /** f, a file of level l, is not an input. */
  ghost predicate NotInput(levels: seq<seq<File>>, level: nat, in0: seq<File>, in1: seq<File>, l: nat, f: File)
    requires l < |levels|
  {
    f in levels[l] && (l == level ==> f !in in0) && (l == level + 1 ==> f !in in1)
  }

  ghost predicate InRest(levels: seq<seq<File>>, level: nat, in0: seq<File>, in1: seq<File>, e: Entry) {
    exists l: nat, f :: l < |levels| && NotInput(levels, level, in0, in1, l, f) && e in f.entries
  }

  lemma TablesSplit(levels: seq<seq<File>>, level: nat, in0: seq<File>, in1: seq<File>, e: Entry)
    requires level + 1 < |levels| && Picked(levels, level, in0, in1)
    ensures e in Tables(levels) <==> InRest(levels, level, in0, in1, e) || e in FileEntries(in0 + in1)
  {
    if e in Tables(levels) {
      var l: nat :| l < |levels| && e in FileEntries(levels[l]);
      var f :| f in levels[l] && e in f.entries;
      if !NotInput(levels, level, in0, in1, l, f) {
        assert f in in0 + in1;
      }
    } else if InRest(levels, level, in0, in1, e) {
      var l: nat, f :| l < |levels| && NotInput(levels, level, in0, in1, l, f) && e in f.entries;
      EntryIsInTables(levels, l, f, e);
    } else if e in FileEntries(in0 + in1) {
      InputEntries(levels, level, in0, in1, e);
    }
  }

  lemma InstalledTablesSplit(levels: seq<seq<File>>, level: nat, in0: seq<File>, in1: seq<File>, outs: seq<File>,
                             e: Entry)
    requires GoodLevels(levels) && level + 1 < NUM_LEVELS && Picked(levels, level, in0, in1)
    requires GoodOutputs(levels, level, in0, in1, outs)
    ensures e in Tables(Install(levels, level, in0, in1, outs))
            <==> InRest(levels, level, in0, in1, e) || e in FileEntries(outs)
  {
    if e in Tables(Install(levels, level, in0, in1, outs)) {
      InstalledEntryOrigin(levels, level, in0, in1, outs, e);
    } else if InRest(levels, level, in0, in1, e) {
      var l: nat, f :| l < |levels| && NotInput(levels, level, in0, in1, l, f) && e in f.entries;
      InstalledFileHolds(levels, level, in0, in1, outs, l, f, e);
    } else if e in FileEntries(outs) {
      var f :| f in outs && e in f.entries;
      InstalledFileHolds(levels, level, in0, in1, outs, level + 1, f, e);
    }
  }

  lemma InstalledEntryOrigin(levels: seq<seq<File>>, level: nat, in0: seq<File>, in1: seq<File>, outs: seq<File>,
                             e: Entry)
    requires GoodLevels(levels) && level + 1 < NUM_LEVELS && Picked(levels, level, in0, in1)
    requires GoodOutputs(levels, level, in0, in1, outs)
    requires e in Tables(Install(levels, level, in0, in1, outs))
    ensures InRest(levels, level, in0, in1, e) || e in FileEntries(outs)
  {
    var after := Install(levels, level, in0, in1, outs);
    var l: nat :| l < |after| && e in FileEntries(after[l]);
    var f: File :| f in after[l] && e in f.entries;
    InstalledFiles(levels, level, in0, in1, outs, l, f);
    assert NotInput(levels, level, in0, in1, l, f) || f in outs;
  }

  lemma InstalledFileHolds(levels: seq<seq<File>>, level: nat, in0: seq<File>, in1: seq<File>, outs: seq<File>, l: nat,
                           f: File, e: Entry)
    requires GoodLevels(levels) && level + 1 < NUM_LEVELS && Picked(levels, level, in0, in1)
    requires GoodOutputs(levels, level, in0, in1, outs) && l < NUM_LEVELS && e in f.entries
    requires NotInput(levels, level, in0, in1, l, f) || (l == level + 1 && f in outs)
    ensures e in Tables(Install(levels, level, in0, in1, outs))
  {
    InstalledFiles(levels, level, in0, in1, outs, l, f);
    EntryIsInTables(Install(levels, level, in0, in1, outs), l, f, e);
  }

  /** An entry that stays and is no newer than an input entry of its user key lies below
      the compaction's upper level. */
  lemma NotNewerLiesBelow(levels: seq<seq<File>>, level: nat, in0: seq<File>, in1: seq<File>, x: Entry, l: nat,
                          f: File, y: Entry)
    requires GoodLevels(levels) && level + 1 < NUM_LEVELS && Picked(levels, level, in0, in1)
    requires x in FileEntries(in0 + in1)
    requires l < NUM_LEVELS && NotInput(levels, level, in0, in1, l, f) && y in f.entries
    requires y.ikey.user == x.ikey.user && y.ikey.sequence <= x.ikey.sequence
    ensures level < l && y != x
  {
    InputEntries(levels, level, in0, in1, x);
    if l == level {
      UpperFileIsNewer(levels, level, in0, in1, x, f, y);
    } else if l == level + 1 {
      LowerFileIsApart(levels, level, in0, in1, x, f, y);
    } else {
      OtherLevelsByAge(levels, level, x, l, f, y);
    }
  }

  lemma OtherLevelsByAge(levels: seq<seq<File>>, level: nat, x: Entry, l: nat, f: File, y: Entry)
    requires LevelsByAge(levels) && level + 1 < |levels| && l < |levels| && l != level && l != level + 1
    requires x in FileEntries(levels[level]) || x in FileEntries(levels[level + 1])
    requires f in levels[l] && y in f.entries && y.ikey.user == x.ikey.user
    ensures l < level ==> y.ikey.sequence > x.ikey.sequence
    ensures l > level ==> y.ikey.sequence < x.ikey.sequence
  {
    EntryIsInTables(levels, l, f, y);
    var m := if x in FileEntries(levels[level]) then level else level + 1;
    if l < level {
      ShallowerIsNewer(levels, l, m, y, x);
    } else {
      ShallowerIsNewer(levels, m, l, x, y);
    }
  }

  lemma UpperFileIsNewer(levels: seq<seq<File>>, level: nat, in0: seq<File>, in1: seq<File>, x: Entry, f: File,
                         y: Entry)
    requires GoodLevels(levels) && level + 1 < NUM_LEVELS && Picked(levels, level, in0, in1)
    requires x in FileEntries(in0) || x in FileEntries(levels[level + 1])
    requires LeftIn(levels[level], in0, f) && y in f.entries && y.ikey.user == x.ikey.user
    ensures y.ikey.sequence > x.ikey.sequence
  {
    if x in FileEntries(levels[level + 1]) {
      EntryIsInTables(levels, level, f, y);
      ShallowerIsNewer(levels, level, level + 1, y, x);
    } else {
      var g :| g in in0 && x in g.entries;
      UpperInputsLeaveNothingOlder(levels, level, in0, in1, f, g);
      NewerPair(f, g, y, x);
    }
  }

  lemma NewerPair(f: File, g: File, x: Entry, y: Entry)
    requires Newer(Elements(f.entries), Elements(g.entries))
    requires x in f.entries && y in g.entries && x.ikey.user == y.ikey.user
    ensures x.ikey.sequence > y.ikey.sequence
  {
    assert x in Elements(f.entries) && y in Elements(g.entries);
  }

  lemma LowerFileIsApart(levels: seq<seq<File>>, level: nat, in0: seq<File>, in1: seq<File>, x: Entry, f: File,
                         y: Entry)
    requires GoodLevels(levels) && level + 1 < NUM_LEVELS && Picked(levels, level, in0, in1)
    requires x in FileEntries(in0 + in1) && LeftIn(levels[level + 1], in1, f) && y in f.entries
    ensures y != x
  {
    LowerLevelFilesStayApart(levels, level, in0, in1, f);
    FileBounds(f, y);
  }

  lemma RestIsNotInput(levels: seq<seq<File>>, level: nat, in0: seq<File>, in1: seq<File>, x: Entry)
    requires GoodLevels(levels) && level + 1 < NUM_LEVELS && Picked(levels, level, in0, in1)
    requires x in FileEntries(in0 + in1)
    ensures !InRest(levels, level, in0, in1, x)
  {
    forall l: nat, f | l < |levels| && NotInput(levels, level, in0, in1, l, f)
      ensures x !in f.entries
    {
      if x in f.entries {
        NotNewerLiesBelow(levels, level, in0, in1, x, l, f, x);
      }
    }
  }

  // ---- The store before and after ----

  ghost predicate CompactionStep(st: Store, level: nat, in0: seq<File>, in1: seq<File>, input: seq<Entry>,
                                 outs: seq<File>, st': Store) {
    Inv(st) && Next(st, Compact(level, in0, in1, input, outs), st')
  }

  /** A compaction removes the dropped input entries and nothing else. */
  lemma CompactedContents(st: Store, level: nat, in0: seq<File>, in1: seq<File>, input: seq<Entry>, outs: seq<File>,
                          st': Store, e: Entry)
    requires CompactionStep(st, level, in0, in1, input, outs, st')
    ensures e in Contents(st') <==>
              e in Contents(st) && !(e in input && Dropped(st.levels, level, input, SmallestSnapshot(st), e))
  {
    CompactionOutputsAreGood(st, level, in0, in1, input, outs);
    TablesSplit(st.levels, level, in0, in1, e);
    InstalledTablesSplit(st.levels, level, in0, in1, outs, e);
    OutputsHoldSurvivors(st, level, input, outs);
    SurvivorsAre(st.levels, level, input, SmallestSnapshot(st), input);
    assert e in input <==> e in FileEntries(in0 + in1) by { assert e in input <==> e in Elements(input); }
    if e in input {
      RestIsNotInput(st.levels, level, in0, in1, e);
      InputsAreOnlyInTables(st, level, in0, in1, e);
    }
  }

  lemma InputsAreOnlyInTables(st: Store, level: nat, in0: seq<File>, in1: seq<File>, e: Entry)
    requires Inv(st) && level + 1 < NUM_LEVELS && Picked(st.levels, level, in0, in1)
    requires e in FileEntries(in0 + in1)
    ensures e in Tables(st.levels) && e !in Elements(st.mem) && e !in ImmEntries(st)
  {
    InputsAreTables(st, level, in0, in1);
  }

  /** e is in a file of the lower level that the compaction does not take. */
  ghost predicate LeftBelow(levels: seq<seq<File>>, level: nat, in1: seq<File>, e: Entry)
    requires level + 1 < |levels|
  {
    exists f :: LeftIn(levels[level + 1], in1, f) && e in f.entries
  }

  /** The one way a compaction changes an answer: the newest version of a key, a deletion
      marker, is dropped as obsolete, and a file of the next level that was not taken as
      input continues the same user key with a value. */
  ghost predicate Resurrects(st: Store, level: nat, in1: seq<File>, input: seq<Entry>, t: Entry, v: Entry)
    requires level + 1 < |st.levels|
  {
    && t in input
    && Obsolete(st.levels, level, SmallestSnapshot(st), t)
    && IsNewest(Contents(st), t.ikey.user, SmallestSnapshot(st), t)
    && IsNextBelow(st.levels, level, in1, t, v)
    && v.ikey.kind.Put?
  }

  ghost predicate OlderBelow(levels: seq<seq<File>>, level: nat, in1: seq<File>, t: Entry, v: Entry)
    requires level + 1 < |levels|
  {
    LeftBelow(levels, level, in1, v) && v.ikey.user == t.ikey.user && v.ikey.sequence < t.ikey.sequence
  }

  ghost predicate IsNextBelow(levels: seq<seq<File>>, level: nat, in1: seq<File>, t: Entry, v: Entry)
    requires level + 1 < |levels|
  {
    && OlderBelow(levels, level, in1, t, v)
    && forall x :: OlderBelow(levels, level, in1, t, x) ==> x.ikey.sequence <= v.ikey.sequence
  }

  ghost predicate Covered(st: Store, level: nat, in1: seq<File>, input: seq<Entry>)
    requires level + 1 < |st.levels|
  {
    forall t, v :: !Resurrects(st, level, in1, input, t, v)
  }

  lemma StoreIsUnique(st: Store)
    requires Inv(st)
    ensures Unique(Contents(st))
  {
    HistoryIsUnique(st);
  }

  /** Whatever outlives an obsolete marker and is older than it was left in the lower level. */
  lemma SurvivingOlderIsBelow(st: Store, level: nat, in0: seq<File>, in1: seq<File>, input: seq<Entry>,
                              outs: seq<File>, st': Store,
                              t: Entry, x: Entry)
    requires CompactionStep(st, level, in0, in1, input, outs, st')
    requires t in input && Obsolete(st.levels, level, SmallestSnapshot(st), t)
    requires x in Contents(st') && x.ikey.user == t.ikey.user && x.ikey.sequence < t.ikey.sequence
    ensures OlderBelow(st.levels, level, in1, t, x)
  {
    CompactedContents(st, level, in0, in1, input, outs, st', x);
    assert t in Elements(input);
    assert x in input ==> Hidden(input, SmallestSnapshot(st), x);
    assert x !in Elements(input);
    InputsAreOnlyInTables(st, level, in0, in1, t);
    TablesSplit(st.levels, level, in0, in1, x);
    RestOlderIsBelow(st.levels, level, in0, in1, SmallestSnapshot(st), t, x);
  }

  lemma RestOlderIsBelow(levels: seq<seq<File>>, level: nat, in0: seq<File>, in1: seq<File>, ss: nat, t: Entry,
                         x: Entry)
    requires GoodLevels(levels) && level + 1 < NUM_LEVELS && Picked(levels, level, in0, in1)
    requires t in FileEntries(in0 + in1) && Obsolete(levels, level, ss, t) && InRest(levels, level, in0, in1, x)
    requires x.ikey.user == t.ikey.user && x.ikey.sequence < t.ikey.sequence
    ensures OlderBelow(levels, level, in1, t, x)
  {
    var l: nat, f :| l < |levels| && NotInput(levels, level, in0, in1, l, f) && x in f.entries;
    NotNewerLiesBelow(levels, level, in0, in1, t, l, f, x);
    assert ValidFile(f);
    BelowMeansNextLevel(levels, level, in0, in1, ss, t, l, f, x);
  }

  lemma BelowMeansNextLevel(levels: seq<seq<File>>, level: nat, in0: seq<File>, in1: seq<File>, ss: nat, t: Entry,
                            l: nat, f: File, x: Entry)
    requires level < l < |levels| && NotInput(levels, level, in0, in1, l, f) && ValidFile(f) && x in f.entries
    requires Obsolete(levels, level, ss, t)
    requires x.ikey.user == t.ikey.user && x.ikey.sequence < t.ikey.sequence
    ensures OlderBelow(levels, level, in1, t, x)
  {
    FileBounds(f, x);
    assert SpansKey(f, t.ikey.user);
    assert LeftIn(levels[level + 1], in1, f);
  }

  /** In a covered compaction no answer changes. */
  lemma CoveredKeepsView(st: Store, level: nat, in0: seq<File>, in1: seq<File>, input: seq<Entry>, outs: seq<File>,
                         st': Store,
                         user: UserKey, s: nat)
    requires CompactionStep(st, level, in0, in1, input, outs, st') && Covered(st, level, in1, input)
    requires SmallestSnapshot(st) <= s
    ensures View(Contents(st'), user, s) == View(Contents(st), user, s)
  {
    var r, r' := Newest(Contents(st), user, s), Newest(Contents(st'), user, s);
    StoreIsUnique(st);
    forall e
      ensures e in Contents(st') ==> e in Contents(st)
    {
      CompactedContents(st, level, in0, in1, input, outs, st', e);
    }
    if r.Some? {
      var e := r.value;
      if e in Contents(st') {
        ReadIsDetermined(Contents(st'), user, s, r, r');
      } else {
        CompactedContents(st, level, in0, in1, input, outs, st', e);
        DroppedNewestIsObsolete(st, level, in0, in1, input, user, s, e);
        if r'.Some? && r'.value.ikey.kind.Put? {
          DroppedNewestUncovers(st, level, in0, in1, input, outs, st', user, s, e, r'.value);
        }
      }
    }
  }

  lemma DroppedNewestIsObsolete(st: Store, level: nat, in0: seq<File>, in1: seq<File>, input: seq<Entry>,
                                user: UserKey, s: nat, e: Entry)
    requires Inv(st) && level + 1 < NUM_LEVELS && Picked(st.levels, level, in0, in1)
    requires Elements(input) == FileEntries(in0 + in1) && SmallestSnapshot(st) <= s
    requires IsNewest(Contents(st), user, s, e) && Dropped(st.levels, level, input, SmallestSnapshot(st), e)
    ensures Obsolete(st.levels, level, SmallestSnapshot(st), e)
  {
    if Hidden(input, SmallestSnapshot(st), e) {
      var x :| x in input && x.ikey.user == e.ikey.user && e.ikey.sequence < x.ikey.sequence <= SmallestSnapshot(st);
      assert x in Elements(input);
      InputsAreTables(st, level, in0, in1);
    }
  }

  lemma DroppedNewestUncovers(st: Store, level: nat, in0: seq<File>, in1: seq<File>, input: seq<Entry>,
                              outs: seq<File>, st': Store,
                              user: UserKey, s: nat, t: Entry, v: Entry)
    requires CompactionStep(st, level, in0, in1, input, outs, st') && SmallestSnapshot(st) <= s
    requires t in input && Obsolete(st.levels, level, SmallestSnapshot(st), t) && t !in Contents(st')
    requires IsNewest(Contents(st), user, s, t) && IsNewest(Contents(st'), user, s, v) && v.ikey.kind.Put?
    ensures Resurrects(st, level, in1, input, t, v)
  {
    CompactedContents(st, level, in0, in1, input, outs, st', v);
    StoreIsUnique(st);
    assert v.ikey.sequence < t.ikey.sequence;
    SurvivingOlderIsBelow(st, level, in0, in1, input, outs, st', t, v);
    forall x | OlderBelow(st.levels, level, in1, t, x)
      ensures x in Contents(st')
    {
      LeftBelowSurvives(st, level, in0, in1, input, outs, st', x);
    }
    assert IsNextBelow(st.levels, level, in1, t, v);
    NewestEarlier(Contents(st), user, s, SmallestSnapshot(st), t);
  }

  lemma NewestEarlier(es: set<Entry>, user: UserKey, s: nat, s': nat, t: Entry)
    requires IsNewest(es, user, s, t) && t.ikey.sequence <= s' <= s
    ensures IsNewest(es, user, s', t)
  {
  }

  lemma LeftBelowSurvives(st: Store, level: nat, in0: seq<File>, in1: seq<File>, input: seq<Entry>, outs: seq<File>,
                          st': Store, x: Entry)
    requires CompactionStep(st, level, in0, in1, input, outs, st')
    requires LeftBelow(st.levels, level, in1, x)
    ensures x in Contents(st') && x in Contents(st)
  {
    CompactionOutputsAreGood(st, level, in0, in1, input, outs);
    var f :| LeftIn(st.levels[level + 1], in1, f) && x in f.entries;
    assert NotInput(st.levels, level, in0, in1, level + 1, f);
    TablesSplit(st.levels, level, in0, in1, x);
    InstalledTablesSplit(st.levels, level, in0, in1, outs, x);
  }

  /** An uncovered compaction changes what a reader at the smallest snapshot is told. */
  lemma ResurrectionChangesView(st: Store, level: nat, in0: seq<File>, in1: seq<File>, input: seq<Entry>,
                                outs: seq<File>, st': Store,
                                t: Entry, v: Entry)
    requires CompactionStep(st, level, in0, in1, input, outs, st')
    requires Resurrects(st, level, in1, input, t, v)
    ensures View(Contents(st), t.ikey.user, SmallestSnapshot(st)) == None
    ensures View(Contents(st'), t.ikey.user, SmallestSnapshot(st)) == Some(v.value)
  {
    var user, ss := t.ikey.user, SmallestSnapshot(st);
    StoreIsUnique(st);
    ReadIsDetermined(Contents(st), user, ss, Newest(Contents(st), user, ss), Some(t));
    CompactedContents(st, level, in0, in1, input, outs, st', t);
    LeftBelowSurvives(st, level, in0, in1, input, outs, st', v);
    forall x | x in Contents(st')
      ensures x in Contents(st)
      ensures Visible(x, user, ss) ==> x.ikey.sequence <= v.ikey.sequence
    {
      CompactedContents(st, level, in0, in1, input, outs, st', x);
      if Visible(x, user, ss) {
        SurvivingOlderIsBelow(st, level, in0, in1, input, outs, st', t, x);
      }
    }
    ReadIsDetermined(Contents(st'), user, ss, Newest(Contents(st'), user, ss), Some(v));
  }

  /** The drop rules keep every read at every snapshot a reader may still use if and only
      if the compaction is covered. */
  lemma CompactionKeepsReadsIff(st: Store, level: nat, in0: seq<File>, in1: seq<File>, input: seq<Entry>,
                                outs: seq<File>, st': Store)
    requires CompactionStep(st, level, in0, in1, input, outs, st')
    ensures (forall user, s :: SmallestSnapshot(st) <= s ==>
               View(Contents(st'), user, s) == View(Contents(st), user, s))
            <==> Covered(st, level, in1, input)
  {
    if Covered(st, level, in1, input) {
      forall user, s | SmallestSnapshot(st) <= s
        ensures View(Contents(st'), user, s) == View(Contents(st), user, s)
      {
        CoveredKeepsView(st, level, in0, in1, input, outs, st', user, s);
      }
    } else {
      var t, v :| Resurrects(st, level, in1, input, t, v);
      ResurrectionChangesView(st, level, in0, in1, input, outs, st', t, v);
    }
  }

  /** A check on the file list alone that suffices: the lower inputs, too, are closed at
      their boundary. */
  lemma ClosedLowerInputsAreCovered(st: Store, level: nat, in0: seq<File>, in1: seq<File>, input: seq<Entry>,
                                    outs: seq<File>, st': Store)
    requires CompactionStep(st, level, in0, in1, input, outs, st')
    requires BoundaryClosed(st.levels[level + 1], in1)
    ensures Covered(st, level, in1, input)
  {
    HullExists(in0);
    var lo, hi :| IsHull(in0, lo, hi);
    forall t, v | t in input
      ensures !OlderBelow(st.levels, level, in1, t, v)
    {
      assert t in Elements(input);
      NoneOlderBelow(st.levels, level, in0, in1, lo, hi, t, v);
    }
  }

  lemma NoneOlderBelow(levels: seq<seq<File>>, level: nat, in0: seq<File>, in1: seq<File>, lo: UserKey, hi: UserKey,
                       t: Entry, v: Entry)
    requires ValidLevels(levels) && Unique(Tables(levels)) && level + 1 < NUM_LEVELS
    requires (forall g :: g in in0 ==> g in levels[level]) && IsHull(in0, lo, hi)
    requires in1 == Overlapping(levels[level + 1], Range(Some(lo), Some(hi))) && BoundaryClosed(levels[level + 1], in1)
    requires t in FileEntries(in0 + in1)
    ensures !OlderBelow(levels, level, in1, t, v)
  {
    if v.ikey.user == t.ikey.user {
      forall f | LeftIn(levels[level + 1], in1, f) && v in f.entries
        ensures v.ikey.sequence > t.ikey.sequence
      {
        NothingOlderBelow(levels, level, in0, in1, lo, hi, t, f, v);
      }
    }
  }

  lemma NothingOlderBelow(levels: seq<seq<File>>, level: nat, in0: seq<File>, in1: seq<File>, lo: UserKey, hi: UserKey,
                          t: Entry, f: File, v: Entry)
    requires ValidLevels(levels) && Unique(Tables(levels)) && level + 1 < NUM_LEVELS
    requires (forall g :: g in in0 ==> g in levels[level]) && IsHull(in0, lo, hi)
    requires in1 == Overlapping(levels[level + 1], Range(Some(lo), Some(hi))) && BoundaryClosed(levels[level + 1], in1)
    requires t in FileEntries(in0 + in1) && LeftIn(levels[level + 1], in1, f) && v in f.entries
    requires v.ikey.user == t.ikey.user
    ensures v.ikey.sequence > t.ikey.sequence
  {
    var r := Range(Some(lo), Some(hi));
    var g :| g in in0 + in1 && t in g.entries;
    if g in in0 {
      assert ValidFile(f) && ValidFile(g);
      UpperKeysAreTaken(in0, lo, hi, f, g, v, t);
    } else {
      LowerRunIsEarlier(levels[level + 1], in1, r, f, g, v, t);
      EntryIsInTables(levels, level + 1, f, v);
      EntryIsInTables(levels, level + 1, g, t);
      SortedMeansNewer(Tables(levels), v, t);
    }
  }

  lemma UpperKeysAreTaken(in0: seq<File>, lo: UserKey, hi: UserKey, f: File, g: File, v: Entry, t: Entry)
    requires IsHull(in0, lo, hi) && g in in0 && ValidFile(f) && ValidFile(g)
    requires v in f.entries && t in g.entries && v.ikey.user == t.ikey.user
    ensures Overlaps(f, Range(Some(lo), Some(hi)))
  {
    FileBounds(f, v);
    FileBounds(g, t);
  }

  lemma LowerRunIsEarlier(files: seq<File>, in1: seq<File>, r: Range, f: File, g: File, v: Entry, t: Entry)
    requires ValidFiles(files) && Disjoint(files) && in1 == Overlapping(files, r)
    requires BoundaryClosed(files, in1)
    requires LeftIn(files, in1, f) && v in f.entries
    requires g in in1 && t in g.entries && v.ikey.user == t.ikey.user
    ensures v.ikey.Less(t.ikey)
  {
    var a := OverlappingIsRun(files, r);
    assert GoodStart(files, 1, in1);
    OutsideRunIsEarlier(files, 1, in1, f, g, v, t);
  }
}
