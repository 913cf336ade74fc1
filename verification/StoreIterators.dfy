/** Iterators over the whole store, and the input of a compaction: the children that
    DBImpl::NewInternalIterator and VersionSet::MakeInputIterator hand to the merging
    iterator, and what a DBIter on top of them shows. */
module StoreIterators {
  import opened InternalKeys
  import opened TableFiles
  import opened VersionEdits
  import opened LsmLevels
  import opened Store
  import opened CompactionReads
  import opened StoreReads
  import opened MergingIterators
  import opened DBIterator

  // ---- Children ----

  ghost predicate Shared(a: seq<Entry>, b: seq<Entry>) { exists e :: e in a && e in b }

  /** Sorted children without common entries that together hold exactly es. */
  ghost predicate Parts(children: seq<seq<Entry>>, es: set<Entry>) {
    && (forall i :: 0 <= i < |children| ==> Sorted(children[i]))
    && (forall i, j :: 0 <= i < j < |children| ==> !Shared(children[i], children[j]))
    && (forall e :: e in es <==> exists i :: 0 <= i < |children| && e in children[i])
  }

  lemma PartsSnoc(children: seq<seq<Entry>>, es: set<Entry>, t: seq<Entry>)
    requires Parts(children, es) && Sorted(t) && es !! Elements(t)
    ensures Parts(children + [t], es + Elements(t))
  {
    var all := children + [t];
    forall i, j | 0 <= i < j < |all|
      ensures !Shared(all[i], all[j])
    {
      if j == |children| {
        assert forall e :: e in all[i] ==> e in es;
        assert forall e :: e in t ==> e in Elements(t);
      } else {
        assert all[i] == children[i] && all[j] == children[j];
      }
    }
    forall e
      ensures e in es + Elements(t) <==> exists i :: 0 <= i < |all| && e in all[i]
    {
      if e in es {
        var i :| 0 <= i < |children| && e in children[i];
        assert all[i] == children[i];
      }
      if e in t {
        assert all[|children|] == t;
      }
      if i :| 0 <= i < |all| && e in all[i] {
        assert i < |children| ==> all[i] == children[i];
      }
    }
  }

  // ---- Sorting a set of entries ----

  lemma Comparable(a: Entry, b: Entry)
    requires a.ikey.user != b.ikey.user || a.ikey.sequence != b.ikey.sequence
    ensures a.ikey.Less(b.ikey) || b.ikey.Less(a.ikey)
  {
  }

  lemma SortedInsert(t: seq<Entry>, e: Entry)
    requires Sorted(t) && forall x :: x in t ==> x.ikey.user != e.ikey.user || x.ikey.sequence != e.ikey.sequence
    ensures Sorted(InsertEntry(t, e)) && Elements(InsertEntry(t, e)) == Elements(t) + {e}
  {
    var i := SeekIndex(t, e.ikey);
    var a, b := t[..i], t[i..];
    assert t == a + b;
    SortedConcat(a, b);
    assert b != [] ==> b[0] == t[i];
    AllGreater(b, e);
    SortedAround(a, e, b);
    InsertedElements(a, e, b);
  }

  lemma InsertedElements(a: seq<Entry>, e: Entry, b: seq<Entry>)
    ensures Elements(a + [e] + b) == Elements(a + b) + {e}
  {
  }

  lemma AllGreater(b: seq<Entry>, e: Entry)
    requires Sorted(b) && (forall x :: x in b ==> x.ikey.user != e.ikey.user || x.ikey.sequence != e.ikey.sequence)
    requires b != [] ==> !b[0].ikey.Less(e.ikey)
    ensures Precedes([e], b)
  {
    forall k | 0 <= k < |b|
      ensures e.ikey.Less(b[k].ikey)
    {
      Comparable(b[0], e);
      KeysTransitive(e.ikey, b[0].ikey, b[k].ikey);
      assert k > 0 ==> b[0].ikey.Less(b[k].ikey);
    }
  }

  lemma KeysTransitive(a: InternalKey, b: InternalKey, c: InternalKey)
    requires a.Less(b)
    ensures b == c || b.Less(c) ==> a.Less(c)
  {
  }

  lemma {:induction false} SortedExists(es: set<Entry>) returns (t: seq<Entry>)
    requires Unique(es)
    ensures Sorted(t) && Elements(t) == es
    decreases es
  {
    if es == {} {
      return [];
    }
    var e :| e in es;
    var rest := SortedExists(es - {e});
    SortedInsert(rest, e);
    t := InsertEntry(rest, e);
  }

  lemma PartsMerge(children: seq<seq<Entry>>, es: set<Entry>) returns (merged: seq<Entry>)
    requires Parts(children, es) && Unique(es)
    ensures IsMerge(children, merged) && Elements(merged) == es
  {
    merged := SortedExists(es);
    forall i, j, e | 0 <= i < j < |children| && e in children[i]
      ensures e !in children[j]
    {
      assert !Shared(children[i], children[j]);
    }
    forall e
      ensures e in merged <==> exists i :: 0 <= i < |children| && e in children[i]
    {
      assert e in merged <==> e in Elements(merged);
    }
  }

  // ---- The files of one level ----

  /** A concatenating iterator: the files of a sorted level one after the other. */
  function Concat(files: seq<File>): seq<Entry> {
    if files == [] then [] else Concat(files[..|files| - 1]) + files[|files| - 1].entries
  }

  lemma {:induction false} ConcatHolds(files: seq<File>)
    ensures Elements(Concat(files)) == FileEntries(files)
  {
    if files != [] {
      var init, last := files[..|files| - 1], files[|files| - 1];
      ConcatHolds(init);
      assert files == init + [last];
      FileEntriesSnoc(init, last);
      assert Elements(Concat(init) + last.entries) == Elements(Concat(init)) + Elements(last.entries);
    }
  }

  lemma FileEntriesSnoc(init: seq<File>, last: File)
    ensures FileEntries(init + [last]) == FileEntries(init) + Elements(last.entries)
  {
    forall e
      ensures e in FileEntries(init + [last]) <==> e in FileEntries(init) || e in last.entries
    {
      if e in FileEntries(init) {
        var f :| f in init && e in f.entries;
        assert f in init + [last];
      }
      if e in last.entries {
        assert last in init + [last];
      }
    }
  }

  lemma {:induction false} ConcatSorted(files: seq<File>)
    requires ValidFiles(files) && Disjoint(files)
    ensures Sorted(Concat(files))
  {
    if files != [] {
      var n := |files| - 1;
      var init, last := files[..n], files[n];
      assert files[n] in files;
      assert ValidFiles(init) && Disjoint(init);
      ConcatSorted(init);
      ConcatHolds(init);
      forall x, y | x in Concat(init) && y in last.entries
        ensures x.ikey.Less(y.ikey)
      {
        assert x in FileEntries(init);
        var f :| f in init && x in f.entries;
        var k :| 0 <= k < n && files[k] == f;
        FilesInOrder(files, k, n, x, y);
      }
      SortedConcat(Concat(init), last.entries);
    }
  }

  lemma FilesInOrder(files: seq<File>, i: nat, j: nat, x: Entry, y: Entry)
    requires ValidFiles(files) && Disjoint(files) && i < j < |files| && x in files[i].entries && y in files[j].entries
    ensures x.ikey.Less(y.ikey)
  {
    assert files[i] in files && files[j] in files;
    FileBounds(files[i], x);
    FileBounds(files[j], y);
  }

  // ---- Level 0 ----

  lemma NewerShareNothing(a: set<Entry>, b: set<Entry>)
    requires Newer(a, b) || Newer(b, a)
    ensures a !! b
  {
    assert forall e :: e in a && e in b ==> e.ikey.sequence > e.ikey.sequence;
  }

  /** A file of level 0 shares nothing with other files of level 0. */
  lemma OtherFilesShareNothing(levels: seq<seq<File>>, files: seq<File>, f: File)
    requires GoodLevels(levels) && f in levels[0] && (forall g :: g in files ==> g in levels[0] && g != f)
    ensures FileEntries(files) !! Elements(f.entries)
  {
    forall e | e in FileEntries(files)
      ensures e !in Elements(f.entries)
    {
      var g :| g in files && e in g.entries;
      assert f.number != g.number;
      NewerShareNothing(Elements(f.entries), Elements(g.entries));
    }
  }

  ghost predicate DistinctFiles(files: seq<File>) {
    forall i, j :: 0 <= i < j < |files| ==> files[i] != files[j]
  }

  /** One child per level-0 file. */
  method AddFiles(levels: seq<seq<File>>, files: seq<File>, children: seq<seq<Entry>>, ghost es: set<Entry>)
      returns (all: seq<seq<Entry>>)
    requires GoodLevels(levels) && Parts(children, es) && es !! FileEntries(files)
    requires (forall f :: f in files ==> f in levels[0]) && DistinctFiles(files)
    ensures Parts(all, es + FileEntries(files))
  {
    all := children;
    assert es + FileEntries([]) == es;
    assert files[..0] == [];
    for i := 0 to |files|
      invariant Parts(all, es + FileEntries(files[..i]))
    {
      AddOneFile(levels, files, i, all, es);
      all := all + [files[i].entries];
    }
    assert files[..|files|] == files;
  }

  lemma AddOneFile(levels: seq<seq<File>>, files: seq<File>, i: nat, all: seq<seq<Entry>>, es: set<Entry>)
    requires GoodLevels(levels) && i < |files| && es !! FileEntries(files) && Parts(all, es + FileEntries(files[..i]))
    requires (forall f :: f in files ==> f in levels[0]) && DistinctFiles(files)
    ensures Parts(all + [files[i].entries], es + FileEntries(files[..i + 1]))
  {
    var f := files[i];
    assert f in files;
    OtherFilesShareNothing(levels, files[..i], f);
    FileEntriesSnoc(files[..i], f);
    assert files[..i + 1] == files[..i] + [f];
    assert Elements(f.entries) <= FileEntries(files);
    PartsSnoc(all, es + FileEntries(files[..i]), f.entries);
    assert es + FileEntries(files[..i]) + Elements(f.entries) == es + FileEntries(files[..i + 1]);
  }

  /** One child for a sorted level, unless it is empty. */
  method AddSorted(files: seq<File>, children: seq<seq<Entry>>, ghost es: set<Entry>) returns (all: seq<seq<Entry>>)
    requires ValidFiles(files) && Disjoint(files) && Parts(children, es) && es !! FileEntries(files)
    ensures Parts(all, es + FileEntries(files))
  {
    all := children;
    if files != [] {
      ConcatHolds(files);
      ConcatSorted(files);
      PartsSnoc(children, es, Concat(files));
      all := all + [Concat(files)];
    } else {
      assert es + FileEntries(files) == es;
    }
  }

  // ---- The whole store ----

  lemma TablesSnoc(levels: seq<seq<File>>, l: nat)
    requires l < |levels|
    ensures Tables(levels[..l + 1]) == Tables(levels[..l]) + FileEntries(levels[l])
  {
    forall e
      ensures e in Tables(levels[..l + 1]) <==> e in Tables(levels[..l]) || e in FileEntries(levels[l])
    {
      if e in Tables(levels[..l]) {
        var k :| 0 <= k < l && e in FileEntries(levels[..l][k]);
        assert levels[..l + 1][k] == levels[k];
      }
      if e in FileEntries(levels[l]) {
        assert levels[..l + 1][l] == levels[l];
      }
      if e in Tables(levels[..l + 1]) {
        var k :| 0 <= k < l + 1 && e in FileEntries(levels[..l + 1][k]);
        assert k < l ==> levels[..l][k] == levels[k];
      }
    }
  }

  lemma LevelSharesNothing(levels: seq<seq<File>>, l: nat)
    requires LevelsByAge(levels) && l < |levels|
    ensures Tables(levels[..l]) !! FileEntries(levels[l])
  {
    forall e | e in Tables(levels[..l])
      ensures e !in FileEntries(levels[l])
    {
      var k :| 0 <= k < l && e in FileEntries(levels[..l][k]);
      NewerShareNothing(FileEntries(levels[k]), FileEntries(levels[l]));
    }
  }

  lemma PrefixTables(levels: seq<seq<File>>, l: nat)
    requires l <= |levels|
    ensures Tables(levels[..l]) <= Tables(levels)
    ensures forall k :: 0 <= k < |levels| ==> FileEntries(levels[k]) <= Tables(levels)
  {
    forall e | e in Tables(levels[..l])
      ensures e in Tables(levels)
    {
      var k :| 0 <= k < l && e in FileEntries(levels[..l][k]);
      assert levels[..l][k] == levels[k];
    }
  }

  lemma OrderedFilesAreDistinct(levels: seq<seq<File>>, l: nat)
    requires GoodLevels(levels) && l < NUM_LEVELS
    ensures DistinctFiles(levels[l])
  {
    OrderedAreDistinct(levels[l]);
  }

  lemma LevelOne(levels: seq<seq<File>>)
    requires |levels| > 0
    ensures Tables(levels[..1]) == FileEntries(levels[0])
  {
    TablesSnoc(levels, 0);
    assert levels[..0] == [];
  }

  /** The memtables' children. */
  method MemtableChildren(st: Store) returns (children: seq<seq<Entry>>)
    requires MemtablesOk(st)
    ensures Parts(children, Elements(st.mem) + ImmEntries(st))
    ensures Elements(st.mem) + ImmEntries(st) !! Tables(st.levels)
  {
    children := [];
    assert Parts([], {});
    PartsSnoc([], {}, st.mem);
    children := children + [st.mem];
    assert {} + Elements(st.mem) == Elements(st.mem);
    MemtablesShareNothing(st);
    if st.imm.Some? {
      PartsSnoc(children, Elements(st.mem), st.imm.value);
      children := children + [st.imm.value];
    } else {
      assert Elements(st.mem) + ImmEntries(st) == Elements(st.mem);
    }
  }

  lemma MemtablesShareNothing(st: Store)
    requires MemtablesOk(st)
    ensures Elements(st.mem) !! ImmEntries(st) && Elements(st.mem) + ImmEntries(st) !! Tables(st.levels)
  {
    AllNewerShareNothing(Elements(st.mem), ImmEntries(st));
    AllNewerShareNothing(Elements(st.mem), Tables(st.levels));
    AllNewerShareNothing(ImmEntries(st), Tables(st.levels));
  }

  lemma AllNewerShareNothing(a: set<Entry>, b: set<Entry>)
    requires AllNewer(a, b)
    ensures a !! b
  {
    NewerShareNothing(a, b);
  }

  /** DBImpl::NewInternalIterator: mem_, imm_, each level-0 file, each deeper level. The
      children share no entry and together hold the store. */
  method NewInternalIterator(st: Store) returns (children: seq<seq<Entry>>, ghost merged: seq<Entry>)
    requires Inv(st)
    ensures IsMerge(children, merged) && Elements(merged) == Contents(st)
  {
    children := MemtableChildren(st);
    ghost var es := Elements(st.mem) + ImmEntries(st);
    PrefixTables(st.levels, 1);
    LevelOne(st.levels);
    OrderedFilesAreDistinct(st.levels, 0);
    children := AddFiles(st.levels, st.levels[0], children, es);
    for l := 1 to NUM_LEVELS
      invariant Parts(children, es + Tables(st.levels[..l]))
    {
      LevelSharesNothing(st.levels, l);
      PrefixTables(st.levels, l);
      TablesSnoc(st.levels, l);
      children := AddSorted(st.levels[l], children, es + Tables(st.levels[..l]));
      assert es + Tables(st.levels[..l]) + FileEntries(st.levels[l]) == es + Tables(st.levels[..l + 1]);
    }
    assert st.levels[..NUM_LEVELS] == st.levels;
    StoreIsUnique(st);
    merged := PartsMerge(children, Contents(st));
  }

  /** DBImpl::NewIterator: the iterator reads the store at its sequence number. */
  method NewIterator(st: Store, snapshot: nat) returns (it: DBIter)
    requires Inv(st)
    ensures fresh(it) && fresh(it.iter) && it.Valid() && it.DistinctEntries() && !it.valid
    ensures forall user :: it.Read(user) == View(Contents(st), user, snapshot)
  {
    ghost var merged;
    var children;
    children, merged := NewInternalIterator(st);
    StoreIsUnique(st);
    var iter := new MergingIterator(children, merged);
    it := new DBIter(iter, snapshot);
  }

  /** In every run whose compactions are covered, an iterator shows the history's answers. */
  method IteratorInRun(states: seq<Store>, steps: seq<Step>, i: nat, snapshot: nat) returns (it: DBIter)
    requires IsRunOf(states, steps) && i < |states|
    requires forall j :: 0 <= j < i ==> StepCovered(states[j], steps[j])
    requires Usable(states[i], snapshot)
    ensures fresh(it) && fresh(it.iter) && it.Valid() && it.DistinctEntries() && !it.valid
    ensures forall user :: it.Read(user) == View(Elements(states[i].history), user, snapshot)
  {
    RunsKeepReads(states, steps, i);
    UsableIff(states[i], snapshot);
    it := NewIterator(states[i], snapshot);
  }
}
