/** Choosing the input files of a compaction: AddBoundaryInputs, SetupOtherInputs,
    PickCompaction and CompactRange of db/version_set.cc. */
module CompactionInputs {
  import opened Wrappers
  import opened InternalKeys
  import opened TableFiles

  /** The largest key of a non-empty set of files. */
  ghost predicate IsLargestKey(files: seq<File>, key: InternalKey) {
    && (exists f :: f in files && f.largest == key)
    && forall f :: f in files ==> !key.Less(f.largest)
  }

  method FindLargestKey(files: seq<File>) returns (largest: InternalKey)
    requires files != []
    ensures IsLargestKey(files, largest)
  {
    largest := files[0].largest;
    assert files[0] in files;
    for i := 1 to |files|
      invariant exists f :: f in files && f.largest == largest
      invariant forall j :: 0 <= j < i ==> !largest.Less(files[j].largest)
    {
      if largest.Less(files[i].largest) {
        assert files[i] in files;
        largest := files[i].largest;
      }
    }
  }

  /** f continues the user key at which a file ending in `largest` stops. */
  predicate IsBoundary(f: File, largest: InternalKey) {
    largest.Less(f.smallest) && f.smallest.user == largest.user
  }

  ghost predicate IsSmallestBoundary(levelFiles: seq<File>, largest: InternalKey, f: File) {
    && f in levelFiles
    && IsBoundary(f, largest)
    && forall g :: g in levelFiles && IsBoundary(g, largest) ==> !g.smallest.Less(f.smallest)
  }

  method FindSmallestBoundaryFile(levelFiles: seq<File>, largest: InternalKey) returns (r: Option<File>)
    ensures r.None? ==> forall f :: f in levelFiles ==> !IsBoundary(f, largest)
    ensures r.Some? ==> IsSmallestBoundary(levelFiles, largest, r.value)
  {
    r := None;
    for i := 0 to |levelFiles|
      invariant r.None? ==> forall j :: 0 <= j < i ==> !IsBoundary(levelFiles[j], largest)
      invariant r.Some? ==> r.value in levelFiles && IsBoundary(r.value, largest)
      invariant r.Some? ==> forall j :: 0 <= j < i && IsBoundary(levelFiles[j], largest)
                                        ==> !levelFiles[j].smallest.Less(r.value.smallest)
    {
      var f := levelFiles[i];
      if IsBoundary(f, largest) && (r.None? || f.smallest.Less(r.value.smallest)) {
        r := Some(f);
      }
    }
  }

  /** Nothing in the level continues the last user key of the files. */
  ghost predicate BoundaryClosed(levelFiles: seq<File>, files: seq<File>) {
    forall top, f :: IsLargestKey(files, top) && f in levelFiles ==> !IsBoundary(f, top)
  }

  /** The files are neighbours in the level, from position a on. */
  ghost predicate AreNeighbours(level: seq<File>, a: nat, files: seq<File>) {
    a + |files| <= |level| && forall i :: 0 <= i < |files| ==> files[i] == level[a + i]
  }

  /** `files` extends `start`, and only by files that continue the user key before them. */
  ghost predicate GrownBy(start: seq<File>, files: seq<File>) {
    && |start| <= |files|
    && files[..|start|] == start
    && forall i :: 0 < i && |start| <= i < |files| ==> files[i].smallest.user == files[i - 1].largest.user
  }

  ghost function Above(levelFiles: seq<File>, key: InternalKey): nat {
    if levelFiles == [] then 0
    else (if key.Less(levelFiles[0].smallest) then 1 else 0) + Above(levelFiles[1..], key)
  }

  lemma {:induction false} AboveShrinks(levelFiles: seq<File>, low: InternalKey, high: InternalKey)
    requires !high.Less(low)
    ensures Above(levelFiles, high) <= Above(levelFiles, low)
    ensures forall f :: f in levelFiles && low.Less(f.smallest) && !high.Less(f.smallest)
                        ==> Above(levelFiles, high) < Above(levelFiles, low)
  {
    if levelFiles != [] {
      AboveShrinks(levelFiles[1..], low, high);
      assert forall f :: f in levelFiles ==> f == levelFiles[0] || f in levelFiles[1..];
    }
  }

  lemma LargestGrows(files: seq<File>, largest: InternalKey, f: File)
    requires ValidFile(f) && IsLargestKey(files, largest) && IsBoundary(f, largest)
    ensures IsLargestKey(files + [f], f.largest)
    ensures !f.largest.Less(f.smallest)
  {
    FileEnds(f);
    assert f in files + [f];
  }

  /** What AddBoundaryInputs keeps while it appends: a closed start stays as it is, and on
      a sorted level a run of neighbours stays a run and takes in no file beyond the user
      key that crosses the boundary. */
  ghost predicate BoundaryGrowth(levelFiles: seq<File>, start: seq<File>, files: seq<File>) {
    && |start| <= |files|
    && files[..|start|] == start
    && (BoundaryClosed(levelFiles, start) ==> files == start)
    && (Disjoint(levelFiles) ==>
          forall a :: AreNeighbours(levelFiles, a, start)
            ==> AreNeighbours(levelFiles, a, files) && GrownBy(start, files))
  }

  lemma BoundaryStep(levelFiles: seq<File>, start: seq<File>, files: seq<File>, largest: InternalKey, f: File)
    requires ValidFiles(levelFiles) && start != []
    requires BoundaryGrowth(levelFiles, start, files)
    requires IsLargestKey(files, largest) && IsSmallestBoundary(levelFiles, largest, f)
    ensures BoundaryGrowth(levelFiles, start, files + [f])
  {
    if Disjoint(levelFiles) {
      forall a | AreNeighbours(levelFiles, a, start)
        ensures AreNeighbours(levelFiles, a, files + [f]) && GrownBy(start, files + [f])
      {
        ExtensionIsNext(levelFiles, a, files, largest, f);
      }
    }
  }

  method AddBoundaryInputs(levelFiles: seq<File>, start: seq<File>) returns (files: seq<File>)
    requires ValidFiles(levelFiles) && ValidFiles(start)
    ensures BoundaryGrowth(levelFiles, start, files)
    ensures start == [] ==> files == []
    ensures BoundaryClosed(levelFiles, files)
  {
    files := start;
    if start == [] {
      return;
    }
    var largest := FindLargestKey(files);
    var searching := true;
    while searching
      invariant BoundaryGrowth(levelFiles, start, files)
      invariant IsLargestKey(files, largest)
      invariant !searching ==> forall f :: f in levelFiles ==> !IsBoundary(f, largest)
      decreases searching, Above(levelFiles, largest)
    {
      var next := FindSmallestBoundaryFile(levelFiles, largest);
      if next.Some? {
        var f := next.value;
        BoundaryStep(levelFiles, start, files, largest, f);
        LargestGrows(files, largest, f);
        AboveShrinks(levelFiles, largest, f.largest);
        files := files + [f];
        largest := f.largest;
      } else {
        searching := false;
      }
    }
  }

  lemma ExtensionIsNext(level: seq<File>, a: nat, files: seq<File>, top: InternalKey, f: File)
    requires ValidFiles(level) && Disjoint(level)
    requires files != [] && AreNeighbours(level, a, files)
    requires IsLargestKey(files, top) && IsSmallestBoundary(level, top, f)
    ensures AreNeighbours(level, a, files + [f])
    ensures f.smallest.user == files[|files| - 1].largest.user
  {
    var b := a + |files|;
    LargestIsLast(level, a, files, top);
    var k :| 0 <= k < |level| && level[k] == f;
    BoundaryIsNext(level, b, k);
  }

  lemma Ordered(level: seq<File>, i: nat, j: nat)
    requires ValidFiles(level) && Disjoint(level)
    requires i <= j < |level|
    ensures i < j ==> level[i].largest.Less(level[j].smallest) && level[i].largest.Less(level[j].largest)
    ensures i < j ==> level[i].smallest.Less(level[j].smallest)
    ensures !level[i].largest.Less(level[i].smallest)
  {
    FileEnds(level[i]);
    FileEnds(level[j]);
  }

  lemma LargestIsLast(level: seq<File>, a: nat, files: seq<File>, top: InternalKey)
    requires ValidFiles(level) && Disjoint(level)
    requires files != [] && AreNeighbours(level, a, files)
    requires IsLargestKey(files, top)
    ensures top == files[|files| - 1].largest
  {
    var f :| f in files && f.largest == top;
    var k :| 0 <= k < |files| && files[k] == f;
    var n := |files| - 1;
    assert files[n] in files;
    Ordered(level, a + k, a + n);
  }

  lemma BoundaryIsNext(level: seq<File>, b: nat, k: nat)
    requires ValidFiles(level) && Disjoint(level)
    requires 0 < b <= |level| && k < |level|
    requires IsSmallestBoundary(level, level[b - 1].largest, level[k])
    ensures k == b
  {
    var last := b - 1;
    if k < b {
      Ordered(level, k, last);
    } else if b < k {
      Ordered(level, last, b);
      Ordered(level, b, k);
    }
  }

  /** The minimal range covering some files (GetRange, user-key part). */
  ghost predicate IsHull(files: seq<File>, lo: UserKey, hi: UserKey) {
    && (exists f :: f in files && f.smallest.user == lo)
    && (exists f :: f in files && f.largest.user == hi)
    && forall f :: f in files ==> lo <= f.smallest.user && f.largest.user <= hi
  }

  method GetRange(files: seq<File>) returns (smallest: InternalKey, largest: InternalKey)
    requires files != []
    ensures IsHull(files, smallest.user, largest.user)
    ensures IsLargestKey(files, largest)
    ensures forall f :: f in files ==> !f.smallest.Less(smallest)
  {
    smallest, largest := files[0].smallest, files[0].largest;
    assert files[0] in files;
    for i := 1 to |files|
      invariant exists f :: f in files && f.smallest == smallest
      invariant exists f :: f in files && f.largest == largest
      invariant forall j :: 0 <= j < i ==> !files[j].smallest.Less(smallest) && !largest.Less(files[j].largest)
    {
      assert files[i] in files;
      if files[i].smallest.Less(smallest) {
        smallest := files[i].smallest;
      }
      if largest.Less(files[i].largest) {
        largest := files[i].largest;
      }
    }
  }

  lemma HullOf(files: seq<File>) returns (lo: UserKey, hi: UserKey)
    requires files != []
    ensures IsHull(files, lo, hi)
  {
    var f := files[|files| - 1];
    if |files| == 1 {
      lo, hi := f.smallest.user, f.largest.user;
    } else {
      lo, hi := HullOf(files[..|files| - 1]);
      assert files == files[..|files| - 1] + [f];
      lo := if f.smallest.user < lo then f.smallest.user else lo;
      hi := if hi < f.largest.user then f.largest.user else hi;
    }
  }

  lemma HullIsUnique(files: seq<File>, lo: UserKey, hi: UserKey, lo': UserKey, hi': UserKey)
    requires IsHull(files, lo, hi) && IsHull(files, lo', hi')
    ensures lo == lo' && hi == hi'
  {
  }

  /** Upper inputs a compaction may start from: on level 0 an overlap-closed set, on a
      deeper level a run of neighbours. */
  ghost predicate GoodStart(files: seq<File>, level: nat, start: seq<File>) {
    && start != []
    && (forall f :: f in start ==> f in files)
    && (level == 0 ==> forall lo, hi, f :: IsHull(start, lo, hi) && f in files && Overlaps(f, Range(Some(lo), Some(hi)))
                                           ==> f in start)
    && (level > 0 ==> exists a :: AreNeighbours(files, a, start))
  }

  /** What SetupOtherInputs hands to the compaction loop: the upper inputs are also
      closed at their boundary, and the lower inputs are exactly the files of the next
      level that meet their user-key range. */
  ghost predicate Picked(levels: seq<seq<File>>, level: nat, in0: seq<File>, in1: seq<File>)
    requires level + 1 < |levels|
  {
    && GoodStart(levels[level], level, in0)
    && BoundaryClosed(levels[level], in0)
    && forall lo, hi :: IsHull(in0, lo, hi) ==> in1 == Overlapping(levels[level + 1], Range(Some(lo), Some(hi)))
  }

  /** An overlap-closed level-0 set has no boundary files left. */
  lemma ClosedStartHasNoBoundary(files: seq<File>, start: seq<File>)
    requires ValidFiles(files) && GoodStart(files, 0, start)
    ensures BoundaryClosed(files, start)
  {
    HullExists(start);
    var lo, hi :| IsHull(start, lo, hi);
    forall top, f | IsLargestKey(start, top) && f in files
      ensures !IsBoundary(f, top)
    {
      var g :| g in start && g.largest == top;
      FileEnds(f);
      FileEnds(g);
      assert f.smallest.user == top.user ==> Overlaps(f, Range(Some(lo), Some(hi)));
    }
  }

  lemma {:induction false} HullExists(files: seq<File>)
    requires files != []
    ensures exists lo, hi :: IsHull(files, lo, hi)
  {
    var f := files[|files| - 1];
    var lo, hi := f.smallest.user, f.largest.user;
    if |files| > 1 {
      var rest := files[..|files| - 1];
      assert forall g :: g in files <==> g in rest || g == f;
      HullExists(rest);
      var lo', hi' :| IsHull(rest, lo', hi');
      lo, hi := if lo' < lo then lo' else lo, if hi' > hi then hi' else hi;
    }
    assert IsHull(files, lo, hi);
  }

  /** AddBoundaryInputs, seen from a good start. */
  method CloseBoundary(files: seq<File>, level: nat, start: seq<File>) returns (ext: seq<File>)
    requires ValidFiles(files) && (level > 0 ==> Disjoint(files))
    requires GoodStart(files, level, start)
    ensures GoodStart(files, level, ext) && BoundaryClosed(files, ext)
    ensures forall f :: f in start ==> f in ext
    ensures level == 0 ==> ext == start
  {
    ext := AddBoundaryInputs(files, start);
    if level == 0 {
      ClosedStartHasNoBoundary(files, start);
    } else {
      ghost var a :| AreNeighbours(files, a, start);
      assert AreNeighbours(files, a, ext);
    }
    assert forall f :: f in start ==> f in ext[..|start|];
  }

  /** On a sorted level the files that meet a range are neighbours. */
  lemma {:induction false} OverlappingIsRun(files: seq<File>, r: Range) returns (a: nat)
    requires ValidFiles(files) && Disjoint(files)
    ensures AreNeighbours(files, a, Overlapping(files, r))
  {
    if files == [] {
      return 0;
    }
    var n := |files| - 1;
    var rest := Overlapping(files[..n], r);
    InitStaysSorted(files);
    a := OverlappingIsRun(files[..n], r);
    RunLifts(files, n, a, rest);
    OverlappingSnoc(files, n, r);
    assert files[..n + 1] == files;
    if Overlaps(files[n], r) {
      if rest == [] {
        a := n;
      } else {
        GapIsFilled(files, r, a, rest);
      }
    }
  }

  lemma InitStaysSorted(files: seq<File>)
    requires ValidFiles(files) && Disjoint(files) && files != []
    ensures ValidFiles(files[..|files| - 1]) && Disjoint(files[..|files| - 1])
  {
  }

  lemma RunLifts(files: seq<File>, n: nat, a: nat, run: seq<File>)
    requires n <= |files| && AreNeighbours(files[..n], a, run)
    ensures AreNeighbours(files, a, run)
  {
  }

  lemma GapIsFilled(files: seq<File>, r: Range, a: nat, rest: seq<File>)
    requires ValidFiles(files) && Disjoint(files) && files != []
    requires rest != [] && rest == Overlapping(files[..|files| - 1], r)
    requires AreNeighbours(files[..|files| - 1], a, rest)
    requires Overlaps(files[|files| - 1], r)
    ensures a + |rest| == |files| - 1
  {
    var n, b := |files| - 1, a + |rest|;
    if b < n {
      assert rest[0] in rest && rest[0] == files[a];
      Ordered(files, a, b);
      Ordered(files, b, n);
      assert files[b] in files[..n] && Overlaps(files[b], r);
    }
  }

  /** A closed cover makes its files a good level-0 start. */
  lemma ClosureIsGood(files: seq<File>, cover: Range)
    requires ValidFiles(files) && ClosedUnderOverlap(files, cover)
    requires Overlapping(files, cover) != []
    ensures GoodStart(files, 0, Overlapping(files, cover))
  {
    var start := Overlapping(files, cover);
    forall lo, hi, f | IsHull(start, lo, hi) && f in files && Overlaps(f, Range(Some(lo), Some(hi)))
      ensures f in start
    {
      var g :| g in start && g.smallest.user == lo;
      var h :| h in start && h.largest.user == hi;
      assert cover.Contains(Span(g)) && cover.Contains(Span(h));
      assert Overlaps(f, cover);
    }
  }

  /** Files overlapping a range on any level make a good start. */
  lemma OverlappingIsGood(files: seq<File>, level: nat, cover: Range)
    requires ValidFiles(files) && (level > 0 ==> Disjoint(files))
    requires level == 0 ==> ClosedUnderOverlap(files, cover)
    requires Overlapping(files, cover) != []
    ensures GoodStart(files, level, Overlapping(files, cover))
  {
    if level == 0 {
      ClosureIsGood(files, cover);
    } else {
      var a := OverlappingIsRun(files, cover);
    }
  }

  function TotalFileSize(files: seq<File>): nat {
    if files == [] then 0 else files[0].size + TotalFileSize(files[1..])
  }

  ghost predicate ValidLevels(levels: seq<seq<File>>) {
    && |levels| == NUM_LEVELS
    && (forall l :: 0 <= l < NUM_LEVELS ==> ValidFiles(levels[l]))
    && (forall l :: 0 < l < NUM_LEVELS ==> Disjoint(levels[l]))
  }

  /** Every upper input lies in the range that covers all inputs. */
  lemma CoverHoldsInputs(in0: seq<File>, in1: seq<File>, all: Range, files: seq<File>, cover: Range)
    requires ValidFiles(in0) && all.lo.Some? && all.hi.Some? && IsHull(in0 + in1, all.lo.value, all.hi.value)
    requires cover.Contains(all)
    requires forall f :: f in in0 ==> f in files
    ensures forall f :: f in in0 ==> f in Overlapping(files, cover)
  {
    forall f | f in in0
      ensures f in Overlapping(files, cover)
    {
      FileEnds(f);
      assert f in in0 + in1;
    }
  }

  /** Level-0 inputs are the files that meet some range, in the level's order. */
  ghost predicate ByRange(files: seq<File>, level: nat, inputs: seq<File>) {
    level == 0 ==> exists r :: inputs == Overlapping(files, r)
  }

  function UserRange(smallest: InternalKey, largest: InternalKey): Range {
    Range(Some(smallest.user), Some(largest.user))
  }

  /** VersionSet::SetupOtherInputs; expandedLimit is ExpandedCompactionByteSizeLimit. */
  method SetupOtherInputs(levels: seq<seq<File>>, level: nat, start: seq<File>, expandedLimit: nat)
      returns (in0: seq<File>, in1: seq<File>)
    requires ValidLevels(levels) && level + 1 < NUM_LEVELS
    requires GoodStart(levels[level], level, start)
    ensures Picked(levels, level, in0, in1)
    ensures forall f :: f in start ==> f in in0
    ensures ByRange(levels[level], level, start) ==> ByRange(levels[level], level, in0)
  {
    in0 := CloseBoundary(levels[level], level, start);
    var smallest, largest := GetRange(in0);
    ghost var cover;
    in1, cover := GetOverlappingInputs(level + 1, levels[level + 1], UserRange(smallest, largest));
    PickedByRange(levels, level, in0, in1, smallest.user, largest.user);
    if in1 != [] {
      var new0, new1 := ExpandInputs(levels, level, in0, in1, expandedLimit);
      in0, in1 := new0, new1;
    }
  }

  /** Inputs that take in all files of the level between the ends of the given ones. */
  ghost predicate Grown(levels: seq<seq<File>>, level: nat, in0: seq<File>, in1: seq<File>, more0: seq<File>,
                        more1: seq<File>)
    requires level + 1 < |levels|
  {
    && Picked(levels, level, more0, more1) && (forall f :: f in in0 ==> f in more0)
    && forall lo, hi :: IsHull(in0 + in1, lo, hi) ==>
         forall f :: f in levels[level] && Overlaps(f, Range(Some(lo), Some(hi))) ==> f in more0
  }

  /** Grow only if that takes more upper files, no more lower ones, and fewer bytes than allowed. */
  ghost function GrowIfCheap(in0: seq<File>, in1: seq<File>, more0: seq<File>, more1: seq<File>, limit: nat)
      : (seq<File>, seq<File>)
  {
    if |more0| > |in0| && |more1| == |in1| && TotalFileSize(in1) + TotalFileSize(more0) < limit then (more0, more1)
    else (in0, in1)
  }

  /** The second half of SetupOtherInputs: grow the upper inputs when that picks up no
      further file of the next level, and not too many bytes. */
  method ExpandInputs(levels: seq<seq<File>>, level: nat, in0: seq<File>, in1: seq<File>, expandedLimit: nat)
      returns (new0: seq<File>, new1: seq<File>)
    requires ValidLevels(levels) && level + 1 < NUM_LEVELS && Picked(levels, level, in0, in1)
    ensures Picked(levels, level, new0, new1)
    ensures exists more0, more1 :: Grown(levels, level, in0, in1, more0, more1)
                                   && (new0, new1) == GrowIfCheap(in0, in1, more0, more1, expandedLimit)
    ensures ByRange(levels[level], level, in0) ==> ByRange(levels[level], level, new0)
  {
    new0, new1 := in0, in1;
    var allStart, allLimit := GetRange(in0 + in1);
    ghost var cover;
    var expanded0;
    expanded0, cover := GetOverlappingInputs(level, levels[level], UserRange(allStart, allLimit));
    CoverHoldsInputs(in0, in1, UserRange(allStart, allLimit), levels[level], cover);
    assert in0[0] in expanded0;
    OverlappingIsGood(levels[level], level, cover);
    ghost var between := expanded0;
    expanded0 := CloseBoundary(levels[level], level, expanded0);
    ghost var more1 := GrownInputs(levels, level, in0, in1, between, expanded0, allStart.user, allLimit.user, cover);
    if |expanded0| > |in0| && TotalFileSize(in1) + TotalFileSize(expanded0) < expandedLimit {
      var newStart, newLimit := GetRange(expanded0);
      var expanded1;
      expanded1, cover := GetOverlappingInputs(level + 1, levels[level + 1], UserRange(newStart, newLimit));
      SameLower(levels, level, expanded0, more1, newStart.user, newLimit.user);
      if |expanded1| == |in1| {
        new0, new1 := expanded0, expanded1;
        PickedByRange(levels, level, new0, new1, newStart.user, newLimit.user);
      }
    }
  }

  /** The files found between the ends, closed at their boundary, and the lower files they meet. */
  lemma GrownInputs(levels: seq<seq<File>>, level: nat, in0: seq<File>, in1: seq<File>, between: seq<File>,
                    more0: seq<File>, lo: UserKey, hi: UserKey, cover: Range) returns (more1: seq<File>)
    requires ValidLevels(levels) && level + 1 < NUM_LEVELS
    requires IsHull(in0 + in1, lo, hi) && cover.Contains(Range(Some(lo), Some(hi)))
    requires between == Overlapping(levels[level], cover) && forall f :: f in between ==> f in more0
    requires (forall f :: f in in0 ==> f in between)
    requires GoodStart(levels[level], level, more0) && BoundaryClosed(levels[level], more0)
    ensures Grown(levels, level, in0, in1, more0, more1)
  {
    more1 := LowerOf(levels, level, more0);
    forall a, b | IsHull(in0 + in1, a, b)
      ensures a == lo && b == hi
    {
      HullIsUnique(in0 + in1, lo, hi, a, b);
    }
    AllBetween(levels[level], lo, hi, cover, more0);
  }

  lemma LowerOf(levels: seq<seq<File>>, level: nat, more0: seq<File>) returns (more1: seq<File>)
    requires ValidLevels(levels) && level + 1 < NUM_LEVELS
    requires GoodStart(levels[level], level, more0) && BoundaryClosed(levels[level], more0)
    ensures Picked(levels, level, more0, more1)
  {
    var lo, hi := HullOf(more0);
    more1 := Overlapping(levels[level + 1], Range(Some(lo), Some(hi)));
    PickedByRange(levels, level, more0, more1, lo, hi);
  }

  lemma AllBetween(files: seq<File>, lo: UserKey, hi: UserKey, cover: Range, more: seq<File>)
    requires cover.Contains(Range(Some(lo), Some(hi))) && forall f :: f in Overlapping(files, cover) ==> f in more
    ensures forall f :: f in files && Overlaps(f, Range(Some(lo), Some(hi))) ==> f in more
  {
  }

  lemma SameLower(levels: seq<seq<File>>, level: nat, in0: seq<File>, in1: seq<File>, lo: UserKey, hi: UserKey)
    requires level + 1 < |levels| && Picked(levels, level, in0, in1) && IsHull(in0, lo, hi)
    ensures in1 == Overlapping(levels[level + 1], Range(Some(lo), Some(hi)))
  {
  }

  lemma PickedByRange(levels: seq<seq<File>>, level: nat, in0: seq<File>, in1: seq<File>, lo: UserKey, hi: UserKey)
    requires level + 1 < |levels|
    requires GoodStart(levels[level], level, in0) && BoundaryClosed(levels[level], in0)
    requires IsHull(in0, lo, hi) && in1 == Overlapping(levels[level + 1], Range(Some(lo), Some(hi)))
    ensures Picked(levels, level, in0, in1)
  {
    forall lo', hi' | IsHull(in0, lo', hi')
      ensures lo' == lo && hi' == hi
    {
      HullIsUnique(in0, lo, hi, lo', hi');
    }
  }

  /** VersionSet::PickCompaction once a level and one of its files are chosen: which
      file is chosen (score, seek count, compaction pointer) is left open. */
  method PickCompaction(levels: seq<seq<File>>, level: nat, index: nat, expandedLimit: nat)
      returns (in0: seq<File>, in1: seq<File>)
    requires ValidLevels(levels) && level + 1 < NUM_LEVELS && index < |levels[level]|
    ensures Picked(levels, level, in0, in1) && ByRange(levels[level], level, in0)
    ensures levels[level][index] in in0
  {
    var f := levels[level][index];
    var start := [f];
    if level == 0 {
      ghost var cover;
      start, cover := GetOverlappingInputs(0, levels[0], UserRange(f.smallest, f.largest));
      FileEnds(f);
      assert Overlaps(f, UserRange(f.smallest, f.largest));
      assert f in start;
      OverlappingIsGood(levels[0], 0, cover);
    } else {
      assert AreNeighbours(levels[level], index, start);
    }
    in0, in1 := SetupOtherInputs(levels, level, start, expandedLimit);
  }

  /** VersionSet::CompactRange; limit is MaxFileSizeForLevel. No inputs: no compaction. */
  method CompactRange(levels: seq<seq<File>>, level: nat, r: Range, limit: nat, expandedLimit: nat)
      returns (in0: seq<File>, in1: seq<File>)
    requires ValidLevels(levels) && level + 1 < NUM_LEVELS
    ensures in0 != [] ==> Picked(levels, level, in0, in1) && ByRange(levels[level], level, in0)
    ensures in0 == [] <==> forall f :: f in levels[level] ==> !Overlaps(f, r)
    ensures in0 != [] ==> exists f :: f in in0 && Overlaps(f, r)
  {
    var inputs;
    ghost var cover;
    inputs, cover := GetOverlappingInputs(level, levels[level], r);
    CoverIsEmptyTogether(levels[level], level, r, cover);
    if inputs == [] {
      return [], [];
    }
    OverlappingIsGood(levels[level], level, cover);
    if level > 0 {
      inputs := TrimInputs(levels[level], inputs, limit);
    }
    in0, in1 := SetupOtherInputs(levels, level, inputs, expandedLimit);
    assert inputs[0] in in0;
  }

  lemma CoverIsEmptyTogether(files: seq<File>, level: nat, r: Range, cover: Range)
    requires level > 0 ==> cover == r
    requires level == 0 ==> IsClosure(files, r, cover)
    ensures Overlapping(files, cover) == [] <==> forall f :: f in files ==> !Overlaps(f, r)
  {
    var inputs := Overlapping(files, cover);
    assert inputs != [] ==> inputs[0] in inputs;
    if f :| f in files && Overlaps(f, r) {
      assert f in inputs;
    } else {
      assert ClosedUnderOverlap(files, r);
      assert forall f :: f in inputs ==> Overlaps(f, cover);
      assert forall f :: f in files ==> !Overlaps(f, cover);
    }
  }

  /** The loop of CompactRange that stops after `limit` bytes. */
  method TrimInputs(files: seq<File>, inputs: seq<File>, limit: nat) returns (kept: seq<File>)
    requires inputs != [] && exists a :: AreNeighbours(files, a, inputs)
    requires forall f :: f in inputs ==> f in files
    ensures kept != [] && kept <= inputs
    ensures TotalFileSize(kept[..|kept| - 1]) < limit || |kept| == 1
    ensures kept == inputs || TotalFileSize(kept) >= limit
    ensures exists a :: AreNeighbours(files, a, kept)
    ensures forall f :: f in kept ==> f in files
  {
    ghost var a :| AreNeighbours(files, a, inputs);
    kept := inputs;
    var total := 0;
    for i := 0 to |inputs|
      invariant kept == inputs
      invariant total == TotalFileSize(inputs[..i])
      invariant 0 < i ==> total < limit
    {
      SizeOfPrefix(inputs, i);
      total := total + inputs[i].size;
      if total >= limit {
        kept := inputs[..i + 1];
        assert kept[..i] == inputs[..i];
        break;
      }
    }
    if kept == inputs {
      assert inputs[..|inputs|] == inputs;
      SizeOfPrefix(inputs, |inputs| - 1);
    }
    assert AreNeighbours(files, a, kept);
  }

  lemma {:induction false} SizeOfPrefix(files: seq<File>, i: nat)
    requires i < |files|
    ensures TotalFileSize(files[..i + 1]) == TotalFileSize(files[..i]) + files[i].size
  {
    if i > 0 {
      SizeOfPrefix(files[1..], i - 1);
      assert files[1..][..i] == files[..i + 1][1..];
      assert files[1..][..i - 1] == files[..i][1..];
    }
  }
}
