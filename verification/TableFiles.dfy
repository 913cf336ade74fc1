/** Table-file metadata and the searches over a level's file list, as in
    db/version_set.cc. */
module TableFiles {
  import opened Wrappers
  import opened InternalKeys

  /** FileMetaData together with the contents of the table file it names. */
  datatype File = File(number: nat, size: nat, smallest: InternalKey, largest: InternalKey, entries: seq<Entry>)

  const NUM_LEVELS := 7

  ghost predicate ValidFile(f: File) {
    && f.entries != []
    && Sorted(f.entries)
    && f.smallest == f.entries[0].ikey
    && f.largest == f.entries[|f.entries| - 1].ikey
    && forall e :: e in f.entries ==> e.ikey.sequence < MAX_SEQUENCE
  }

  ghost predicate ValidFiles(fs: seq<File>) {
    forall f :: f in fs ==> ValidFile(f)
  }

  /** Levels above zero: files in key order, no two sharing an internal key. */
  ghost predicate Disjoint(fs: seq<File>) {
    forall i, j :: 0 <= i < j < |fs| ==> fs[i].largest.Less(fs[j].smallest)
  }

  lemma FileBounds(f: File, e: Entry)
    requires ValidFile(f) && e in f.entries
    ensures !e.ikey.Less(f.smallest) && !f.largest.Less(e.ikey)
    ensures f.smallest.user <= e.ikey.user <= f.largest.user
  {
    var i :| 0 <= i < |f.entries| && f.entries[i] == e;
    assert 0 < i ==> f.entries[0].ikey.Less(f.entries[i].ikey);
    assert i < |f.entries| - 1 ==> f.entries[i].ikey.Less(f.entries[|f.entries| - 1].ikey);
  }

  lemma FileEnds(f: File)
    requires ValidFile(f)
    ensures !f.largest.Less(f.smallest)
    ensures f.smallest.user <= f.largest.user
  {
    FileBounds(f, f.entries[0]);
  }

  /** The binary search of FindFile, whatever the order of the files. */
  function Bisect(files: seq<File>, key: InternalKey, left: nat, right: nat): (index: nat)
    requires left <= right <= |files|
    decreases right - left
  {
    if left == right then right
    else
      var mid := (left + right) / 2;
      if files[mid].largest.Less(key) then Bisect(files, key, mid + 1, right) else Bisect(files, key, left, mid)
  }

  /** FindFile: the binary search for the first file whose largest key is >= key. */
  method FindFile(files: seq<File>, key: InternalKey) returns (right: nat)
    requires ValidFiles(files) && Disjoint(files)
    ensures right <= |files|
    ensures forall i :: 0 <= i < right ==> files[i].largest.Less(key)
    ensures forall i :: right <= i < |files| ==> !files[i].largest.Less(key)
    ensures right == Bisect(files, key, 0, |files|)
  {
    var left := 0;
    right := |files|;
    while left < right
      invariant 0 <= left <= right <= |files|
      invariant Bisect(files, key, left, right) == Bisect(files, key, 0, |files|)
      invariant forall i :: 0 <= i < left ==> files[i].largest.Less(key)
      invariant forall i :: right <= i < |files| ==> !files[i].largest.Less(key)
    {
      var mid := (left + right) / 2;
      if files[mid].largest.Less(key) {
        forall i | 0 <= i <= mid
          ensures files[i].largest.Less(key)
        {
          FileEnds(files[mid]);
          assert i < mid ==> files[i].largest.Less(files[mid].smallest);
        }
        left := mid + 1;
      } else {
        forall i | mid <= i < |files|
          ensures !files[i].largest.Less(key)
        {
          FileEnds(files[i]);
          assert mid < i ==> files[mid].largest.Less(files[i].smallest);
        }
        right := mid;
      }
    }
  }

  /** A closed user-key range; a missing end is unbounded (the source's nullptr). */
  datatype Range = Range(lo: Option<UserKey>, hi: Option<UserKey>)
  {
    predicate Contains(r: Range) {
      && (lo.Some? ==> r.lo.Some? && lo.value <= r.lo.value)
      && (hi.Some? ==> r.hi.Some? && r.hi.value <= hi.value)
    }
  }

  function Span(f: File): Range {
    Range(Some(f.smallest.user), Some(f.largest.user))
  }

  /** Neither AfterFile nor BeforeFile. */
  predicate Overlaps(f: File, r: Range) {
    && (r.lo.Some? ==> r.lo.value <= f.largest.user)
    && (r.hi.Some? ==> f.smallest.user <= r.hi.value)
  }

  /** The files of a list that overlap a range, in list order. */
  function Overlapping(fs: seq<File>, r: Range): (out: seq<File>)
    ensures forall f :: f in out <==> f in fs && Overlaps(f, r)
  {
    if fs == [] then [] else
      var rest := Overlapping(fs[..|fs| - 1], r);
      var last := fs[|fs| - 1];
      assert forall f :: f in fs <==> f in fs[..|fs| - 1] || f == last;
      if Overlaps(last, r) then rest + [last] else rest
  }

  /** SomeFileOverlapsRange: linear on level 0, one binary search elsewhere. */
  method SomeFileOverlapsRange(disjointSortedFiles: bool, files: seq<File>, r: Range) returns (found: bool)
    requires ValidFiles(files) && (disjointSortedFiles ==> Disjoint(files))
    ensures found <==> exists f :: f in files && Overlaps(f, r)
  {
    if !disjointSortedFiles {
      for i := 0 to |files|
        invariant forall j :: 0 <= j < i ==> !Overlaps(files[j], r)
      {
        if Overlaps(files[i], r) {
          assert files[i] in files;
          return true;
        }
      }
      return false;
    }
    var index := 0;
    if r.lo.Some? {
      var smallKey := InternalKey(r.lo.value, MAX_SEQUENCE, Put);
      index := FindFile(files, smallKey);
      forall i | 0 <= i < |files|
        ensures files[i].largest.Less(smallKey) <==> files[i].largest.user < r.lo.value
      {
        assert ValidFile(files[i]);
        assert files[i].entries[|files[i].entries| - 1] in files[i].entries;
      }
    }
    if index >= |files| {
      return false;
    }
    found := r.hi.None? || files[index].smallest.user <= r.hi.value;
    if found {
      assert files[index] in files && Overlaps(files[index], r);
    } else {
      forall i | 0 <= i < |files|
        ensures !Overlaps(files[i], r)
      {
        if index < i {
          FileEnds(files[index]);
          assert files[index].largest.Less(files[i].smallest);
        }
      }
    }
  }

  /** Every file that meets the range lies inside it. */
  ghost predicate ClosedUnderOverlap(fs: seq<File>, r: Range) {
    forall f :: f in fs && Overlaps(f, r) ==> r.Contains(Span(f))
  }

  /** c lies inside every overlap-closed range around r. */
  ghost predicate BelowClosures(fs: seq<File>, r: Range, c: Range) {
    forall d: Range :: d.Contains(r) && ClosedUnderOverlap(fs, d) ==> d.Contains(c)
  }

  /** The least overlap-closed range around r. */
  ghost predicate IsClosure(fs: seq<File>, r: Range, c: Range) {
    c.Contains(r) && ClosedUnderOverlap(fs, c) && BelowClosures(fs, r, c)
  }

  /** Taking in a file that overlaps the range stays below every closed range. */
  lemma WideningStaysBelow(fs: seq<File>, r: Range, c: Range, f: File, wider: Range)
    requires BelowClosures(fs, r, c)
    requires f in fs && Overlaps(f, c)
    requires wider == c.(lo := Some(f.smallest.user)) || wider == c.(hi := Some(f.largest.user))
    requires wider.lo.Some? == c.lo.Some? && wider.hi.Some? == c.hi.Some?
    ensures BelowClosures(fs, r, wider)
  {
    forall d: Range | d.Contains(r) && ClosedUnderOverlap(fs, d)
      ensures d.Contains(wider)
    {
      assert d.Contains(c);
      assert Overlaps(f, d);
      assert d.Contains(Span(f));
    }
  }

  /** How many file ends still stick out of a range: what each restart lowers. */
  ghost function Sticking(fs: seq<File>, r: Range): nat {
    if fs == [] then 0 else
      var f := fs[0];
      (if r.lo.Some? && f.smallest.user < r.lo.value then 1 else 0)
      + (if r.hi.Some? && f.largest.user > r.hi.value then 1 else 0)
      + Sticking(fs[1..], r)
  }

  lemma {:induction false} StickingShrinks(fs: seq<File>, r: Range, wider: Range)
    requires wider.Contains(r) && (r.lo.Some? ==> wider.lo.Some?) && (r.hi.Some? ==> wider.hi.Some?)
    ensures Sticking(fs, wider) <= Sticking(fs, r)
    ensures forall f :: f in fs && r.lo.Some? && f.smallest.user < r.lo.value && !(f.smallest.user < wider.lo.value)
                        ==> Sticking(fs, wider) < Sticking(fs, r)
    ensures forall f :: f in fs && r.hi.Some? && f.largest.user > r.hi.value && !(f.largest.user > wider.hi.value)
                        ==> Sticking(fs, wider) < Sticking(fs, r)
  {
    if fs != [] {
      StickingShrinks(fs[1..], r, wider);
      assert forall f :: f in fs ==> f == fs[0] || f in fs[1..];
    }
  }

  lemma OverlappingSnoc(fs: seq<File>, i: nat, r: Range)
    requires i < |fs|
    ensures Overlapping(fs[..i + 1], r) == Overlapping(fs[..i], r) + (if Overlaps(fs[i], r) then [fs[i]] else [])
    ensures ClosedUnderOverlap(fs[..i], r) && (Overlaps(fs[i], r) ==> r.Contains(Span(fs[i])))
            ==> ClosedUnderOverlap(fs[..i + 1], r)
  {
    assert fs[..i + 1][..i] == fs[..i];
    assert forall g :: g in fs[..i + 1] ==> g in fs[..i] || g == fs[i];
  }

  /** Version::GetOverlappingInputs. On level 0, where files overlap one another, the
      scan restarts with a wider range until the range is closed; the range it ends
      with is returned as `cover`. */
  method GetOverlappingInputs(level: nat, files: seq<File>, r: Range) returns (inputs: seq<File>, ghost cover: Range)
    ensures inputs == Overlapping(files, cover)
    ensures level > 0 ==> cover == r
    ensures level == 0 ==> IsClosure(files, r, cover)
  {
    inputs := [];
    var user := r;
    var i := 0;
    while i < |files|
      invariant 0 <= i <= |files|
      invariant inputs == Overlapping(files[..i], user)
      invariant user.Contains(r) && (r.lo.Some? <==> user.lo.Some?) && (r.hi.Some? <==> user.hi.Some?)
      invariant level > 0 ==> user == r
      invariant level == 0 ==> ClosedUnderOverlap(files[..i], user)
      invariant BelowClosures(files, r, user)
      decreases Sticking(files, user), |files| - i
    {
      var f := files[i];
      OverlappingSnoc(files, i, user);
      i := i + 1;
      if Overlaps(f, user) {
        inputs := inputs + [f];
        if level == 0 {
          ghost var before := user;
          if user.lo.Some? && f.smallest.user < user.lo.value {
            user := user.(lo := Some(f.smallest.user));
            inputs, i := [], 0;
            StickingShrinks(files, before, user);
            WideningStaysBelow(files, r, before, f, user);
          } else if user.hi.Some? && f.largest.user > user.hi.value {
            user := user.(hi := Some(f.largest.user));
            inputs, i := [], 0;
            StickingShrinks(files, before, user);
            WideningStaysBelow(files, r, before, f, user);
          }
        }
      }
    }
    cover := user;
    assert files[..i] == files;
  }
}
